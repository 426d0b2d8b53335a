/**
 * A Web transaction with nothing in the way: the frames the scripts send, in the order
 * they send them, are all authorised, do exactly what they are for, and end with the
 * runner registered or removed.
 */
module WebTransactions {
  import opened Wrappers
  import opened Journal
  import opened JournalSafety
  import opened JournalRuns
  import opened JournalEvidence
  import opened Names
  import opened SpelledNames
  import opened Binding
  import opened Executor
  import opened ExecutorSafety
  import opened FrameTable

  /* ------------------------------ One frame at a time --------------------------- */

  /** The slot is the transaction's, can be named, and its service is s. */
  ghost predicate Own(site: Site, tx: Transaction, slot: Slot, s: string) {
    && Hex(site.sha) && OwnSlot(site, tx) == Some(slot) && Nameable(slot)
    && CanonicalService(slot.repository, slot.runner) == Some(s)
  }

  lemma OwnServiceIsAskable(slot: Slot, s: string)
    requires Nameable(slot) && CanonicalService(slot.repository, slot.runner) == Some(s)
    ensures ServiceForm(s)
  {
    hide PathForm, Dots, Owner, Project, Find;
    var o, r := Owner(slot.repository), Project(slot.repository);
    ScopeOfRepository(o, r);
    hide Scope;
    var mid := (o + "-" + r) + "." + slot.runner;
    assert s == SERVICE_HEAD + mid + SERVICE_TAIL;
    assert forall k :: 0 <= k < |mid| ==> RepoChar(mid[k]);
    hide RepoWord, RepoChar;
    assert forall k :: |SERVICE_HEAD| <= k < |s| - |SERVICE_TAIL| ==> s[k] == mid[k - |SERVICE_HEAD|];
    assert s[|s| - |SERVICE_TAIL|..] == SERVICE_TAIL;
  }

  /** A frame of the own slot that is due is authorised. */
  lemma DueIsAuthorized(site: Site, tx: Transaction, w: World, slot: Slot, s: string, k: Kind)
    requires Own(site, tx, slot, s) && Askable(k)
    requires (tx.Creating? && CreateOp(k) && CreateDue(JournalOf(w, slot), k))
          || (tx.Removing? && RemoveOp(k) && RemoveDue(JournalOf(w, slot), k, tx.instance))
    requires ServiceIn(k).Some? ==> ServiceIn(k) == Some(s)
    ensures Authorize(site, tx, w, FrameOf(k, slot), false) == Some(Admitted(k, slot))
  {
    hide FrameOf, Nameable, Askable, Admit, CreateDue, RemoveDue, LocalId, CanonicalService;
    FramesAreExact(FrameOf(k, slot), k, slot);
  }

  /** Nothing stops the operation and the directory is the one it should be. */
  predicate Clear(e: Env) {
    e.dirValid && !e.linked && e.reached >= 6
  }

  lemma PlanIsShort(d: Disk, c: Call)
    ensures |PlanOf(d, c).writes| <= 6
  {
    hide Apply, ApplyAll;
  }

  lemma PerformIsShort(d: Disk, a: Admitted, e: Env)
    ensures |Perform(d, a, e)| <= 6
  {
    hide PlanOf, CanonicalService, InstallDue, NormalizeDue;
    if CallOf(a.kind, e).Some? { PlanIsShort(d, CallOf(a.kind, e).value); }
    if a.kind.Install? { UnitPlanIsShort(d, e.look); }
  }

  lemma UnitPlanIsShort(d: Disk, look: Look)
    ensures |PlanOf(d, CreateUnitAttestation(look)).writes| <= 2
  {
  }

  /** The effects outside the journal. */
  function Outer(xs: seq<Deed>): seq<Act>
    decreases |xs|
  {
    if xs == [] then [] else (if xs[0].act.Wrote? then [] else [xs[0].act]) + Outer(xs[1..])
  }

  lemma {:induction false} OuterConcat(xs: seq<Deed>, ys: seq<Deed>)
    ensures Outer(xs + ys) == Outer(xs) + Outer(ys)
    decreases |xs|
  {
    if xs == [] {
      assert xs + ys == ys;
    } else {
      OuterConcat(xs[1..], ys);
      assert (xs + ys)[1..] == xs[1..] + ys;
      assert Outer(xs + ys) == (if xs[0].act.Wrote? then [] else [xs[0].act]) + (Outer(xs[1..]) + Outer(ys));
    }
  }

  lemma {:induction false} OuterOfWrites(ws: seq<Write>, slot: Slot)
    ensures Outer(Writes(ws, slot)) == []
    decreases |ws|
  {
    if ws != [] {
      OuterOfWrites(ws[1..], slot);
      assert Writes(ws, slot)[1..] == Writes(ws[1..], slot);
    }
  }

  lemma {:induction false} OuterOfDeeds(slot: Slot, service: Option<string>, acts: seq<Act>)
    requires forall k :: 0 <= k < |acts| ==> !acts[k].Wrote?
    ensures Outer(DeedsOf(slot, service, acts)) == acts
    decreases |acts|
  {
    if acts != [] {
      OuterOfDeeds(slot, service, acts[1..]);
      assert DeedsOf(slot, service, acts)[1..] == DeedsOf(slot, service, acts[1..]);
      assert acts == [acts[0]] + acts[1..];
    }
  }

  /** What one frame does: it turns the slot's journal into d' and has these effects. */
  ghost predicate Does(site: Site, tx: Transaction, w: World, f: Frame, slot: Slot, acts: seq<Act>, d': Disk)
    requires Hex(site.sha)
  {
    var xs := Answered(site, tx, w, f);
    && Outer(xs) == acts
    && JournalOf(DoAll(w, xs), slot) == d'
  }

  lemma FramePerforms(site: Site, tx: Transaction, w: World, f: Frame, slot: Slot, k: Kind)
    requires Hex(site.sha) && Clear(f.env)
    requires Authorize(site, tx, w, f.payload, false) == Some(Admitted(k, slot))
    ensures var d := JournalOf(w, slot);
      var xs := Perform(d, Admitted(k, slot), f.env);
      Does(site, tx, w, f, slot, Outer(xs), ApplyAll(d, WritesIn(xs)))
  {
    hide Authorize, Perform, Outer, WritesIn;
    var d := JournalOf(w, slot);
    PerformIsShort(d, Admitted(k, slot), f.env);
    PerformIsOwn(d, Admitted(k, slot), f.env);
    var xs := Perform(d, Admitted(k, slot), f.env);
    assert Answered(site, tx, w, f) == xs;
    JournalOfDeeds(w, xs, slot);
  }

  /** An operation that can go through does, and keeps the invariant. */
  lemma CallGoesThrough(d: Disk, c: Call, d0: Disk)
    requires Inv(d) && Performs(d, c, d0)
    ensures var d' := ApplyAll(d, PlanOf(d, c).writes); Performs(d, c, d') && Inv(d')
  {
    hide PlanOf, Performs, AllLicensed;
    OperationExact(d, c);
    PlanLicensed(d, c);
    AllLicensedKeeps(d, PlanOf(d, c).writes);
  }

  lemma CallFrame(site: Site, tx: Transaction, w: World, f: Frame, slot: Slot, k: Kind, d0: Disk)
    requires Hex(site.sha) && Clear(f.env)
    requires k.CreateState? || k.AttestRegistration? || (k.RemoveState? && (k.rcall == Begin || f.env.before == UnitAbsent))
    requires k.RemoveState? ==> CanonicalService(slot.repository, slot.runner).Some?
    requires Authorize(site, tx, w, f.payload, false) == Some(Admitted(k, slot))
    requires Inv(JournalOf(w, slot)) && Performs(JournalOf(w, slot), CallOf(k, f.env).value, d0)
    ensures exists d' :: Performs(JournalOf(w, slot), CallOf(k, f.env).value, d') && Inv(d') && Does(site, tx, w, f, slot, [], d')
  {
    hide Authorize, PlanOf, Performs, Outer, WritesIn, CanonicalService, Does;
    var d := JournalOf(w, slot);
    var c := CallOf(k, f.env).value;
    CallGoesThrough(d, c, d0);
    FramePerforms(site, tx, w, f, slot, k);
    OuterOfWrites(PlanOf(d, c).writes, slot);
    WritesInWrites(PlanOf(d, c).writes, slot);
    assert Perform(d, Admitted(k, slot), f.env) == Writes(PlanOf(d, c).writes, slot);
  }

  /* ------------------------------- Registration --------------------------------- */

  /** What a registration is about: the instance it makes, the directory, the id that
      GitHub gives the runner, the service and the runner version. */
  datatype Aim = Aim(i: Instance, dir: Identity, id: int, service: string, version: string)

  /** The frames of register-runner.sh in Web mode, in order. */
  function CreateKinds(a: Aim): seq<Kind> {
    [CreateState(PreRegistration),
     CreateState(PermissionIncomplete), Normalize, AttestRegistration(a.version),
     CreateState(UnitIncomplete), Install(a.version),
     CreateState(StartIncomplete), Start(a.service),
     CreateState(HealthUnknown), State(a.service),
     CreateState(CreateComplete)]
  }

  const CREATE_ACTS: seq<seq<Act>> := [
    [],
    [], [Constrain], [],
    [], [PublishWrapper, PublishUnit, Systemctl(ReloadUnits), Systemctl(EnableUnit)],
    [], [Systemctl(StartUnit)],
    [], [],
    []]

  /** The stage on record before each frame but the first, and after the last. */
  const CREATE_STAGES: seq<CStage> := [
    PreRegistration,
    PreRegistration, PermissionIncomplete, PermissionIncomplete,
    PermissionIncomplete, UnitIncomplete,
    UnitIncomplete, StartIncomplete,
    StartIncomplete, HealthUnknown,
    HealthUnknown, CreateComplete]

  /** A slot in which a new instance can start: an empty one, or one whose last
      instance is gone from another directory. */
  ghost predicate Free(d: Disk, a: Aim) {
    && a.i !in d.creates
    && (d.active.None? || exists prior, was, r :: GoneElsewhere(d, prior, a.dir, was, r))
  }

  /** The slot's journal when k frames have been answered. */
  ghost predicate CreateAt(d: Disk, k: nat, a: Aim) {
    && k <= 11 && Inv(d)
    && (if k == 0 then Free(d, a)
        else
          && Stands(d, a.i, a.dir, CREATE_STAGES[k]) && a.i !in d.removes
          && (if k < 4 then a.i !in d.atts else AttestedAs(d, a.i, a.dir, a.id))
          && (if k < 6 then a.i !in d.units else a.i in d.units && d.units[a.i].whole))
  }

  /** What the k-th frame meets is in order. */
  predicate CreateMeets(k: nat, e: Env, a: Aim) {
    && Clear(e)
    && (k == 0 ==> e.look == Seen(a.dir) && e.newId == a.i)
    && (k == 2 ==> e.look == Seen(a.dir) && e.filesSafe)
    && (k == 3 ==> InOrder(e.obs, a.dir, Some(a.id)))
    && (k == 5 ==> e.look == Seen(a.dir) && e.provenance && e.before == UnitPresent)
    && (k == 7 ==> e.before == UnitPresent)
  }

  function CreateFrame(slot: Slot, k: nat, e: Env, a: Aim): Frame
    requires k < 11
  {
    Frame(FrameOf(CreateKinds(a)[k], slot), e)
  }

  /** Everything a registration rests on. */
  ghost predicate Creates(site: Site, tx: Transaction, slot: Slot, a: Aim) {
    && tx.Creating? && Own(site, tx, slot, a.service) && VersionForm(a.version) && a.id > 0
  }

  lemma CreateAuthorized(site: Site, tx: Transaction, w: World, slot: Slot, k: nat, a: Aim)
    requires Creates(site, tx, slot, a) && k < 11 && CreateAt(JournalOf(w, slot), k, a)
    ensures Authorize(site, tx, w, FrameOf(CreateKinds(a)[k], slot), false) == Some(Admitted(CreateKinds(a)[k], slot))
  {
    hide FrameOf, Authorize, Inv, CanonicalService, Nameable, OwnSlot, VersionForm, ServiceForm, Free;
    OwnServiceIsAskable(slot, a.service);
    DueIsAuthorized(site, tx, w, slot, a.service, CreateKinds(a)[k]);
  }

  /** The two frames that start and attest, and the five that move the stage on. */
  lemma JournalFrame(site: Site, tx: Transaction, w: World, slot: Slot, k: nat, e: Env, a: Aim)
    requires Creates(site, tx, slot, a) && k in {0, 1, 3, 4, 6, 8, 10} && CreateMeets(k, e, a)
    requires CreateAt(JournalOf(w, slot), k, a)
    ensures exists d' :: CreateAt(d', k + 1, a) && Does(site, tx, w, CreateFrame(slot, k, e, a), slot, [], d')
  {
    hide FrameOf, Authorize, Inv, CanonicalService, Nameable, OwnSlot, Does, VersionForm;
    var d := JournalOf(w, slot);
    var kind := CreateKinds(a)[k];
    var f := CreateFrame(slot, k, e, a);
    CreateAuthorized(site, tx, w, slot, k, a);
    var d0 := NextDisk(d, k, a);
    NextPerforms(d, k, e, a);
    CallFrame(site, tx, w, f, slot, kind, d0);
    var d' :| Performs(d, CallOf(kind, e).value, d') && Inv(d') && Does(site, tx, w, f, slot, [], d');
    PerformedNext(d, k, e, a, d');
  }

  /** The journal after a frame that ends in a journal operation. */
  function NextDisk(d: Disk, k: nat, a: Aim): Disk
    requires k < 11
  {
    if k == 0 then WithCycle(d, CreateRec(a.i, a.dir, PreRegistration))
    else if k == 3 then d.(atts := d.atts[a.i := Held(AttRec(a.i, a.dir, a.id, true), true)])
    else WithCreate(d, CreateRec(a.i, a.dir, CREATE_STAGES[k + 1]))
  }

  lemma NextPerforms(d: Disk, k: nat, e: Env, a: Aim)
    requires k in {0, 1, 3, 4, 6, 8, 10} && CreateMeets(k, e, a) && CreateAt(d, k, a) && a.id > 0
    ensures Performs(d, CallOf(CreateKinds(a)[k], e).value, NextDisk(d, k, a))
  {
    hide Inv;
    if k == 0 {
      StartPerforms(d, e, a);
    } else if k == 3 {
      assert Attests(d, e.obs, a.i, a.dir, a.id, NextDisk(d, k, a));
    } else {
      hide Advances;
      StagePerforms(d, k, a);
    }
  }

  lemma StartPerforms(d: Disk, e: Env, a: Aim)
    requires CreateMeets(0, e, a) && Free(d, a)
    ensures Performs(d, CallOf(CreateKinds(a)[0], e).value, NextDisk(d, 0, a))
  {
    hide GoneElsewhere;
  }

  lemma StagePerforms(d: Disk, k: nat, a: Aim)
    requires k in {1, 4, 6, 8, 10} && CreateAt(d, k, a)
    ensures Advances(d, CREATE_STAGES[k + 1], a.i, a.dir, CREATE_STAGES[k], NextDisk(d, k, a))
  {
    hide Inv;
    if k == 4 { assert AttestedAs(d, a.i, a.dir, a.id); }
  }

  lemma PerformedNext(d: Disk, k: nat, e: Env, a: Aim, d': Disk)
    requires k in {0, 1, 3, 4, 6, 8, 10} && CreateMeets(k, e, a) && CreateAt(d, k, a)
    requires Performs(d, CallOf(CreateKinds(a)[k], e).value, d') && Inv(d')
    ensures CreateAt(d', k + 1, a)
  {
    assert InvAt(d, a.i);
    hide Inv, InvAt;
  }

  /** Normalisation, the service start and the health check leave the journal alone. */
  lemma AsideFrame(site: Site, tx: Transaction, w: World, slot: Slot, k: nat, e: Env, a: Aim)
    requires Creates(site, tx, slot, a) && k in {2, 7, 9} && CreateMeets(k, e, a)
    requires CreateAt(JournalOf(w, slot), k, a)
    ensures exists d' :: CreateAt(d', k + 1, a) && Does(site, tx, w, CreateFrame(slot, k, e, a), slot, CREATE_ACTS[k], d')
  {
    hide FrameOf, Authorize, Inv, CanonicalService, Nameable, OwnSlot, Does, VersionForm, Outer;
    var d := JournalOf(w, slot);
    var kind := CreateKinds(a)[k];
    CreateAuthorized(site, tx, w, slot, k, a);
    FramePerforms(site, tx, w, CreateFrame(slot, k, e, a), slot, kind);
    var xs := Perform(d, Admitted(kind, slot), e);
    NoWritesIn(xs);
    OuterOfDeeds(slot, if k == 7 then Some(a.service) else None, CREATE_ACTS[k]);
    assert xs == DeedsOf(slot, if k == 7 then Some(a.service) else None, CREATE_ACTS[k]);
    assert CreateAt(d, k + 1, a);
  }

  /** Installation publishes the wrapper and the Unit, reloads and enables, and then
      attests the Unit. */
  lemma InstallFrame(site: Site, tx: Transaction, w: World, slot: Slot, e: Env, a: Aim)
    requires Creates(site, tx, slot, a) && CreateMeets(5, e, a)
    requires CreateAt(JournalOf(w, slot), 5, a)
    ensures exists d' :: CreateAt(d', 6, a) && Does(site, tx, w, CreateFrame(slot, 5, e, a), slot, CREATE_ACTS[5], d')
  {
    hide FrameOf, Authorize, Inv, CanonicalService, Nameable, OwnSlot, Does, VersionForm, Outer, PlanOf, WritesIn;
    var d := JournalOf(w, slot);
    var kind := CreateKinds(a)[5];
    var c := CreateUnitAttestation(e.look);
    CreateAuthorized(site, tx, w, slot, 5, a);
    var d0 := d.(units := d.units[a.i := Held(UnitRec(a.i), true)]);
    assert AttestsUnit(d, e.look, a.i, a.dir, d0);
    CallGoesThrough(d, c, d0);
    FramePerforms(site, tx, w, CreateFrame(slot, 5, e, a), slot, kind);
    var ws := PlanOf(d, c).writes;
    var us := DeedsOf(slot, Some(a.service), CREATE_ACTS[5]);
    assert Perform(d, Admitted(kind, slot), e) == us + Writes(ws, slot);
    OuterConcat(us, Writes(ws, slot));
    OuterOfDeeds(slot, Some(a.service), CREATE_ACTS[5]);
    OuterOfWrites(ws, slot);
    WritesInConcat(us, Writes(ws, slot));
    NoWritesIn(us);
    WritesInWrites(ws, slot);
    assert CREATE_ACTS[5] + [] == CREATE_ACTS[5] && [] + ws == ws;
    assert CreateAt(ApplyAll(d, ws), 6, a);
  }

  lemma OneCreateFrame(site: Site, tx: Transaction, w: World, slot: Slot, k: nat, e: Env, a: Aim)
    requires Creates(site, tx, slot, a) && k < 11 && CreateMeets(k, e, a) && CreateAt(JournalOf(w, slot), k, a)
    ensures var xs := Answered(site, tx, w, CreateFrame(slot, k, e, a));
      Outer(xs) == CREATE_ACTS[k] && CreateAt(JournalOf(DoAll(w, xs), slot), k + 1, a)
  {
    hide Creates, CreateAt, CreateMeets, CreateFrame, Outer, Answered;
    if k in {2, 7, 9} {
      AsideFrame(site, tx, w, slot, k, e, a);
    } else if k == 5 {
      InstallFrame(site, tx, w, slot, e, a);
    } else {
      JournalFrame(site, tx, w, slot, k, e, a);
    }
  }

  /** The frames from the k-th on. */
  function CreateFrames(slot: Slot, k: nat, envs: seq<Env>, a: Aim): seq<Frame>
    requires k <= 11 == |envs|
    decreases 11 - k
  {
    if k == 11 then [] else [CreateFrame(slot, k, envs[k], a)] + CreateFrames(slot, k + 1, envs, a)
  }

  function Flat(xs: seq<seq<Act>>): seq<Act>
    decreases |xs|
  {
    if xs == [] then [] else xs[0] + Flat(xs[1..])
  }

  lemma TraceCons(site: Site, tx: Transaction, w: World, f: Frame, rest: seq<Frame>)
    requires Hex(site.sha)
    ensures var xs := Answered(site, tx, w, f);
      Trace(site, tx, w, [f] + rest) == xs + Trace(site, tx, DoAll(w, xs), rest)
  {
    hide Answered, DoAll;
    assert ([f] + rest)[1..] == rest;
  }

  lemma {:induction false} CreateFrom(site: Site, tx: Transaction, w: World, slot: Slot, k: nat, envs: seq<Env>, a: Aim)
    requires Creates(site, tx, slot, a) && k <= 11 == |envs| && CreateAt(JournalOf(w, slot), k, a)
    requires forall j: nat :: k <= j < 11 ==> CreateMeets(j, envs[j], a)
    ensures var xs := Trace(site, tx, w, CreateFrames(slot, k, envs, a));
      Outer(xs) == Flat(CREATE_ACTS[k..]) && CreateAt(JournalOf(DoAll(w, xs), slot), 11, a)
    decreases 11 - k
  {
    hide CreateAt, CreateMeets, CreateFrame, Answered;
    if k < 11 {
      hide DoAll, OwnSlot, Nameable, CanonicalService;
      var f := CreateFrame(slot, k, envs[k], a);
      var rest := CreateFrames(slot, k + 1, envs, a);
      var xs := Answered(site, tx, w, f);
      OneCreateFrame(site, tx, w, slot, k, envs[k], a);
      CreateFrom(site, tx, DoAll(w, xs), slot, k + 1, envs, a);
      TraceCons(site, tx, w, f, rest);
      OuterConcat(xs, Trace(site, tx, DoAll(w, xs), rest));
      DoAllConcat(w, xs, Trace(site, tx, DoAll(w, xs), rest));
      assert CREATE_ACTS[k..][1..] == CREATE_ACTS[k + 1..];
    }
  }

  /** A registration through the Web with nothing in the way: every frame of the script
      is authorised, the files are restricted, the wrapper and the Unit published, the
      Unit enabled and the service started, in this order and nothing else; and the
      journal ends at CREATE_COMPLETE with the runner and its Unit attested. */
  lemma CreateTransactionCompletes(site: Site, tx: Transaction, w: World, slot: Slot, envs: seq<Env>, a: Aim)
    requires Creates(site, tx, slot, a) && |envs| == 11 && Inv(JournalOf(w, slot)) && Free(JournalOf(w, slot), a)
    requires forall j: nat :: j < 11 ==> CreateMeets(j, envs[j], a)
    ensures var xs := Trace(site, tx, w, CreateFrames(slot, 0, envs, a));
      var d' := JournalOf(DoAll(w, xs), slot);
      && Outer(xs) == [Constrain, PublishWrapper, PublishUnit, Systemctl(ReloadUnits), Systemctl(EnableUnit), Systemctl(StartUnit)]
      && Stands(d', a.i, a.dir, CreateComplete) && AttestedAs(d', a.i, a.dir, a.id)
      && a.i in d'.units && d'.units[a.i].whole && a.i !in d'.removes
  {
    hide Creates, Trace, DoAll, CreateFrames, CreateMeets, Inv, Free;
    assert CreateAt(JournalOf(w, slot), 0, a);
    CreateFrom(site, tx, w, slot, 0, envs, a);
    assert CREATE_ACTS[0..] == CREATE_ACTS;
    CreateActsFlat();
  }

  lemma CreateActsFlat()
    ensures Flat(CREATE_ACTS) == [Constrain, PublishWrapper, PublishUnit, Systemctl(ReloadUnits), Systemctl(EnableUnit), Systemctl(StartUnit)]
  {
    hide Flat;
    var start := [Systemctl(StartUnit)];
    var install := [PublishWrapper, PublishUnit, Systemctl(ReloadUnits), Systemctl(EnableUnit)];
    Late();
    assert Flat(CREATE_ACTS[7..]) == start;
    FlatFrom(6);
    FlatFrom(5);
    assert Flat(CREATE_ACTS[5..]) == install + start;
    FlatFrom(4);
    FlatFrom(3);
    FlatFrom(2);
    FlatFrom(1);
    FlatFrom(0);
    assert CREATE_ACTS[0..] == CREATE_ACTS;
    assert Flat(CREATE_ACTS) == [Constrain] + (install + start);
  }

  lemma Late()
    ensures Flat(CREATE_ACTS[7..]) == [Systemctl(StartUnit)]
  {
    FlatFrom(10);
    FlatFrom(9);
    FlatFrom(8);
    FlatFrom(7);
  }

  lemma FlatFrom(k: nat)
    requires k < 11
    ensures Flat(CREATE_ACTS[k..]) == CREATE_ACTS[k] + Flat(CREATE_ACTS[k + 1..])
    ensures k == 10 ==> Flat(CREATE_ACTS[11..]) == []
  {
    assert CREATE_ACTS[k..][1..] == CREATE_ACTS[k + 1..];
  }

  /* ---------------------------------- Removal ----------------------------------- */

  /** The frames of remove-runner.sh in Web mode, in order. */
  function RemoveKinds(a: Aim): seq<Kind> {
    [RemoveState(Begin), State(a.service),
     Stop(a.service), Uninstall(a.service),
     State(a.service), State(a.service),
     RemoveState(ConfirmRemoteRemoved), RemoveState(Complete)]
  }

  const REMOVE_ACTS: seq<seq<Act>> := [
    [], [],
    [Systemctl(StopUnit)], [Systemctl(DisableUnit), Systemctl(StopUnit), UnlinkUnit, Systemctl(ReloadUnits)],
    [], [],
    [], []]

  /** The remove record after the first, ..., seventh and eighth frame. */
  const REMOVE_STAGES: seq<RStage> := [
    RemoteOutcomeUnknown,
    RemoteOutcomeUnknown, RemoteOutcomeUnknown,
    RemoteOutcomeUnknown, RemoteOutcomeUnknown,
    RemoteOutcomeUnknown, RemoteOutcomeUnknown,
    CleanupPending, RemoveComplete]

  ghost predicate RemoveAt(d: Disk, k: nat, a: Aim) {
    && k <= 8 && Inv(d)
    && Stands(d, a.i, a.dir, CreateComplete) && AttestedAs(d, a.i, a.dir, a.id)
    && (if k == 0 then a.i !in d.removes
        else BeingRemoved(d, RemoveRec(a.i, a.dir, Some(a.id), REMOVE_STAGES[k], Ordinary)))
  }

  predicate RemoveMeets(k: nat, e: Env, a: Aim) {
    && Clear(e)
    && (k == 0 ==> InOrder(e.obs, a.dir, Some(a.id)))
    && (k == 2 ==> e.before == UnitPresent)
    && (k == 3 ==> e.before == UnitPresent && e.between == UnitPresent)
    && (k == 6 ==> e.before == UnitAbsent && e.obs.held == Seen(a.dir))
    && (k == 7 ==> e.before == UnitAbsent && !e.obs.present)
  }

  function RemoveFrame(slot: Slot, k: nat, e: Env, a: Aim): Frame
    requires k < 8
  {
    Frame(FrameOf(RemoveKinds(a)[k], slot), e)
  }

  ghost predicate Removes(site: Site, tx: Transaction, slot: Slot, a: Aim) {
    && tx.Removing? && tx.instance == a.i && Own(site, tx, slot, a.service) && a.id > 0
  }

  lemma RemoveAuthorized(site: Site, tx: Transaction, w: World, slot: Slot, k: nat, a: Aim)
    requires Removes(site, tx, slot, a) && k < 8 && RemoveAt(JournalOf(w, slot), k, a)
    ensures Authorize(site, tx, w, FrameOf(RemoveKinds(a)[k], slot), false) == Some(Admitted(RemoveKinds(a)[k], slot))
  {
    hide FrameOf, Authorize, Inv, CanonicalService, Nameable, OwnSlot, ServiceForm;
    OwnServiceIsAskable(slot, a.service);
    DueIsAuthorized(site, tx, w, slot, a.service, RemoveKinds(a)[k]);
  }

  /** BEGIN, CONFIRM and COMPLETE. */
  lemma RecordFrame(site: Site, tx: Transaction, w: World, slot: Slot, k: nat, e: Env, a: Aim)
    requires Removes(site, tx, slot, a) && k in {0, 6, 7} && RemoveMeets(k, e, a)
    requires RemoveAt(JournalOf(w, slot), k, a)
    ensures exists d' :: RemoveAt(d', k + 1, a) && Does(site, tx, w, RemoveFrame(slot, k, e, a), slot, [], d')
  {
    hide FrameOf, Authorize, Inv, CanonicalService, Nameable, OwnSlot, Does;
    var d := JournalOf(w, slot);
    var kind := RemoveKinds(a)[k];
    var f := RemoveFrame(slot, k, e, a);
    var r := RemoveRec(a.i, a.dir, Some(a.id), REMOVE_STAGES[k + 1], Ordinary);
    RemoveAuthorized(site, tx, w, slot, k, a);
    RecordPerforms(d, k, e, a);
    CallFrame(site, tx, w, f, slot, kind, WithRemove(d, r));
    var d' :| Performs(d, CallOf(kind, e).value, d') && Inv(d') && Does(site, tx, w, f, slot, [], d');
    PerformedRecord(d, k, e, a, d');
  }

  lemma RecordPerforms(d: Disk, k: nat, e: Env, a: Aim)
    requires k in {0, 6, 7} && RemoveMeets(k, e, a) && RemoveAt(d, k, a) && a.id > 0
    ensures Performs(d, CallOf(RemoveKinds(a)[k], e).value, WithRemove(d, RemoveRec(a.i, a.dir, Some(a.id), REMOVE_STAGES[k + 1], Ordinary)))
  {
    hide Inv;
    var r := RemoveRec(a.i, a.dir, Some(a.id), REMOVE_STAGES[k], Ordinary);
    var d' := WithRemove(d, RemoveRec(a.i, a.dir, Some(a.id), REMOVE_STAGES[k + 1], Ordinary));
    if k == 0 {
      assert Begins(d, e.obs, a.i, a.dir, Some(a.id), d');
    } else if k == 6 {
      assert Confirms(d, e.obs, r, d');
    } else {
      assert Finishes(d, e.obs, r, d');
    }
  }

  lemma PerformedRecord(d: Disk, k: nat, e: Env, a: Aim, d': Disk)
    requires k in {0, 6, 7} && RemoveMeets(k, e, a) && RemoveAt(d, k, a)
    requires Performs(d, CallOf(RemoveKinds(a)[k], e).value, d') && Inv(d')
    ensures RemoveAt(d', k + 1, a)
  {
    hide Inv;
  }

  /** The service is looked at, stopped, disabled and removed. */
  lemma ServiceFrame(site: Site, tx: Transaction, w: World, slot: Slot, k: nat, e: Env, a: Aim)
    requires Removes(site, tx, slot, a) && k in {1, 2, 3, 4, 5} && RemoveMeets(k, e, a)
    requires RemoveAt(JournalOf(w, slot), k, a)
    ensures exists d' :: RemoveAt(d', k + 1, a) && Does(site, tx, w, RemoveFrame(slot, k, e, a), slot, REMOVE_ACTS[k], d')
  {
    hide FrameOf, Authorize, Inv, CanonicalService, Nameable, OwnSlot, Does, Outer, WritesIn;
    var d := JournalOf(w, slot);
    var kind := RemoveKinds(a)[k];
    RemoveAuthorized(site, tx, w, slot, k, a);
    FramePerforms(site, tx, w, RemoveFrame(slot, k, e, a), slot, kind);
    var xs := Perform(d, Admitted(kind, slot), e);
    assert xs == DeedsOf(slot, Some(a.service), REMOVE_ACTS[k]);
    NoWritesIn(xs);
    OuterOfDeeds(slot, Some(a.service), REMOVE_ACTS[k]);
    assert RemoveAt(d, k + 1, a);
  }

  lemma OneRemoveFrame(site: Site, tx: Transaction, w: World, slot: Slot, k: nat, e: Env, a: Aim)
    requires Removes(site, tx, slot, a) && k < 8 && RemoveMeets(k, e, a) && RemoveAt(JournalOf(w, slot), k, a)
    ensures var xs := Answered(site, tx, w, RemoveFrame(slot, k, e, a));
      Outer(xs) == REMOVE_ACTS[k] && RemoveAt(JournalOf(DoAll(w, xs), slot), k + 1, a)
  {
    hide Removes, RemoveAt, RemoveMeets, RemoveFrame, Outer, Answered;
    if k in {0, 6, 7} {
      RecordFrame(site, tx, w, slot, k, e, a);
    } else {
      ServiceFrame(site, tx, w, slot, k, e, a);
    }
  }

  function RemoveFrames(slot: Slot, k: nat, envs: seq<Env>, a: Aim): seq<Frame>
    requires k <= 8 == |envs|
    decreases 8 - k
  {
    if k == 8 then [] else [RemoveFrame(slot, k, envs[k], a)] + RemoveFrames(slot, k + 1, envs, a)
  }

  lemma {:induction false} RemoveFrom(site: Site, tx: Transaction, w: World, slot: Slot, k: nat, envs: seq<Env>, a: Aim)
    requires Removes(site, tx, slot, a) && k <= 8 == |envs| && RemoveAt(JournalOf(w, slot), k, a)
    requires forall j: nat :: k <= j < 8 ==> RemoveMeets(j, envs[j], a)
    ensures var xs := Trace(site, tx, w, RemoveFrames(slot, k, envs, a));
      Outer(xs) == Flat(REMOVE_ACTS[k..]) && RemoveAt(JournalOf(DoAll(w, xs), slot), 8, a)
    decreases 8 - k
  {
    hide RemoveAt, RemoveMeets, RemoveFrame, Answered;
    if k < 8 {
      hide DoAll, OwnSlot, Nameable, CanonicalService;
      var f := RemoveFrame(slot, k, envs[k], a);
      var rest := RemoveFrames(slot, k + 1, envs, a);
      var xs := Answered(site, tx, w, f);
      OneRemoveFrame(site, tx, w, slot, k, envs[k], a);
      RemoveFrom(site, tx, DoAll(w, xs), slot, k + 1, envs, a);
      TraceCons(site, tx, w, f, rest);
      OuterConcat(xs, Trace(site, tx, DoAll(w, xs), rest));
      DoAllConcat(w, xs, Trace(site, tx, DoAll(w, xs), rest));
      assert REMOVE_ACTS[k..][1..] == REMOVE_ACTS[k + 1..];
    }
  }

  /** A removal through the Web with nothing in the way: every frame of the script is
      authorised, the service is stopped, disabled, stopped again, its Unit unlinked and
      systemd reloaded, in this order and nothing else; and the journal ends with the
      instance closed. */
  lemma RemoveTransactionCompletes(site: Site, tx: Transaction, w: World, slot: Slot, envs: seq<Env>, a: Aim)
    requires Removes(site, tx, slot, a) && |envs| == 8 && RemoveAt(JournalOf(w, slot), 0, a)
    requires forall j: nat :: j < 8 ==> RemoveMeets(j, envs[j], a)
    ensures var xs := Trace(site, tx, w, RemoveFrames(slot, 0, envs, a));
      var d' := JournalOf(DoAll(w, xs), slot);
      && Outer(xs) == [Systemctl(StopUnit), Systemctl(DisableUnit), Systemctl(StopUnit), UnlinkUnit, Systemctl(ReloadUnits)]
      && Stands(d', a.i, a.dir, CreateComplete)
      && BeingRemoved(d', RemoveRec(a.i, a.dir, Some(a.id), RemoveComplete, Ordinary))
  {
    hide Removes, Trace, DoAll, RemoveFrames, RemoveMeets, Inv;
    RemoveFrom(site, tx, w, slot, 0, envs, a);
    assert REMOVE_ACTS[0..] == REMOVE_ACTS;
    RemoveActsFlat();
  }

  lemma RemoveActsFlat()
    ensures Flat(REMOVE_ACTS) == [Systemctl(StopUnit), Systemctl(DisableUnit), Systemctl(StopUnit), UnlinkUnit, Systemctl(ReloadUnits)]
  {
    hide Flat;
    RemoveFlatFrom(7);
    RemoveFlatFrom(6);
    RemoveFlatFrom(5);
    RemoveFlatFrom(4);
    assert Flat(REMOVE_ACTS[4..]) == [];
    RemoveFlatFrom(3);
    RemoveFlatFrom(2);
    RemoveFlatFrom(1);
    RemoveFlatFrom(0);
    assert REMOVE_ACTS[0..] == REMOVE_ACTS;
  }

  lemma RemoveFlatFrom(k: nat)
    requires k < 8
    ensures Flat(REMOVE_ACTS[k..]) == REMOVE_ACTS[k] + Flat(REMOVE_ACTS[k + 1..])
    ensures k == 7 ==> Flat(REMOVE_ACTS[8..]) == []
  {
    assert REMOVE_ACTS[k..][1..] == REMOVE_ACTS[k + 1..];
  }
}
