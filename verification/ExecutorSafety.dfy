/**
 * What a Web transaction can do, whatever frames its child sends, whatever each
 * operation meets and wherever it stops.
 */
module ExecutorSafety {
  import opened Wrappers
  import opened Journal
  import opened JournalRuns
  import opened JournalSafety
  import opened Names
  import opened Binding
  import opened Executor

  /* ---------------------------------- Own slot --------------------------------- */

  predicate OnSlot(x: Deed, slot: Slot) {
    x.slot == slot && (x.service.Some? ==> x.service == CanonicalService(slot.repository, slot.runner))
  }

  /** All effects are on the slot of the transaction. */
  predicate AllOwn(site: Site, tx: Transaction, xs: seq<Deed>)
    requires Hex(site.sha)
  {
    forall x :: x in xs ==> OwnSlot(site, tx).Some? && OnSlot(x, OwnSlot(site, tx).value)
  }

  lemma PerformIsOwn(d: Disk, a: Admitted, e: Env)
    ensures forall x :: x in Perform(d, a, e) ==> OnSlot(x, a.slot)
  {
    hide PlanOf, CanonicalService, InstallDue, NormalizeDue;
  }

  lemma AnsweredIsOwn(site: Site, tx: Transaction, w: World, f: Frame)
    requires Hex(site.sha)
    ensures AllOwn(site, tx, Answered(site, tx, w, f))
  {
    hide Perform, OnSlot, Authorize, OwnSlot;
    var a := Authorize(site, tx, w, f.payload, f.env.linked);
    if a.Some? {
      AuthorizedIsOwn(site, tx, w, f.payload, f.env.linked);
      PerformIsOwn(JournalOf(w, a.value.slot), a.value, f.env);
    }
  }

  /** Every effect is on the slot of the transaction and names its own service. */
  lemma {:induction false} EveryDeedIsOwn(site: Site, tx: Transaction, w: World, frames: seq<Frame>)
    requires Hex(site.sha)
    ensures AllOwn(site, tx, Trace(site, tx, w, frames))
    decreases |frames|
  {
    hide Answered, OnSlot, OwnSlot;
    if frames != [] {
      var xs := Answered(site, tx, w, frames[0]);
      AnsweredIsOwn(site, tx, w, frames[0]);
      EveryDeedIsOwn(site, tx, DoAll(w, xs), frames[1..]);
    }
  }

  lemma {:induction false} ForeignDeeds(w: World, xs: seq<Deed>, other: Slot)
    requires forall x :: x in xs ==> x.slot != other
    ensures JournalOf(DoAll(w, xs), other) == JournalOf(w, other)
    decreases |xs|
  {
    if xs != [] { ForeignDeeds(Do(w, xs[0]), xs[1..], other); }
  }

  /** No transaction changes the journal of another repository, runner or directory. */
  lemma ForeignJournalsUntouched(site: Site, tx: Transaction, w: World, frames: seq<Frame>, other: Slot)
    requires Hex(site.sha) && OwnSlot(site, tx) != Some(other)
    ensures JournalOf(DoAll(w, Trace(site, tx, w, frames)), other) == JournalOf(w, other)
  {
    hide OwnSlot, Trace, CanonicalService;
    EveryDeedIsOwn(site, tx, w, frames);
    ForeignDeeds(w, Trace(site, tx, w, frames), other);
  }

  /* -------------------------- The journal of the slot -------------------------- */

  /** The slot's journal after the first k effects. */
  function JournalAt(w: World, xs: seq<Deed>, k: nat, slot: Slot): Disk
    requires k <= |xs|
  {
    JournalOf(DoAll(w, xs[..k]), slot)
  }

  lemma JournalStep(w: World, xs: seq<Deed>, k: nat, slot: Slot)
    requires k < |xs| && xs[k].slot == slot
    ensures JournalAt(w, xs, k + 1, slot) ==
      if xs[k].act.Wrote? then Apply(JournalAt(w, xs, k, slot), xs[k].act.w) else JournalAt(w, xs, k, slot)
  {
    hide Apply;
    assert xs[..k + 1] == xs[..k] + [xs[k]];
    DoAllConcat(w, xs[..k], [xs[k]]);
    assert [xs[k]][1..] == [];
  }

  lemma JournalAtConcat(w: World, xs: seq<Deed>, ys: seq<Deed>, k: nat, slot: Slot)
    requires k <= |xs| + |ys|
    ensures JournalAt(w, xs + ys, k, slot) ==
      if k < |xs| then JournalAt(w, xs, k, slot) else JournalAt(DoAll(w, xs), ys, k - |xs|, slot)
  {
    if k < |xs| {
      assert (xs + ys)[..k] == xs[..k];
    } else {
      assert (xs + ys)[..k] == xs + ys[..k - |xs|];
      DoAllConcat(w, xs, ys[..k - |xs|]);
    }
  }

  /* ---------------------------- Create: stage by stage -------------------------- */

  function StageNow(d: Disk): Option<CStage> {
    match Current(d)
    case Found(a) => (var c := Read(d.creates, a); if c.Found? then Some(c.rec.stage) else None)
    case _ => None
  }

  /** When an effect of a Create transaction may happen: at its own durable stage,
      and nothing that belongs to a removal at all. */
  predicate CreateMay(d: Disk, act: Act) {
    match act
    case Constrain => StageNow(d) == Some(PermissionIncomplete)
    case PublishWrapper => StageNow(d) == Some(UnitIncomplete)
    case PublishUnit => StageNow(d) == Some(UnitIncomplete)
    case UnlinkUnit => false
    case Systemctl(StartUnit) => StageNow(d) == Some(StartIncomplete)
    case Systemctl(EnableUnit) => StageNow(d) == Some(UnitIncomplete)
    case Systemctl(ReloadUnits) => StageNow(d) == Some(UnitIncomplete)
    case Systemctl(_) => false
    case Wrote(w) =>
      match w
      case LinkAtt(_) => StageNow(d) == Some(PermissionIncomplete)
      case SettleAtt(_) => StageNow(d) == Some(PermissionIncomplete)
      case LinkUnit(_) => StageNow(d) == Some(UnitIncomplete)
      case SettleUnit(_) => StageNow(d) == Some(UnitIncomplete)
      case LinkRemove(_) => false
      case SettleRemove(_) => false
      case ReplaceRemove(_) => false
      case _ => true
  }

  predicate Aside(act: Act) {
    act.Wrote? ==> act.w.LinkAtt? || act.w.SettleAtt? || act.w.LinkUnit? || act.w.SettleUnit?
  }

  /** Effects beside the create and active stores leave the stage as it is. */
  lemma {:induction false} AsideKeepsStage(w: World, xs: seq<Deed>, k: nat, slot: Slot)
    requires k <= |xs| && forall j :: 0 <= j < |xs| ==> xs[j].slot == slot && Aside(xs[j].act)
    ensures var d, d' := JournalOf(w, slot), JournalAt(w, xs, k, slot);
      d'.active == d.active && d'.creates == d.creates
  {
    if k > 0 {
      AsideKeepsStage(w, xs, k - 1, slot);
      JournalStep(w, xs, k - 1, slot);
    } else {
      assert xs[..0] == [];
    }
  }

  lemma PerformMay(d: Disk, a: Admitted, e: Env)
    requires CreateOp(a.kind) && CreateDue(d, a.kind)
    ensures forall k :: 0 <= k < |Perform(d, a, e)| ==> CreateMay(d, Perform(d, a, e)[k].act)
    ensures !a.kind.CreateState? ==> forall k :: 0 <= k < |Perform(d, a, e)| ==> Aside(Perform(d, a, e)[k].act)
    ensures a.kind.CreateState? ==>
      forall k :: 0 <= k < |Perform(d, a, e)| ==>
        var act := Perform(d, a, e)[k].act;
        act.Wrote? && (act.w.LinkCreate? || act.w.SettleCreate? || act.w.ReplaceCreate?
                       || act.w.LinkActive? || act.w.SettleActive? || act.w.ReplaceActive?)
  {
    hide CanonicalService;
  }

  lemma PerformedMay(w: World, a: Admitted, e: Env, k: nat)
    requires CreateOp(a.kind) && CreateDue(JournalOf(w, a.slot), a.kind)
    requires k < |Cut(Perform(JournalOf(w, a.slot), a, e), e.reached)|
    ensures var xs := Cut(Perform(JournalOf(w, a.slot), a, e), e.reached);
      CreateMay(JournalAt(w, xs, k, a.slot), xs[k].act)
  {
    hide Perform, CreateOp, CreateDue, CanonicalService, JournalAt;
    var d := JournalOf(w, a.slot);
    PerformMay(d, a, e);
    PerformIsOwn(d, a, e);
    if !a.kind.CreateState? {
      assert forall j :: 0 <= j < |Perform(d, a, e)| ==> Perform(d, a, e)[j] in Perform(d, a, e);
      AsideKeepsStage(w, Cut(Perform(d, a, e), e.reached), k, a.slot);
    }
  }

  /** Each of these effects happens at its own durable stage. */
  predicate StageByStage(w: World, xs: seq<Deed>, slot: Slot) {
    forall k :: 0 <= k < |xs| ==> CreateMay(JournalAt(w, xs, k, slot), xs[k].act)
  }

  lemma StageConcat(w: World, xs: seq<Deed>, ys: seq<Deed>, slot: Slot)
    requires StageByStage(w, xs, slot) && StageByStage(DoAll(w, xs), ys, slot)
    ensures StageByStage(w, xs + ys, slot)
  {
    hide CreateMay, JournalAt;
    forall k | 0 <= k < |xs + ys| ensures CreateMay(JournalAt(w, xs + ys, k, slot), (xs + ys)[k].act) {
      JournalAtConcat(w, xs, ys, k, slot);
      if k >= |xs| { assert (xs + ys)[k] == ys[k - |xs|]; }
    }
  }

  lemma AnsweredMay(site: Site, tx: Transaction, w: World, f: Frame, slot: Slot)
    requires Hex(site.sha) && tx.Creating? && OwnSlot(site, tx) == Some(slot)
    ensures StageByStage(w, Answered(site, tx, w, f), slot)
  {
    hide Authorize, OwnSlot, Perform, CreateOp, CreateDue, CreateMay, JournalAt;
    var a := Authorize(site, tx, w, f.payload, f.env.linked);
    if a.Some? {
      AuthorizedIsOwn(site, tx, w, f.payload, f.env.linked);
      forall k | 0 <= k < |Answered(site, tx, w, f)|
        ensures CreateMay(JournalAt(w, Answered(site, tx, w, f), k, slot), Answered(site, tx, w, f)[k].act)
      {
        PerformedMay(w, a.value, f.env, k);
      }
    }
  }

  /** At every point of a Create transaction, each effect happens at its own
      durable stage and none belongs to a removal. */
  lemma {:induction false} CreateStageByStage(site: Site, tx: Transaction, w: World, frames: seq<Frame>, slot: Slot)
    requires Hex(site.sha) && tx.Creating? && OwnSlot(site, tx) == Some(slot)
    ensures StageByStage(w, Trace(site, tx, w, frames), slot)
    decreases |frames|
  {
    hide Answered, OwnSlot, CreateMay, JournalAt;
    if frames != [] {
      var xs := Answered(site, tx, w, frames[0]);
      AnsweredMay(site, tx, w, frames[0], slot);
      CreateStageByStage(site, tx, DoAll(w, xs), frames[1..], slot);
      StageConcat(w, xs, Trace(site, tx, DoAll(w, xs), frames[1..]), slot);
    }
  }

  /* --------------------- A transaction is a run of the journal ------------------ */

  function WritesIn(xs: seq<Deed>): seq<Write>
    decreases |xs|
  {
    if xs == [] then [] else (if xs[0].act.Wrote? then [xs[0].act.w] else []) + WritesIn(xs[1..])
  }

  lemma {:induction false} WritesInConcat(xs: seq<Deed>, ys: seq<Deed>)
    ensures WritesIn(xs + ys) == WritesIn(xs) + WritesIn(ys)
    decreases |xs|
  {
    if xs == [] {
      assert xs + ys == ys;
    } else {
      WritesInConcat(xs[1..], ys);
      assert (xs + ys)[1..] == xs[1..] + ys;
      var head := if xs[0].act.Wrote? then [xs[0].act.w] else [];
      assert WritesIn(xs + ys) == head + WritesIn(xs[1..] + ys);
      assert WritesIn(xs) == head + WritesIn(xs[1..]);
      hide WritesIn;
      Assoc(head, WritesIn(xs[1..]), WritesIn(ys));
    }
  }

  lemma {:induction false} WritesInWrites(ws: seq<Write>, slot: Slot)
    ensures WritesIn(Writes(ws, slot)) == ws
    decreases |ws|
  {
    if ws != [] {
      WritesInWrites(ws[1..], slot);
      assert Writes(ws, slot)[1..] == Writes(ws[1..], slot);
    }
  }

  lemma {:induction false} NoWritesIn(xs: seq<Deed>)
    requires forall k :: 0 <= k < |xs| ==> !xs[k].act.Wrote?
    ensures WritesIn(xs) == []
    decreases |xs|
  {
    if xs != [] { NoWritesIn(xs[1..]); }
  }

  lemma {:induction false} JournalOfDeeds(w: World, xs: seq<Deed>, slot: Slot)
    requires forall x :: x in xs ==> x.slot == slot
    ensures JournalOf(DoAll(w, xs), slot) == ApplyAll(JournalOf(w, slot), WritesIn(xs))
    decreases |xs|
  {
    hide Apply;
    if xs != [] {
      assert xs[0] in xs;
      JournalOfDeeds(Do(w, xs[0]), xs[1..], slot);
      if xs[0].act.Wrote? {
        assert WritesIn(xs) == [xs[0].act.w] + WritesIn(xs[1..]);
        assert WritesIn(xs)[1..] == WritesIn(xs[1..]);
      } else {
        assert WritesIn(xs) == WritesIn(xs[1..]);
      }
    }
  }

  /** The journal operation an admitted operation ends in. */
  function CallOf(k: Kind, e: Env): Option<Call> {
    match k
    case CreateState(stage) => Some(CreateStage(stage, e.look, e.newId))
    case AttestRegistration(_) => Some(CreateAttestation(e.obs))
    case RemoveState(rcall) => Some(RemoveStage(rcall, e.adopt, e.obs, e.newId))
    case Install(_) => Some(CreateUnitAttestation(e.look))
    case _ => None
  }

  lemma PerformWrites(d: Disk, a: Admitted, e: Env)
    ensures var ws := WritesIn(Perform(d, a, e));
      ws == [] || (CallOf(a.kind, e).Some? && ws == PlanOf(d, CallOf(a.kind, e).value).writes)
  {
    hide PlanOf, CanonicalService, InstallDue, NormalizeDue, WritesIn;
    if CallOf(a.kind, e).Some? {
      var ws := PlanOf(d, CallOf(a.kind, e).value).writes;
      WritesInWrites(ws, a.slot);
      if a.kind.Install? && Perform(d, a, e) != [] {
        var us := DeedsOf(a.slot, CanonicalService(a.slot.repository, a.slot.runner), INSTALLATION);
        NoWritesIn(us);
        NoWritesIn([]);
        WritesInConcat(us, if e.before == UnitPresent then Writes(ws, a.slot) else []);
      } else {
        NoWritesIn([]);
      }
    } else {
      NoWritesIn(Perform(d, a, e));
    }
  }

  lemma AnsweredLicensed(site: Site, tx: Transaction, w: World, f: Frame, slot: Slot)
    requires Hex(site.sha) && OwnSlot(site, tx) == Some(slot) && Inv(JournalOf(w, slot))
    ensures AllLicensed(JournalOf(w, slot), WritesIn(Answered(site, tx, w, f)))
  {
    hide Authorize, OwnSlot, Perform, WritesIn, PlanOf, AllLicensed, Inv;
    var a := Authorize(site, tx, w, f.payload, f.env.linked);
    if a.Some? {
      AuthorizedIsOwn(site, tx, w, f.payload, f.env.linked);
      CutLicensed(JournalOf(w, slot), a.value, f.env);
    } else {
      NoWritesIn([]);
      NothingLicensed(JournalOf(w, slot));
    }
  }

  lemma NothingLicensed(d: Disk)
    ensures AllLicensed(d, [])
  {
  }

  lemma CutLicensed(d: Disk, a: Admitted, e: Env)
    requires Inv(d)
    ensures AllLicensed(d, WritesIn(Cut(Perform(d, a, e), e.reached)))
  {
    hide Perform, WritesIn, PlanOf, AllLicensed, Inv;
    var xs := Perform(d, a, e);
    PerformWrites(d, a, e);
    NothingLicensed(d);
    if CallOf(a.kind, e).Some? { PlanLicensed(d, CallOf(a.kind, e).value); }
    if e.reached < |xs| {
      assert xs == xs[..e.reached] + xs[e.reached..];
      WritesInConcat(xs[..e.reached], xs[e.reached..]);
      LicensedPrefix(d, WritesIn(xs), |WritesIn(xs[..e.reached])|);
    }
  }

  /** A whole Web transaction is a licensed run of its slot's journal: it keeps the
      invariant, and every instance's records only move forward. */
  lemma {:induction false} TransactionIsLicensed(site: Site, tx: Transaction, w: World, frames: seq<Frame>, slot: Slot)
    requires Hex(site.sha) && OwnSlot(site, tx) == Some(slot) && Inv(JournalOf(w, slot))
    ensures var xs := Trace(site, tx, w, frames);
      var d, d' := JournalOf(w, slot), JournalOf(DoAll(w, xs), slot);
      AllLicensed(d, WritesIn(xs)) && d' == ApplyAll(d, WritesIn(xs)) && Inv(d') && Later(d, d')
    decreases |frames|
  {
    hide Answered, OwnSlot, AllLicensed, Inv, Later, WritesIn;
    var d := JournalOf(w, slot);
    if frames == [] {
      NoWritesIn([]);
      NothingLicensed(d);
      LaterRefl(d);
    } else {
      var xs := Answered(site, tx, w, frames[0]);
      var rest := Trace(site, tx, DoAll(w, xs), frames[1..]);
      AnsweredIsOwn(site, tx, w, frames[0]);
      AnsweredLicensed(site, tx, w, frames[0], slot);
      JournalOfDeeds(w, xs, slot);
      AllLicensedKeeps(d, WritesIn(xs));
      TransactionIsLicensed(site, tx, DoAll(w, xs), frames[1..], slot);
      WritesInConcat(xs, rest);
      LicensedConcat(d, WritesIn(xs), WritesIn(rest));
      DoAllConcat(w, xs, rest);
      EveryDeedIsOwn(site, tx, w, frames);
      JournalOfDeeds(w, xs + rest, slot);
      AllLicensedKeeps(d, WritesIn(xs + rest));
    }
  }

  /* ------------------------------ Create: one cycle ----------------------------- */

  predicate RemoveWrite(w: Write) {
    w.LinkRemove? || w.SettleRemove? || w.ReplaceRemove?
  }

  /** How often the active index is pointed at an instance. */
  function Starts(ws: seq<Write>): nat
    decreases |ws|
  {
    if ws == [] then 0 else |Pointed(ws[0])| + Starts(ws[1..])
  }

  lemma {:induction false} OnePointer(d: Disk, ws: seq<Write>)
    requires Inv(d) && AllLicensed(d, ws) && forall k :: 0 <= k < |ws| ==> !RemoveWrite(ws[k])
    ensures Starts(ws) <= 1
    ensures d.active.Some? && d.active.value.rec !in d.removes ==> Starts(ws) == 0
    decreases |ws|
  {
    if ws != [] {
      LicensedKeepsInv(d, ws[0]);
      OnePointer(Apply(d, ws[0]), ws[1..]);
    }
  }

  lemma {:induction false} WritesFrom(xs: seq<Deed>, k: nat)
    requires k < |WritesIn(xs)|
    ensures exists j :: 0 <= j < |xs| && xs[j].act == Wrote(WritesIn(xs)[k])
    decreases |xs|
  {
    if xs[0].act.Wrote? && k == 0 {
      assert xs[0].act == Wrote(WritesIn(xs)[0]);
    } else {
      WritesFrom(xs[1..], if xs[0].act.Wrote? then k - 1 else k);
      var j :| 0 <= j < |xs[1..]| && xs[1..][j].act == Wrote(WritesIn(xs)[k]);
      assert xs[j + 1].act == Wrote(WritesIn(xs)[k]);
    }
  }

  /** A Create transaction starts at most one cycle, and none while the active
      instance has no remove record. */
  lemma OneCyclePerCreate(site: Site, tx: Transaction, w: World, frames: seq<Frame>, slot: Slot)
    requires Hex(site.sha) && tx.Creating? && OwnSlot(site, tx) == Some(slot) && Inv(JournalOf(w, slot))
    ensures Starts(WritesIn(Trace(site, tx, w, frames))) <= 1
    ensures var d := JournalOf(w, slot);
      d.active.Some? && d.active.value.rec !in d.removes ==> Starts(WritesIn(Trace(site, tx, w, frames))) == 0
  {
    hide Trace, OwnSlot, WritesIn, AllLicensed, Starts;
    var xs := Trace(site, tx, w, frames);
    CreateStageByStage(site, tx, w, frames, slot);
    TransactionIsLicensed(site, tx, w, frames, slot);
    var ws := WritesIn(xs);
    forall k | 0 <= k < |ws| ensures !RemoveWrite(ws[k]) {
      WritesFrom(xs, k);
      var j :| 0 <= j < |xs| && xs[j].act == Wrote(ws[k]);
      assert CreateMay(JournalAt(w, xs, j, slot), xs[j].act);
    }
    OnePointer(JournalOf(w, slot), ws);
  }

  /** Between any two points of a transaction the journal only moves forward. */
  lemma JournalNeverGoesBack(site: Site, tx: Transaction, w: World, frames: seq<Frame>, slot: Slot, j: nat, k: nat)
    requires Hex(site.sha) && OwnSlot(site, tx) == Some(slot) && Inv(JournalOf(w, slot))
    requires j <= k <= |Trace(site, tx, w, frames)|
    ensures var xs := Trace(site, tx, w, frames); Later(JournalAt(w, xs, j, slot), JournalAt(w, xs, k, slot))
  {
    hide Trace, OwnSlot, AllLicensed, Inv, Later, WritesIn, CanonicalService;
    var xs := Trace(site, tx, w, frames);
    var d := JournalOf(w, slot);
    EveryDeedIsOwn(site, tx, w, frames);
    TransactionIsLicensed(site, tx, w, frames, slot);
    assert xs == xs[..k] + xs[k..] && xs[..k] == xs[..j] + xs[j..k];
    WritesInConcat(xs[..k], xs[k..]);
    WritesInConcat(xs[..j], xs[j..k]);
    assert forall x :: x in xs ==> OnSlot(x, slot);
    assert forall x :: x in xs[..j] || x in xs[..k] ==> x in xs;
    JournalOfDeeds(w, xs[..j], slot);
    JournalOfDeeds(w, xs[..k], slot);
    var us, vs, ws := WritesIn(xs[..j]), WritesIn(xs[..k]), WritesIn(xs);
    LicensedPrefix(d, ws, |vs|);
    assert ws[..|vs|] == vs && vs[..|us|] == us;
    LicensedPrefix(d, vs, |us|);
    AllLicensedKeeps(d, us);
    AllLicensedKeeps(ApplyAll(d, us), vs[|us|..]);
  }

  /** Once the service of an instance was started, the same transaction does not
      touch that instance's registration files, wrapper or Unit file again. */
  lemma NothingBeforeStartAfterStart(site: Site, tx: Transaction, w: World, frames: seq<Frame>, slot: Slot, j: nat, k: nat)
    requires Hex(site.sha) && tx.Creating? && OwnSlot(site, tx) == Some(slot) && Inv(JournalOf(w, slot))
    requires var xs := Trace(site, tx, w, frames);
      j < k < |xs| && xs[j].act == Systemctl(StartUnit) && xs[k].act in {Constrain, PublishWrapper, PublishUnit}
    ensures var xs := Trace(site, tx, w, frames);
      Current(JournalAt(w, xs, j, slot)) != Current(JournalAt(w, xs, k, slot))
  {
    hide Trace, OwnSlot, Inv, JournalAt, CanonicalService;
    var xs := Trace(site, tx, w, frames);
    CreateStageByStage(site, tx, w, frames, slot);
    JournalNeverGoesBack(site, tx, w, frames, slot, j, k);
    var d, d' := JournalAt(w, xs, j, slot), JournalAt(w, xs, k, slot);
    assert CreateMay(d, xs[j].act) && CreateMay(d', xs[k].act);
    assert Current(d).Found? ==> LaterAt(d, d', Current(d).rec);
  }

  /* ------------------------------ Remove: the protocol -------------------------- */

  datatype Phase = Untouched | Unsettled | Open | Confirmed | Finished

  function PhaseOf(d: Disk, i: Instance): Phase {
    if i !in d.removes then Untouched
    else if !d.removes[i].whole then Unsettled
    else match d.removes[i].rec.stage
      case RemoteOutcomeUnknown => Open
      case CleanupPending => Confirmed
      case RemoveComplete => Finished
  }

  /** The protocol: the remove record of the instance is published, then services
      are stopped and removed, then the record moves on, twice. */
  function Next(ph: Phase, act: Act, i: Instance): Option<Phase> {
    match act
    case Wrote(LinkRemove(r)) =>
      if ph == Untouched && r.instance == i && r.stage == RemoteOutcomeUnknown && r.origin == Ordinary then Some(Unsettled) else None
    case Wrote(SettleRemove(j)) => if ph == Unsettled && j == i then Some(Open) else None
    case Wrote(ReplaceRemove(r)) =>
      if ph == Open && r.instance == i && r.stage == CleanupPending then Some(Confirmed)
      else if ph == Confirmed && r.instance == i && r.stage == RemoveComplete then Some(Finished)
      else None
    case Systemctl(verb) => if ph == Open && verb in {StopUnit, DisableUnit, ReloadUnits} then Some(Open) else None
    case UnlinkUnit => if ph == Open then Some(Open) else None
    case _ => None
  }

  function Follow(ph: Phase, xs: seq<Deed>, i: Instance): Option<Phase>
    decreases |xs|
  {
    if xs == [] then Some(ph)
    else
      var next := Next(ph, xs[0].act, i);
      if next.None? then None else Follow(next.value, xs[1..], i)
  }

  lemma {:induction false} FollowConcat(ph: Phase, xs: seq<Deed>, ys: seq<Deed>, i: Instance)
    requires Follow(ph, xs, i).Some?
    ensures Follow(ph, xs + ys, i) == Follow(Follow(ph, xs, i).value, ys, i)
    decreases |xs|
  {
    if xs == [] {
      assert xs + ys == ys;
    } else {
      FollowConcat(Next(ph, xs[0].act, i).value, xs[1..], ys, i);
      assert (xs + ys)[1..] == xs[1..] + ys;
    }
  }

  lemma {:induction false} FollowPrefix(ph: Phase, xs: seq<Deed>, n: nat, i: Instance)
    requires Follow(ph, xs, i).Some?
    ensures Follow(ph, Cut(xs, n), i).Some?
    decreases |xs|
  {
    if xs != [] && 0 < n < |xs| {
      FollowPrefix(Next(ph, xs[0].act, i).value, xs[1..], n - 1, i);
      assert Cut(xs, n)[1..] == Cut(xs[1..], n - 1);
    }
  }

  /** What is on disk tells the phase reached. */
  lemma {:induction false} PhaseOnDisk(w: World, xs: seq<Deed>, slot: Slot, i: Instance)
    requires forall x :: x in xs ==> x.slot == slot
    requires HalfIsNew(JournalOf(w, slot), i)
    requires Follow(PhaseOf(JournalOf(w, slot), i), xs, i).Some?
    ensures var d' := JournalOf(DoAll(w, xs), slot);
      && Follow(PhaseOf(JournalOf(w, slot), i), xs, i) == Some(PhaseOf(d', i))
      && HalfIsNew(d', i)
    decreases |xs|
  {
    if xs != [] {
      assert xs[0] in xs;
      PhaseOnDisk(Do(w, xs[0]), xs[1..], slot, i);
    }
  }

  /** A remove record that still has two names is at its first stage. */
  predicate HalfIsNew(d: Disk, i: Instance) {
    i in d.removes && !d.removes[i].whole ==> d.removes[i].rec.stage == RemoteOutcomeUnknown
  }

  lemma PerformFollows(d: Disk, a: Admitted, e: Env, i: Instance)
    requires RemoveOp(a.kind) && RemoveDue(d, a.kind, i)
    ensures Follow(PhaseOf(d, i), Perform(d, a, e), i).Some?
  {
    hide CanonicalService;
    var xs := Perform(d, a, e);
    if a.kind.RemoveState? {
      if a.kind.rcall == Begin {
        if xs != [] { FollowTwo(PhaseOf(d, i), xs, i); }
      } else {
        if xs != [] { FollowOne(PhaseOf(d, i), xs, i); }
      }
    } else {
      AllService(xs, i);
    }
  }

  lemma FollowOne(ph: Phase, xs: seq<Deed>, i: Instance)
    requires |xs| == 1
    ensures Follow(ph, xs, i) == Next(ph, xs[0].act, i)
  {
  }

  lemma FollowTwo(ph: Phase, xs: seq<Deed>, i: Instance)
    requires |xs| == 2 && Next(ph, xs[0].act, i).Some?
    ensures Follow(ph, xs, i) == Next(Next(ph, xs[0].act, i).value, xs[1].act, i)
  {
    FollowOne(Next(ph, xs[0].act, i).value, xs[1..], i);
  }

  lemma {:induction false} AllService(xs: seq<Deed>, i: Instance)
    requires forall k :: 0 <= k < |xs| ==> Next(Open, xs[k].act, i) == Some(Open)
    ensures Follow(Open, xs, i) == Some(Open)
    decreases |xs|
  {
    if xs != [] { AllService(xs[1..], i); }
  }

  lemma AnsweredFollows(site: Site, tx: Transaction, w: World, f: Frame, slot: Slot)
    requires Hex(site.sha) && tx.Removing? && OwnSlot(site, tx) == Some(slot)
    ensures Follow(PhaseOf(JournalOf(w, slot), tx.instance), Answered(site, tx, w, f), tx.instance).Some?
  {
    hide Authorize, OwnSlot, Perform, RemoveOp, RemoveDue, PhaseOf, Next;
    var a := Authorize(site, tx, w, f.payload, f.env.linked);
    if a.Some? {
      AuthorizedIsOwn(site, tx, w, f.payload, f.env.linked);
      var d := JournalOf(w, slot);
      PerformFollows(d, a.value, f.env, tx.instance);
      FollowPrefix(PhaseOf(d, tx.instance), Perform(d, a.value, f.env), f.env.reached, tx.instance);
    }
  }

  /** The effects of a Remove transaction follow the protocol from the phase its
      instance was in, and the journal shows the phase they have reached. */
  lemma {:induction false} RemovalFollowsProtocol(site: Site, tx: Transaction, w: World, frames: seq<Frame>, slot: Slot)
    requires Hex(site.sha) && tx.Removing? && OwnSlot(site, tx) == Some(slot)
    requires HalfIsNew(JournalOf(w, slot), tx.instance)
    ensures var xs := Trace(site, tx, w, frames);
      Follow(PhaseOf(JournalOf(w, slot), tx.instance), xs, tx.instance)
        == Some(PhaseOf(JournalOf(DoAll(w, xs), slot), tx.instance))
    decreases |frames|
  {
    hide Answered, OwnSlot, PhaseOf, Next, HalfIsNew;
    if frames != [] {
      var xs := Answered(site, tx, w, frames[0]);
      var rest := Trace(site, tx, DoAll(w, xs), frames[1..]);
      var i := tx.instance;
      AnsweredFollows(site, tx, w, frames[0], slot);
      AnsweredIsOwn(site, tx, w, frames[0]);
      PhaseOnDisk(w, xs, slot, i);
      RemovalFollowsProtocol(site, tx, DoAll(w, xs), frames[1..], slot);
      FollowConcat(PhaseOf(JournalOf(w, slot), i), xs, rest, i);
      DoAllConcat(w, xs, rest);
    }
  }
}
