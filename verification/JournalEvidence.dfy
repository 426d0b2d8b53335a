/**
 * When each journal operation goes through, what it must have seen for that, and
 * what it then leaves: stated record by record, for every disk a run can reach.
 */
module JournalEvidence {
  import opened Wrappers
  import opened Journal
  import opened JournalSafety
  import opened JournalRuns

  /* ---------------------------- Records and stages --------------------------- */

  /** The slot's instance, with a readable create record. */
  predicate Stands(d: Disk, i: Instance, dir: Identity, stage: CStage) {
    && d.active == Some(Held(i, true))
    && i in d.creates
    && d.creates[i] == Held(CreateRec(i, dir, stage), true)
  }

  predicate AttestedAs(d: Disk, i: Instance, dir: Identity, id: int) {
    i in d.atts && d.atts[i] == Held(AttRec(i, dir, id, true), true)
  }

  predicate BeingRemoved(d: Disk, r: RemoveRec) {
    && d.active == Some(Held(r.instance, true))
    && r.instance in d.removes && d.removes[r.instance] == Held(r, true)
  }

  /** The instance is finished and its removal done, in another directory. */
  predicate GoneElsewhere(d: Disk, i: Instance, dir: Identity, was: Identity, r: RemoveRec) {
    && (Stands(d, i, was, CreateComplete) || Stands(d, i, was, LegacyVerified) || Stands(d, i, was, AbortedReconciled))
    && BeingRemoved(d, r) && r.instance == i && r.stage == RemoveComplete && r.dir != dir
  }

  /** The create stages in the order in which they follow each other. */
  predicate Follows(s: CStage, t: CStage) {
    || (s == PreRegistration && t == PermissionIncomplete)
    || (s == PermissionIncomplete && t == UnitIncomplete)
    || (s == UnitIncomplete && t == StartIncomplete)
    || (s == StartIncomplete && t == HealthUnknown)
    || (s == HealthUnknown && t == CreateComplete)
  }

  predicate Unfinished(s: CStage) {
    s in {PreRegistration, PermissionIncomplete, UnitIncomplete, StartIncomplete, HealthUnknown}
  }

  predicate InOrder(o: Obs, dir: Identity, id: Option<int>) {
    o.held == Seen(dir) && o.path == Seen(dir) && o.meta == Metadata(true, id)
  }

  /* ------------------------- What each operation does ------------------------ */

  function WithCreate(d: Disk, c: CreateRec): Disk {
    d.(creates := d.creates[c.instance := Held(c, true)])
  }

  function WithRemove(d: Disk, r: RemoveRec): Disk {
    d.(removes := d.removes[r.instance := Held(r, true)])
  }

  function WithCycle(d: Disk, c: CreateRec): Disk {
    WithCreate(d, c).(active := Some(Held(c.instance, true)))
  }

  /** PRE_REGISTRATION: a safe directory was seen, and the slot never had an instance
      or its last one is gone from another directory. */
  ghost predicate Starts(d: Disk, look: Look, i: Instance, d': Disk) {
    && look.Seen? && i !in d.creates
    && (d.active.None? || exists prior, was, r :: GoneElsewhere(d, prior, look.dir, was, r))
    && d' == WithCycle(d, CreateRec(i, look.dir, PreRegistration))
  }

  /** A later stage: the next one of the active instance, or the end of a registration
      that failed, or the stage that is recorded already. */
  ghost predicate Advances(d: Disk, stage: CStage, i: Instance, dir: Identity, was: CStage, d': Disk) {
    && Stands(d, i, dir, was)
    && (if was == stage then (stage == OutcomeUnknown || stage == CreateComplete || Unfinished(stage)) && d' == d
        else
          && (Follows(was, stage) || (stage == OutcomeUnknown && Unfinished(was)))
          && (stage == UnitIncomplete ==> exists id :: AttestedAs(d, i, dir, id))
          && d' == WithCreate(d, CreateRec(i, dir, stage)))
  }

  /** The registration attestation: the pinned directory was held and still stood under
      its path, and .runner named this runner and a positive id. */
  ghost predicate Attests(d: Disk, o: Obs, i: Instance, dir: Identity, id: int, d': Disk) {
    && Stands(d, i, dir, PermissionIncomplete) && i !in d.atts
    && InOrder(o, dir, Some(id)) && id > 0
    && d' == d.(atts := d.atts[i := Held(AttRec(i, dir, id, true), true)])
  }

  ghost predicate AttestsUnit(d: Disk, look: Look, i: Instance, dir: Identity, d': Disk) {
    && (Stands(d, i, dir, UnitIncomplete) || Stands(d, i, dir, StartIncomplete)) && i !in d.units
    && look == Seen(dir)
    && d' == d.(units := d.units[i := Held(UnitRec(i), true)])
  }

  /** BEGIN of a removal: a finished instance in the pinned directory, whose .runner
      names the id that was attested; a legacy one may name none. */
  ghost predicate Begins(d: Disk, o: Obs, i: Instance, dir: Identity, id: Option<int>, d': Disk) {
    && i !in d.removes
    && InOrder(o, dir, id) && (id.Some? ==> id.value > 0)
    && (|| (Stands(d, i, dir, CreateComplete) && id.Some? && AttestedAs(d, i, dir, id.value))
        || Stands(d, i, dir, LegacyVerified))
    && d' == WithRemove(d, RemoveRec(i, dir, id, RemoteOutcomeUnknown, Ordinary))
  }

  /** Adoption: strict legacy files in a directory that did not change under the look,
      in a slot without an instance. */
  ghost predicate Adopts(d: Disk, o: Obs, i: Instance, dir: Identity, d': Disk) {
    && d.active.None? && i !in d.creates
    && o.held == Seen(dir) && o.path == Seen(dir) && o.legacyFiles && o.meta.Metadata? && o.meta.matches
    && d' == WithCycle(d, CreateRec(i, dir, LegacyVerified))
  }

  /** CONFIRM: the pinned directory was held. */
  ghost predicate Confirms(d: Disk, o: Obs, r: RemoveRec, d': Disk) {
    && BeingRemoved(d, r) && r.stage == RemoteOutcomeUnknown && o.held == Seen(r.dir)
    && d' == WithRemove(d, r.(stage := CleanupPending))
  }

  /** COMPLETE: the directory was no longer there. */
  ghost predicate Finishes(d: Disk, o: Obs, r: RemoveRec, d': Disk) {
    && BeingRemoved(d, r) && r.stage == CleanupPending && !o.present
    && d' == WithRemove(d, r.(stage := RemoveComplete))
  }

  /** BEGIN of a reconciliation: a registration that was attested and got no Unit, in
      its unchanged directory, with its attested files, no service record, no Unit. */
  ghost predicate Reconciles(d: Disk, o: Obs, i: Instance, dir: Identity, id: int, d': Disk) {
    && Stands(d, i, dir, UnitIncomplete) && AttestedAs(d, i, dir, id)
    && i !in d.removes && i !in d.units
    && InOrder(o, dir, Some(id)) && o.filesMatch && !o.serviceFile && !o.unitFile
    && d' == WithRemove(d, RemoveRec(i, dir, Some(id), RemoteOutcomeUnknown, Reconciliation))
  }

  /** The operation goes through on d and leaves d'. */
  ghost predicate Performs(d: Disk, c: Call, d': Disk) {
    match c
    case CreateStage(stage, look, newId) =>
      if stage == PreRegistration then Starts(d, look, newId, d')
      else exists i, dir, was :: Advances(d, stage, i, dir, was, d')
    case CreateAttestation(o) => exists i, dir, id :: Attests(d, o, i, dir, id, d')
    case CreateUnitAttestation(look) => exists i, dir :: AttestsUnit(d, look, i, dir, d')
    case RemoveStage(Begin, adopt, o, newId) =>
      if d.active.None? then
        exists dir, d1, i, to, id :: Adopts(d, adopt, newId, dir, d1) && Begins(d1, o, i, to, id, d')
      else exists i, dir, id :: Begins(d, o, i, dir, id, d')
    case RemoveStage(ConfirmRemoteRemoved, _, o, _) => exists r :: Confirms(d, o, r, d')
    case RemoveStage(Complete, _, o, _) => exists r :: Finishes(d, o, r, d')
    case Reconcile(Begin, o) => exists i, dir, id :: Reconciles(d, o, i, dir, id, d')
    case Reconcile(ConfirmRemoteRemoved, o) => !o.unitFile && !o.serviceFile && exists r :: Confirms(d, o, r, d')
    case Reconcile(Complete, o) =>
      exists r, d1, dir :: Finishes(d, o, r, d1) && Stands(d1, r.instance, dir, UnitIncomplete)
        && d' == WithCreate(d1, CreateRec(r.instance, dir, AbortedReconciled))
  }

  /** What a refused operation leaves: the disk as it was, an adoption whose BEGIN
      was refused, or a completed removal whose create record was not to be aborted. */
  ghost predicate Spares(d: Disk, c: Call, d': Disk) {
    || d' == d
    || (c.RemoveStage? && c.rcall == Begin && exists dir :: Adopts(d, c.adopt, c.newId, dir, d'))
    || (c.Reconcile? && c.rcall == Complete && exists r :: Finishes(d, c.obs, r, d'))
  }

  /** The plan of an operation is what it promises: it returns exactly when the
      operation goes through, and then leaves exactly that. */
  ghost predicate Exact(d: Disk, c: Call) {
    var p := PlanOf(d, c);
    && (p.ok ==> Performs(d, c, ApplyAll(d, p.writes)))
    && (!p.ok ==> Spares(d, c, ApplyAll(d, p.writes)))
    && forall d' :: Performs(d, c, d') ==> p.ok
  }

  /* ----------------------------------- Proofs -------------------------------- */

  lemma ApplyOne(d: Disk, w: Write)
    ensures ApplyAll(d, [w]) == Apply(d, w)
  {
    assert [w][1..] == [];
  }

  lemma ApplyTwo(d: Disk, v: Write, w: Write)
    ensures ApplyAll(d, [v, w]) == Apply(Apply(d, v), w)
  {
    hide Apply;
    assert [v, w][1..] == [w];
    ApplyOne(Apply(d, v), w);
  }

  lemma RemoveIsLinked(d: Disk, r: RemoveRec)
    ensures ApplyAll(d, [LinkRemove(r), SettleRemove(r.instance)]) == WithRemove(d, r)
  {
    ApplyTwo(d, LinkRemove(r), SettleRemove(r.instance));
    var d1 := Apply(d, LinkRemove(r));
    assert Settle(d1.removes, r.instance) == d.removes[r.instance := Held(r, true)];
  }

  lemma CycleIsMade(d: Disk, i: Instance, dir: Identity, stage: CStage)
    requires i !in d.creates
    ensures ApplyAll(d, NewCycle(d, i, dir, stage).writes) == WithCycle(d, CreateRec(i, dir, stage))
  {
    var c := CreateRec(i, dir, stage);
    var ws := NewCycle(d, i, dir, stage).writes;
    var d1 := Apply(d, LinkCreate(c));
    var d2 := Apply(d1, SettleCreate(i));
    assert d2.creates == d.creates[i := Held(c, true)];
    assert ApplyAll(d, ws) == ApplyAll(d2, PointActive(d, i)) by {
      hide Apply;
      assert ws[1..] == [SettleCreate(i)] + PointActive(d, i);
      assert ws[1..][1..] == PointActive(d, i);
      assert ApplyAll(d, ws) == ApplyAll(d1, ws[1..]);
    }
    if d.active.None? {
      ApplyTwo(d2, LinkActive(i), SettleActive);
    } else {
      ApplyOne(d2, ReplaceActive(i));
    }
  }

  lemma ReadableIsOwn(d: Disk, i: Instance)
    requires Inv(d)
    ensures i in d.creates ==> d.creates[i].rec == CreateRec(i, d.creates[i].rec.dir, d.creates[i].rec.stage)
    ensures i in d.atts ==>
      && i in d.creates && d.atts[i].rec.githubId > 0
      && d.atts[i].rec == AttRec(i, d.creates[i].rec.dir, d.atts[i].rec.githubId, true)
    ensures i in d.removes ==> d.removes[i].rec.instance == i
  {
    assert InvAt(d, i);
  }

  lemma StartExact(d: Disk, look: Look, newId: Instance)
    requires Inv(d)
    ensures Exact(d, CreateStage(PreRegistration, look, newId))
  {
    var c := CreateStage(PreRegistration, look, newId);
    var p := PlanOf(d, c);
    if newId !in d.creates && look.Seen? { CycleIsMade(d, newId, look.dir, PreRegistration); }
    if d.active.Some? {
      var a := d.active.value.rec;
      ReadableIsOwn(d, a);
      if p.ok {
        assert GoneElsewhere(d, a, look.dir, d.creates[a].rec.dir, d.removes[a].rec);
      }
    }
  }

  lemma AdvanceExact(d: Disk, stage: CStage, look: Look, newId: Instance)
    requires Inv(d) && stage != PreRegistration
    ensures Exact(d, CreateStage(stage, look, newId))
  {
    var c := CreateStage(stage, look, newId);
    var p := PlanOf(d, c);
    if d.active.Some? {
      var a := d.active.value.rec;
      ReadableIsOwn(d, a);
      if p.ok {
        var r := d.creates[a].rec;
        if p.writes == [] {
          assert ApplyAll(d, p.writes) == d;
        } else {
          ApplyOne(d, p.writes[0]);
          assert p.writes == [p.writes[0]];
          assert stage == UnitIncomplete ==> AttestedAs(d, a, r.dir, d.atts[a].rec.githubId);
        }
        assert Advances(d, stage, a, r.dir, r.stage, ApplyAll(d, p.writes));
      }
    }
  }

  lemma AttestationExact(d: Disk, o: Obs)
    requires Inv(d)
    ensures Exact(d, CreateAttestation(o))
  {
    var p := PlanOf(d, CreateAttestation(o));
    if d.active.Some? {
      var a := d.active.value.rec;
      ReadableIsOwn(d, a);
      if p.ok {
        ApplyTwo(d, p.writes[0], p.writes[1]);
        assert p.writes == [p.writes[0], p.writes[1]];
        assert Attests(d, o, a, d.creates[a].rec.dir, o.meta.agentId.value, ApplyAll(d, p.writes));
      }
    }
  }

  lemma UnitAttestationExact(d: Disk, look: Look)
    requires Inv(d)
    ensures Exact(d, CreateUnitAttestation(look))
  {
    var p := PlanOf(d, CreateUnitAttestation(look));
    if d.active.Some? {
      var a := d.active.value.rec;
      ReadableIsOwn(d, a);
      if p.ok {
        ApplyTwo(d, p.writes[0], p.writes[1]);
        assert p.writes == [p.writes[0], p.writes[1]];
        assert AttestsUnit(d, look, a, d.creates[a].rec.dir, ApplyAll(d, p.writes));
      }
    }
  }

  lemma BeginExact(d: Disk, o: Obs)
    requires Inv(d)
    ensures var p := RemoveBeginPlan(d, o);
      && (p.ok ==> exists i, dir, id :: Begins(d, o, i, dir, id, ApplyAll(d, p.writes)))
      && forall i, dir, id, d' :: Begins(d, o, i, dir, id, d') ==> p.ok
  {
    var p := RemoveBeginPlan(d, o);
    if d.active.Some? {
      var a := d.active.value.rec;
      ReadableIsOwn(d, a);
      if p.ok {
        RemoveIsLinked(d, p.writes[0].r);
        assert Begins(d, o, a, o.held.dir, o.meta.agentId, ApplyAll(d, p.writes));
      }
    }
  }

  lemma AdoptExact(d: Disk, o: Obs, newId: Instance)
    ensures var p := AdoptPlan(d, o, newId);
      && (p.ok ==> exists dir :: Adopts(d, o, newId, dir, ApplyAll(d, p.writes)))
      && forall dir, d' :: Adopts(d, o, newId, dir, d') ==> p.ok && d' == ApplyAll(d, p.writes)
  {
    var p := AdoptPlan(d, o, newId);
    if newId !in d.creates && o.held.Seen? {
      CycleIsMade(d, newId, o.held.dir, LegacyVerified);
      if p.ok { assert Adopts(d, o, newId, o.held.dir, ApplyAll(d, p.writes)); }
    }
  }

  lemma RemoveBeginExact(d: Disk, adopt: Obs, o: Obs, newId: Instance)
    requires Inv(d)
    ensures Exact(d, RemoveStage(Begin, adopt, o, newId))
  {
    var c := RemoveStage(Begin, adopt, o, newId);
    var p := PlanOf(d, c);
    if d.active.None? {
      var q := AdoptPlan(d, adopt, newId);
      AdoptExact(d, adopt, newId);
      if q.ok {
        var d1 := ApplyAll(d, q.writes);
        AdoptedInv(d, adopt, newId);
        BeginExact(d1, o);
        hide Adopts, Begins, AdoptPlan, RemoveBeginPlan;
        var q1 := RemoveBeginPlan(d1, o);
        ApplyConcat(d, q.writes, q1.writes);
      }
    } else {
      BeginExact(d, o);
      hide Begins, RemoveBeginPlan;
    }
  }

  lemma AdoptedInv(d: Disk, adopt: Obs, newId: Instance)
    requires Inv(d) && AdoptPlan(d, adopt, newId).ok
    ensures Inv(ApplyAll(d, AdoptPlan(d, adopt, newId).writes))
  {
    NewCycleLicensed(d, newId, adopt.held.dir, LegacyVerified);
    AllLicensedKeeps(d, AdoptPlan(d, adopt, newId).writes);
  }

  lemma AdvanceRemovalExact(d: Disk, rcall: RCall, o: Obs)
    requires Inv(d) && rcall != Begin
    ensures var p := RemoveAdvancePlan(d, rcall, o);
      && (p.ok && rcall == ConfirmRemoteRemoved ==> exists r :: Confirms(d, o, r, ApplyAll(d, p.writes)))
      && (p.ok && rcall == Complete ==> exists r :: Finishes(d, o, r, ApplyAll(d, p.writes)))
      && (rcall == ConfirmRemoteRemoved ==> forall r, d' :: Confirms(d, o, r, d') ==> p.ok && d' == ApplyAll(d, p.writes))
      && (rcall == Complete ==> forall r, d' :: Finishes(d, o, r, d') ==> p.ok && d' == ApplyAll(d, p.writes))
      && (!p.ok ==> p.writes == [])
  {
    var p := RemoveAdvancePlan(d, rcall, o);
    if d.active.Some? {
      var a := d.active.value.rec;
      ReadableIsOwn(d, a);
      if p.ok {
        ApplyOne(d, p.writes[0]);
        assert p.writes == [p.writes[0]];
        if rcall == Complete {
          assert Finishes(d, o, d.removes[a].rec, ApplyAll(d, p.writes));
        } else {
          assert Confirms(d, o, d.removes[a].rec, ApplyAll(d, p.writes));
        }
      }
    }
  }

  lemma RemoveAdvanceExact(d: Disk, rcall: RCall, adopt: Obs, o: Obs, newId: Instance)
    requires Inv(d) && rcall != Begin
    ensures Exact(d, RemoveStage(rcall, adopt, o, newId))
  {
    AdvanceRemovalExact(d, rcall, o);
    hide Confirms, Finishes, RemoveAdvancePlan;
  }

  lemma ReconcileBeginExact(d: Disk, o: Obs)
    requires Inv(d)
    ensures Exact(d, Reconcile(Begin, o))
  {
    var p := PlanOf(d, Reconcile(Begin, o));
    if d.active.Some? {
      var a := d.active.value.rec;
      ReadableIsOwn(d, a);
      if p.ok {
        RemoveIsLinked(d, p.writes[0].r);
        assert Reconciles(d, o, a, o.held.dir, o.meta.agentId.value, ApplyAll(d, p.writes));
      }
    }
  }

  lemma ReconcileConfirmExact(d: Disk, o: Obs)
    requires Inv(d)
    ensures Exact(d, Reconcile(ConfirmRemoteRemoved, o))
  {
    AdvanceRemovalExact(d, ConfirmRemoteRemoved, o);
    if d.active.Some? { ReadableIsOwn(d, d.active.value.rec); }
    hide RemoveAdvancePlan;
  }

  lemma ReconcileCompleteExact(d: Disk, o: Obs)
    requires Inv(d)
    ensures Exact(d, Reconcile(Complete, o))
  {
    AdvanceRemovalExact(d, Complete, o);
    var q := RemoveAdvancePlan(d, Complete, o);
    var p := PlanOf(d, Reconcile(Complete, o));
    if q.ok {
      var d1 := ApplyAll(d, q.writes);
      var r :| Finishes(d, o, r, d1);
      ReadableIsOwn(d, r.instance);
      if p.ok {
        var w := p.writes[|q.writes|];
        assert p.writes == q.writes + [w];
        ApplyConcat(d, q.writes, [w]);
        ApplyOne(d1, w);
        assert Stands(d1, r.instance, d1.creates[r.instance].rec.dir, UnitIncomplete);
      }
    }
  }

  /** Every operation, on every disk a run can reach, under any observation. */
  lemma OperationExact(d: Disk, c: Call)
    requires Inv(d)
    ensures Exact(d, c)
  {
    match c
    case CreateStage(stage, look, newId) =>
      if stage == PreRegistration { StartExact(d, look, newId); } else { AdvanceExact(d, stage, look, newId); }
    case CreateAttestation(o) => AttestationExact(d, o);
    case CreateUnitAttestation(look) => UnitAttestationExact(d, look);
    case RemoveStage(rcall, adopt, o, newId) =>
      if rcall == Begin { RemoveBeginExact(d, adopt, o, newId); } else { RemoveAdvanceExact(d, rcall, adopt, o, newId); }
    case Reconcile(rcall, o) =>
      if rcall == Begin {
        ReconcileBeginExact(d, o);
      } else if rcall == Complete {
        ReconcileCompleteExact(d, o);
      } else {
        ReconcileConfirmExact(d, o);
      }
  }

  /* ---------------------- What each change was based on ---------------------- */

  /** The operation that makes change w on a disk it found as d saw what w needs:
      the directory it pins, the runner it attests, files unchanged or of the strict
      legacy kind, no Unit and no service record, or that the directory is gone. */
  predicate Warrants(d: Disk, c: Call, w: Write) {
    match w
    case LinkCreate(r) =>
      if r.stage == PreRegistration then c == CreateStage(PreRegistration, Seen(r.dir), r.instance)
      else
        && r.stage == LegacyVerified && c.RemoveStage? && c.rcall == Begin && c.newId == r.instance
        && c.adopt.held == Seen(r.dir) && c.adopt.path == Seen(r.dir) && c.adopt.legacyFiles
        && c.adopt.meta.Metadata? && c.adopt.meta.matches
    case ReplaceCreate(r) =>
      if r.stage == AbortedReconciled then c.Reconcile? && c.rcall == Complete && !c.obs.present
      else c.CreateStage? && c.stage == r.stage && r.stage !in {PreRegistration, LegacyVerified}
    case LinkAtt(a) => c.CreateAttestation? && InOrder(c.obs, a.dir, Some(a.githubId)) && a.githubId > 0
    case LinkUnit(u) =>
      u.instance in d.creates && c == CreateUnitAttestation(Seen(d.creates[u.instance].rec.dir))
    case LinkRemove(r) =>
      && r.stage == RemoteOutcomeUnknown
      && (c.RemoveStage? || c.Reconcile?) && c.rcall == Begin && InOrder(c.obs, r.dir, r.githubId)
      && (if r.origin == Ordinary then c.RemoveStage?
          else c.Reconcile? && c.obs.filesMatch && !c.obs.serviceFile && !c.obs.unitFile)
    case ReplaceRemove(r) =>
      && (c.RemoveStage? || c.Reconcile?)
      && (if r.stage == CleanupPending then
            && c.rcall == ConfirmRemoteRemoved && BeingRemoved(d, r.(stage := RemoteOutcomeUnknown))
            && c.obs.held == Seen(r.dir) && (c.Reconcile? ==> !c.obs.unitFile && !c.obs.serviceFile)
          else
            && r.stage == RemoveComplete
            && c.rcall == Complete && BeingRemoved(d, r.(stage := CleanupPending))
            && !c.obs.present)
    case LinkActive(i) => Opening(c, i)
    case ReplaceActive(i) => Opening(c, i)
    case SettleCreate(i) => Opening(c, i)
    case SettleActive => OpensCycle(c)
    case SettleAtt(_) => c.CreateAttestation?
    case SettleRemove(_) => (c.RemoveStage? || c.Reconcile?) && c.rcall == Begin
    case SettleUnit(_) => c.CreateUnitAttestation?
  }

  /** The operations that start a cycle. */
  predicate OpensCycle(c: Call) {
    (c.CreateStage? && c.stage == PreRegistration) || (c.RemoveStage? && c.rcall == Begin)
  }

  /** Those that start one for this instance. */
  predicate Opening(c: Call, i: Instance) {
    OpensCycle(c) && c.newId == i
  }

  lemma PlanIsWarranted(d: Disk, c: Call, w: Write)
    requires w in PlanOf(d, c).writes
    ensures Warrants(d, c, w)
  {
    hide Apply, ApplyAll;
    match c
    case CreateStage(stage, look, newId) => CreateIsWarranted(d, c, w);
    case CreateAttestation(o) =>
    case CreateUnitAttestation(look) =>
    case RemoveStage(rcall, adopt, o, newId) =>
      if rcall == Begin && d.active.None? {
        AdoptionIsWarranted(d, c, w);
      } else if rcall == Begin {
        BeginIsWarranted(d, d, c, w);
      } else {
        AdvanceIsWarranted(d, c, w);
      }
    case Reconcile(rcall, o) => ReconcileIsWarranted(d, c, w);
  }

  lemma CreateIsWarranted(d: Disk, c: Call, w: Write)
    requires c.CreateStage? && w in PlanOf(d, c).writes
    ensures Warrants(d, c, w)
  {
  }

  lemma AdoptionIsWarranted(d: Disk, c: Call, w: Write)
    requires c.RemoveStage? && c.rcall == Begin && d.active.None? && w in PlanOf(d, c).writes
    ensures Warrants(d, c, w)
  {
    hide Apply, ApplyAll, RemoveBeginPlan;
    var p := AdoptPlan(d, c.adopt, c.newId);
    if w !in p.writes {
      var d1 := ApplyAll(d, p.writes);
      assert w in RemoveBeginPlan(d1, c.obs).writes;
      BeginIsWarranted(d, d1, c, w);
    }
  }

  lemma AdvanceIsWarranted(d: Disk, c: Call, w: Write)
    requires c.RemoveStage? && c.rcall != Begin && w in RemoveAdvancePlan(d, c.rcall, c.obs).writes
    ensures Warrants(d, c, w)
  {
  }

  lemma ReconcileIsWarranted(d: Disk, c: Call, w: Write)
    requires c.Reconcile? && w in PlanOf(d, c).writes
    ensures Warrants(d, c, w)
  {
    hide Apply, ApplyAll;
  }

  lemma BeginIsWarranted(d: Disk, d1: Disk, c: Call, w: Write)
    requires c.RemoveStage? && c.rcall == Begin && w in RemoveBeginPlan(d1, c.obs).writes
    ensures Warrants(d, c, w)
  {
  }

  /** Every change of every run, killed operations included, was made by an operation
      of the run that had seen what the change needs. */
  lemma {:induction false} EveryChangeIsWarranted(d: Disk, run: seq<Attempt>, k: nat) returns (j: nat)
    requires k < |WritesOf(d, run)|
    ensures j < |run| && Warrants(After(d, run[..j]), run[j].call, WritesOf(d, run)[k])
    ensures |WritesOf(d, run[..j])| <= k < |WritesOf(d, run[..j + 1])|
    decreases |run|
  {
    hide Apply, ApplyAll, PlanOf, Warrants;
    var us := Effect(d, run[0]);
    var d1 := ApplyAll(d, us);
    if k < |us| {
      j := 0;
      assert run[..1][0] == run[0] && run[..0] == [];
      assert us[k] in PlanOf(d, run[0].call).writes;
      PlanIsWarranted(d, run[0].call, us[k]);
    } else {
      var m := EveryChangeIsWarranted(d1, run[1..], k - |us|);
      j := m + 1;
      assert run[..j][1..] == run[1..][..m] && run[..j + 1][1..] == run[1..][..m + 1];
    }
  }
}
