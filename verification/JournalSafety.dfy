/**
 * What every sequence of root operations keeps, whatever the operations observe
 * and wherever each of them is killed.
 */
module JournalSafety {
  import opened Wrappers
  import opened Journal

  /* ------------------------------- Invariant -------------------------------- */

  predicate Attested(s: CStage) {
    s in {UnitIncomplete, StartIncomplete, HealthUnknown, CreateComplete, AbortedReconciled}
  }

  /** The create record of an instance. A half-published one was never pointed
      at, so nothing else was recorded for it. */
  ghost predicate CreateOk(d: Disk, i: Instance) {
    i in d.creates ==>
      && d.creates[i].rec.instance == i
      && (!d.creates[i].whole ==>
            && d.creates[i].rec.stage in {PreRegistration, LegacyVerified}
            && i !in d.atts && i !in d.removes && i !in d.units
            && (d.active.Some? ==> d.active.value.rec != i))
      && (Attested(d.creates[i].rec.stage) ==> i in d.atts && d.atts[i].whole)
      && (d.creates[i].rec.stage == AbortedReconciled ==>
            i in d.removes && d.removes[i] == Held(d.removes[i].rec.(stage := RemoveComplete, origin := Reconciliation), true))
  }

  ghost predicate AttOk(d: Disk, i: Instance) {
    i in d.atts ==>
      && i in d.creates && d.creates[i].whole
      && d.atts[i].rec.instance == i
      && d.atts[i].rec.githubId > 0
      && d.atts[i].rec.secure
      && d.atts[i].rec.dir == d.creates[i].rec.dir
      && d.creates[i].rec.stage !in {PreRegistration, LegacyVerified}
  }

  ghost predicate RemoveOk(d: Disk, i: Instance) {
    i in d.removes ==>
      var r := d.removes[i].rec;
      && i in d.creates && d.creates[i].whole
      && r.instance == i
      && r.dir == d.creates[i].rec.dir
      && (!d.removes[i].whole ==> r.stage == RemoteOutcomeUnknown)
      && (d.creates[i].rec.stage != LegacyVerified ==>
            i in d.atts && d.atts[i].whole && r.githubId == Some(d.atts[i].rec.githubId))
      && (r.origin == Ordinary ==> d.creates[i].rec.stage in {CreateComplete, LegacyVerified})
      && (r.origin == Reconciliation ==>
            d.creates[i].rec.stage !in {PreRegistration, PermissionIncomplete, LegacyVerified})
  }

  ghost predicate UnitOk(d: Disk, i: Instance) {
    i in d.units ==>
      && i in d.creates && d.creates[i].whole
      && d.units[i].rec.instance == i
      && d.creates[i].rec.stage !in {PreRegistration, PermissionIncomplete, LegacyVerified}
  }

  ghost predicate ActiveOk(d: Disk) {
    d.active.Some? ==>
      && d.active.value.rec in d.creates
      && d.creates[d.active.value.rec].whole
  }

  ghost predicate InvAt(d: Disk, i: Instance) {
    && CreateOk(d, i)
    && AttOk(d, i)
    && RemoveOk(d, i)
    && UnitOk(d, i)
  }

  ghost predicate Inv(d: Disk) {
    && ActiveOk(d)
    && forall i {:trigger InvAt(d, i)} :: InvAt(d, i)
  }

  /* ------------------------------ Slot history ------------------------------ */

  /** The order in which one instance's create stage may move. */
  predicate Precedes(s: CStage, t: CStage) {
    s == t ||
    (InStages(s) && s != CreateComplete &&
      ( (InStages(t) && Index(s) < Index(t))
        || t == OutcomeUnknown
        || (t == AbortedReconciled && Index(s) <= Index(UnitIncomplete))))
  }

  function Rank(s: RStage): nat {
    match s case RemoteOutcomeUnknown => 0 case CleanupPending => 1 case RemoveComplete => 2
  }

  /** An instance is closed once its create record is final and its removal is done. */
  predicate Closed(d: Disk, i: Instance) {
    && i in d.creates && d.creates[i].whole && Closable(d.creates[i].rec.stage)
    && i in d.removes && d.removes[i].whole && d.removes[i].rec.stage == RemoveComplete
  }

  ghost predicate LaterAt(d: Disk, d': Disk, i: Instance) {
    && (i in d.creates ==>
          && i in d'.creates
          && (d.creates[i].whole ==> d'.creates[i].whole)
          && d'.creates[i].rec.instance == d.creates[i].rec.instance
          && d'.creates[i].rec.dir == d.creates[i].rec.dir
          && Precedes(d.creates[i].rec.stage, d'.creates[i].rec.stage))
    && (i in d.atts ==>
          && i in d'.atts
          && d'.atts[i].rec == d.atts[i].rec
          && (d.atts[i].whole ==> d'.atts[i].whole))
    && (i in d.removes ==>
          && i in d'.removes
          && d'.removes[i].rec.(stage := d.removes[i].rec.stage) == d.removes[i].rec
          && Rank(d.removes[i].rec.stage) <= Rank(d'.removes[i].rec.stage)
          && (d.removes[i].whole ==> d'.removes[i].whole))
    && (i in d.units ==>
          && i in d'.units
          && d'.units[i].rec == d.units[i].rec
          && (d.units[i].whole ==> d'.units[i].whole))
    && (Closed(d, i) ==>
          && d'.creates[i] == d.creates[i]
          && d'.removes[i] == d.removes[i]
          && (i in d'.atts <==> i in d.atts) && (i in d.atts ==> d'.atts[i].rec == d.atts[i].rec)
          && (i in d'.units <==> i in d.units))
  }

  ghost predicate LaterActive(d: Disk, d': Disk) {
    d.active.Some? ==>
      && d'.active.Some?
      && (d'.active.value.rec == d.active.value.rec || Closed(d', d.active.value.rec))
  }

  /** d' can follow d in the life of a slot. */
  ghost predicate Later(d: Disk, d': Disk) {
    && LaterActive(d, d')
    && forall i {:trigger LaterAt(d, d', i)} :: LaterAt(d, d', i)
  }

  lemma LaterRefl(d: Disk)
    ensures Later(d, d)
  {
  }

  lemma LaterTrans(a: Disk, b: Disk, c: Disk)
    requires Later(a, b) && Later(b, c)
    ensures Later(a, c)
  {
    forall i ensures LaterAt(a, c, i) {
      assert LaterAt(a, b, i) && LaterAt(b, c, i);
    }
    if a.active.Some? {
      assert LaterAt(b, c, a.active.value.rec);
    }
  }

  /* ---------------------------- One write at a time -------------------------- */

  /** The instance whose record a change touches; the active index is not a record. */
  function Target(w: Write): Option<Instance> {
    match w
    case LinkCreate(c) => Some(c.instance)
    case SettleCreate(i) => Some(i)
    case ReplaceCreate(c) => Some(c.instance)
    case LinkActive(_) => None
    case SettleActive => None
    case ReplaceActive(_) => None
    case LinkAtt(a) => Some(a.instance)
    case SettleAtt(i) => Some(i)
    case LinkRemove(r) => Some(r.instance)
    case SettleRemove(i) => Some(i)
    case ReplaceRemove(r) => Some(r.instance)
    case LinkUnit(u) => Some(u.instance)
    case SettleUnit(i) => Some(i)
  }

  /** A change that may happen in d. */
  ghost predicate Licensed(d: Disk, w: Write) {
    && (Target(w).Some? ==> !Closed(d, Target(w).value))
    && Justified(d, w)
  }

  /** The condition each kind of change rests on. */
  ghost predicate Justified(d: Disk, w: Write) {
    match w
    case LinkCreate(c) =>
      c.instance !in d.creates && c.stage in {PreRegistration, LegacyVerified}
    case SettleCreate(i) => i in d.creates
    case ReplaceCreate(c) =>
      var i := c.instance;
      && i in d.creates && d.creates[i].whole
      && c == d.creates[i].rec.(stage := c.stage)
      && c.stage !in {PreRegistration, LegacyVerified}
      && Precedes(d.creates[i].rec.stage, c.stage)
      && (c.stage == UnitIncomplete ==> HasProof(d, i, c.dir))
      && (InStages(c.stage) && InStages(d.creates[i].rec.stage) ==> Index(c.stage) <= Index(d.creates[i].rec.stage) + 1)
      && (c.stage == AbortedReconciled ==>
            && d.creates[i].rec.stage == UnitIncomplete
            && i in d.removes && d.removes[i].whole && d.removes[i].rec.stage == RemoveComplete)
    case LinkActive(i) => d.active.None? && i in d.creates && d.creates[i].whole && i !in d.removes
    case SettleActive => true
    case ReplaceActive(i) =>
      && i in d.creates && d.creates[i].whole && i !in d.removes
      && d.active.Some? && Closed(d, d.active.value.rec)
      && d.creates[i].rec.dir != d.creates[d.active.value.rec].rec.dir
    case LinkAtt(a) =>
      var i := a.instance;
      && i !in d.atts && i in d.creates && d.creates[i].whole
      && d.creates[i].rec.stage == PermissionIncomplete
      && a.githubId > 0 && a.secure && a.dir == d.creates[i].rec.dir
    case SettleAtt(i) => i in d.atts
    case LinkRemove(r) =>
      var i := r.instance;
      && i !in d.removes && i in d.creates && d.creates[i].whole
      && r.dir == d.creates[i].rec.dir
      && r.stage == RemoteOutcomeUnknown
      && (d.creates[i].rec.stage != LegacyVerified ==>
            i in d.atts && d.atts[i].whole && r.githubId == Some(d.atts[i].rec.githubId))
      && (if r.origin == Ordinary then d.creates[i].rec.stage in {CreateComplete, LegacyVerified}
          else d.creates[i].rec.stage == UnitIncomplete)
    case SettleRemove(i) => i in d.removes
    case ReplaceRemove(r) =>
      var i := r.instance;
      && i in d.removes && d.removes[i].whole
      && r == d.removes[i].rec.(stage := r.stage)
      && Rank(r.stage) == Rank(d.removes[i].rec.stage) + 1
    case LinkUnit(u) =>
      var i := u.instance;
      && i !in d.units && i in d.creates && d.creates[i].whole
      && d.creates[i].rec.stage in {UnitIncomplete, StartIncomplete}
    case SettleUnit(i) => i in d.units
  }

  /** A change keeps what holds of the instances it is not about. */
  lemma UntouchedKeepsInvAt(d: Disk, w: Write, i: Instance)
    requires InvAt(d, i) && Licensed(d, w) && Target(w) != Some(i)
    ensures InvAt(Apply(d, w), i)
  {
    hide Closed, Precedes;
  }

  lemma CreateWriteKeepsInvAt(d: Disk, w: Write, i: Instance)
    requires Inv(d) && Licensed(d, w) && Target(w) == Some(i)
    requires w.LinkCreate? || w.SettleCreate? || w.ReplaceCreate?
    ensures InvAt(Apply(d, w), i)
  {
    assert InvAt(d, i);
  }

  lemma BesideWriteKeepsInvAt(d: Disk, w: Write, i: Instance)
    requires InvAt(d, i) && Licensed(d, w) && Target(w) == Some(i)
    requires !(w.LinkCreate? || w.SettleCreate? || w.ReplaceCreate?)
    ensures InvAt(Apply(d, w), i)
  {
    hide Closed, Precedes;
  }

  lemma LicensedKeepsInv(d: Disk, w: Write)
    requires Inv(d) && Licensed(d, w)
    ensures Inv(Apply(d, w))
  {
    forall i: Instance ensures InvAt(Apply(d, w), i) {
      hide CreateOk, AttOk, RemoveOk, UnitOk, Licensed, Apply;
      assert InvAt(d, i);
      if Target(w) != Some(i) {
        UntouchedKeepsInvAt(d, w, i);
      } else if w.LinkCreate? || w.SettleCreate? || w.ReplaceCreate? {
        CreateWriteKeepsInvAt(d, w, i);
      } else {
        BesideWriteKeepsInvAt(d, w, i);
      }
    }
    if d.active.Some? {
      assert InvAt(d, d.active.value.rec);
    }
  }

  lemma LicensedIsLater(d: Disk, w: Write)
    requires Inv(d) && Licensed(d, w)
    ensures Later(d, Apply(d, w))
  {
    forall i ensures LaterAt(d, Apply(d, w), i) {
      assert InvAt(d, i);
    }
    if d.active.Some? {
      assert InvAt(d, d.active.value.rec);
    }
  }

  /* ------------------------------- Whole plans ------------------------------- */

  ghost predicate AllLicensed(d: Disk, ws: seq<Write>)
    decreases |ws|
  {
    || ws == []
    || (Licensed(d, ws[0]) && AllLicensed(Apply(d, ws[0]), ws[1..]))
  }

  lemma {:induction false} LicensedConcat(d: Disk, us: seq<Write>, vs: seq<Write>)
    requires AllLicensed(d, us) && AllLicensed(ApplyAll(d, us), vs)
    ensures AllLicensed(d, us + vs)
    ensures ApplyAll(d, us + vs) == ApplyAll(ApplyAll(d, us), vs)
    decreases |us|
  {
    if us == [] {
      assert us + vs == vs;
    } else {
      LicensedConcat(Apply(d, us[0]), us[1..], vs);
      assert (us + vs)[1..] == us[1..] + vs;
    }
  }

  lemma {:induction false} LicensedPrefix(d: Disk, ws: seq<Write>, k: nat)
    requires AllLicensed(d, ws) && k <= |ws|
    ensures AllLicensed(d, ws[..k]) && AllLicensed(ApplyAll(d, ws[..k]), ws[k..])
    ensures ApplyAll(ApplyAll(d, ws[..k]), ws[k..]) == ApplyAll(d, ws)
    decreases |ws|
  {
    if k == 0 {
      assert ws[..0] == [] && ws[0..] == ws;
    } else {
      LicensedPrefix(Apply(d, ws[0]), ws[1..], k - 1);
      assert ws[1..][..k-1] == ws[..k][1..];
      assert ws[1..][k-1..] == ws[k..];
    }
  }

  lemma {:induction false} AllLicensedKeeps(d: Disk, ws: seq<Write>)
    requires Inv(d) && AllLicensed(d, ws)
    ensures Inv(ApplyAll(d, ws)) && Later(d, ApplyAll(d, ws))
    decreases |ws|
  {
    if ws == [] {
      LaterRefl(d);
    } else {
      LicensedKeepsInv(d, ws[0]);
      LicensedIsLater(d, ws[0]);
      AllLicensedKeeps(Apply(d, ws[0]), ws[1..]);
      LaterTrans(d, Apply(d, ws[0]), ApplyAll(d, ws));
    }
  }

  lemma License1(d: Disk, w: Write)
    requires Licensed(d, w)
    ensures AllLicensed(d, [w])
    ensures ApplyAll(d, [w]) == Apply(d, w)
  {
    assert [w][1..] == [];
  }

  lemma License2(d: Disk, v: Write, w: Write)
    requires Licensed(d, v) && Licensed(Apply(d, v), w)
    ensures AllLicensed(d, [v, w])
    ensures ApplyAll(d, [v, w]) == Apply(Apply(d, v), w)
  {
    assert [v, w][1..] == [w];
    License1(Apply(d, v), w);
  }

  lemma PublishLicensed(d: Disk, c: CreateRec)
    requires Inv(d) && c.instance !in d.creates && c.stage in {PreRegistration, LegacyVerified}
    ensures var ws := [LinkCreate(c), SettleCreate(c.instance)];
      AllLicensed(d, ws) && ApplyAll(d, ws) == d.(creates := d.creates[c.instance := Held(c, true)])
  {
    assert InvAt(d, c.instance);
    License2(d, LinkCreate(c), SettleCreate(c.instance));
    var d2 := Apply(Apply(d, LinkCreate(c)), SettleCreate(c.instance));
    assert d2.creates == d.creates[c.instance := Held(c, true)];
  }

  lemma PointLicensed(d: Disk, i: Instance)
    requires i in d.creates && d.creates[i].whole && i !in d.removes
    requires d.active.Some? ==>
               && Closed(d, d.active.value.rec)
               && d.creates[i].rec.dir != d.creates[d.active.value.rec].rec.dir
    ensures AllLicensed(d, PointActive(d, i))
    ensures ApplyAll(d, PointActive(d, i)) == d.(active := Some(Held(i, true)))
  {
    if d.active.None? {
      License2(d, LinkActive(i), SettleActive);
    } else {
      License1(d, ReplaceActive(i));
    }
  }

  /** Publishing a new cycle and pointing the active index at it. */
  lemma NewCycleLicensed(d: Disk, i: Instance, dir: Identity, stage: CStage)
    requires Inv(d) && stage in {PreRegistration, LegacyVerified}
    requires Current(d).Missing? || (Current(d).Found? && Closed(d, Current(d).rec) && d.creates[Current(d).rec].rec.dir != dir)
    ensures AllLicensed(d, NewCycle(d, i, dir, stage).writes)
    ensures NewCycle(d, i, dir, stage).ok ==>
              var d' := ApplyAll(d, NewCycle(d, i, dir, stage).writes);
              && d' == d.(active := Some(Held(i, true)), creates := d.creates[i := Held(CreateRec(i, dir, stage), true)])
              && i !in d.creates && i !in d.removes && i !in d.atts
  {
    assert InvAt(d, i);
    if i !in d.creates {
      var c := CreateRec(i, dir, stage);
      var ws := [LinkCreate(c), SettleCreate(i)];
      PublishLicensed(d, c);
      PointLicensed(ApplyAll(d, ws), i);
      LicensedConcat(d, ws, PointActive(d, i));
    }
  }

  lemma CreatePlanLicensed(d: Disk, stage: CStage, look: Look, newId: Instance)
    requires Inv(d)
    ensures AllLicensed(d, CreateStagePlan(d, stage, look, newId).writes)
  {
    if d.active.Some? { assert InvAt(d, d.active.value.rec); }
    var p := CreateStagePlan(d, stage, look, newId);
    if stage == PreRegistration && p.ok {
      NewCycleLicensed(d, newId, look.dir, stage);
    } else if |p.writes| == 1 {
      License1(d, p.writes[0]);
    }
  }

  lemma AttestationPlansLicensed(d: Disk, o: Obs, look: Look)
    requires Inv(d)
    ensures AllLicensed(d, AttestationPlan(d, o).writes)
    ensures AllLicensed(d, UnitAttestationPlan(d, look).writes)
  {
    if d.active.Some? { assert InvAt(d, d.active.value.rec); }
    var p := AttestationPlan(d, o);
    if p.ok { License2(d, p.writes[0], p.writes[1]); }
    var q := UnitAttestationPlan(d, look);
    if q.ok { License2(d, q.writes[0], q.writes[1]); }
  }

  lemma RemoveBeginLicensed(d: Disk, o: Obs)
    requires Inv(d)
    ensures AllLicensed(d, RemoveBeginPlan(d, o).writes)
    ensures AllLicensed(d, ReconcileBeginPlan(d, o).writes)
  {
    if d.active.Some? { assert InvAt(d, d.active.value.rec); }
    var p := RemoveBeginPlan(d, o);
    if p.ok { License2(d, p.writes[0], p.writes[1]); }
    var q := ReconcileBeginPlan(d, o);
    if q.ok { License2(d, q.writes[0], q.writes[1]); }
  }

  lemma RemoveAdvanceLicensed(d: Disk, rcall: RCall, o: Obs)
    requires Inv(d) && rcall != Begin
    ensures AllLicensed(d, RemoveAdvancePlan(d, rcall, o).writes)
  {
    if d.active.Some? { assert InvAt(d, d.active.value.rec); }
    var p := RemoveAdvancePlan(d, rcall, o);
    if p.ok { License1(d, p.writes[0]); }
  }

  lemma RemovePlanLicensed(d: Disk, rcall: RCall, adopt: Obs, o: Obs, newId: Instance)
    requires Inv(d)
    ensures AllLicensed(d, RemoveStagePlan(d, rcall, adopt, o, newId).writes)
  {
    if rcall != Begin {
      RemoveAdvanceLicensed(d, rcall, o);
    } else if Current(d).Missing? {
      var p := AdoptPlan(d, adopt, newId);
      if p.ok {
        NewCycleLicensed(d, newId, adopt.held.dir, LegacyVerified);
        AllLicensedKeeps(d, p.writes);
        RemoveBeginLicensed(ApplyAll(d, p.writes), o);
        LicensedConcat(d, p.writes, RemoveBeginPlan(ApplyAll(d, p.writes), o).writes);
      }
    } else {
      RemoveBeginLicensed(d, o);
    }
  }

  lemma ReconcilePlanLicensed(d: Disk, rcall: RCall, o: Obs)
    requires Inv(d)
    ensures AllLicensed(d, ReconcilePlan(d, rcall, o).writes)
  {
    match rcall
    case Begin => RemoveBeginLicensed(d, o);
    case ConfirmRemoteRemoved => RemoveAdvanceLicensed(d, rcall, o);
    case Complete =>
      RemoveAdvanceLicensed(d, rcall, o);
      var p := RemoveAdvancePlan(d, rcall, o);
      if p.ok {
        AllLicensedKeeps(d, p.writes);
        assert p.writes == [p.writes[0]];
        License1(d, p.writes[0]);
        var d' := ApplyAll(d, p.writes);
        var q := ReconcilePlan(d, rcall, o);
        if q.ok {
          assert InvAt(d', d'.active.value.rec);
          var w := q.writes[|p.writes|];
          License1(d', w);
          LicensedConcat(d, p.writes, [w]);
        }
      }
  }

  /** Every change any operation makes, on any observation, is licensed. */
  lemma PlanLicensed(d: Disk, c: Call)
    requires Inv(d)
    ensures AllLicensed(d, PlanOf(d, c).writes)
  {
    match c
    case CreateStage(stage, look, newId) => CreatePlanLicensed(d, stage, look, newId);
    case CreateAttestation(o) => AttestationPlansLicensed(d, o, Refused);
    case CreateUnitAttestation(look) =>
      AttestationPlansLicensed(d, Obs(Refused, Refused, false, BadMetadata, false, false, false, false), look);
    case RemoveStage(rcall, adopt, o, newId) => RemovePlanLicensed(d, rcall, adopt, o, newId);
    case Reconcile(rcall, o) => ReconcilePlanLicensed(d, rcall, o);
  }
}
