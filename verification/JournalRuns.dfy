/**
 * Runs of the journal: any callers, any order of operations, any observations,
 * and a kill after any number of directory-entry changes of each operation.
 * The operations of a slot are serialised by the mutation lock.
 */
module JournalRuns {
  import opened Wrappers
  import opened Journal
  import opened JournalSafety

  /** One operation of which at most `cut` changes reach the disk. */
  datatype Attempt = Attempt(call: Call, cut: nat)

  function Effect(d: Disk, a: Attempt): seq<Write> {
    var ws := PlanOf(d, a.call).writes;
    if a.cut < |ws| then ws[..a.cut] else ws
  }

  /** All changes made by a run that starts in d. */
  function WritesOf(d: Disk, run: seq<Attempt>): seq<Write>
    decreases |run|
  {
    if run == [] then []
    else Effect(d, run[0]) + WritesOf(ApplyAll(d, Effect(d, run[0])), run[1..])
  }

  function After(d: Disk, run: seq<Attempt>): Disk
    decreases |run|
  {
    if run == [] then d else After(ApplyAll(d, Effect(d, run[0])), run[1..])
  }

  lemma {:induction false} RunLicensed(d: Disk, run: seq<Attempt>)
    requires Inv(d)
    ensures AllLicensed(d, WritesOf(d, run))
    ensures After(d, run) == ApplyAll(d, WritesOf(d, run))
    ensures Inv(After(d, run)) && Later(d, After(d, run))
    decreases |run|
  {
    if run == [] {
      LaterRefl(d);
    } else {
      var ws := PlanOf(d, run[0].call).writes;
      PlanLicensed(d, run[0].call);
      if run[0].cut < |ws| { LicensedPrefix(d, ws, run[0].cut); }
      var us := Effect(d, run[0]);
      AllLicensedKeeps(d, us);
      RunLicensed(ApplyAll(d, us), run[1..]);
      LicensedConcat(d, us, WritesOf(ApplyAll(d, us), run[1..]));
      AllLicensedKeeps(d, WritesOf(d, run));
    }
  }

  lemma EmptyInv()
    ensures Inv(EMPTY)
  {
    forall i ensures InvAt(EMPTY, i) {}
  }

  /** The disk after the first k changes of a run. */
  function At(run: seq<Attempt>, k: nat): Disk
    requires k <= |WritesOf(EMPTY, run)|
  {
    ApplyAll(EMPTY, WritesOf(EMPTY, run)[..k])
  }

  lemma PointsInOrder(run: seq<Attempt>, k: nat, m: nat)
    requires k <= m <= |WritesOf(EMPTY, run)|
    ensures Inv(At(run, k)) && Inv(At(run, m)) && Later(At(run, k), At(run, m))
    ensures AllLicensed(At(run, k), WritesOf(EMPTY, run)[k..m])
    ensures ApplyAll(At(run, k), WritesOf(EMPTY, run)[k..m]) == At(run, m)
  {
    var ws := WritesOf(EMPTY, run);
    EmptyInv();
    RunLicensed(EMPTY, run);
    LicensedPrefix(EMPTY, ws, m);
    LicensedPrefix(EMPTY, ws[..m], k);
    assert ws[..m][..k] == ws[..k];
    assert ws[..m][k..] == ws[k..m];
    AllLicensedKeeps(EMPTY, ws[..k]);
    AllLicensedKeeps(At(run, k), ws[k..m]);
  }

  /* ------------------------------ Main results ------------------------------- */

  /** Identity agreement, at every point of every run: whoever is past the
      attestation checkpoint has a readable attestation, and create, attestation
      and remove records of one instance name that instance, pin the same
      directory and carry the same GitHub id. */
  lemma IdentityAgreement(run: seq<Attempt>, k: nat, i: Instance)
    requires k <= |WritesOf(EMPTY, run)|
    ensures var d := At(run, k);
      && (i in d.creates && Attested(d.creates[i].rec.stage) ==>
            i in d.atts && d.atts[i].whole)
      && (i in d.atts ==>
            && i in d.creates
            && d.atts[i].rec.instance == d.creates[i].rec.instance == i
            && d.atts[i].rec.dir == d.creates[i].rec.dir
            && d.atts[i].rec.githubId > 0)
      && (i in d.removes ==>
            && i in d.creates
            && d.removes[i].rec.instance == i
            && d.removes[i].rec.dir == d.creates[i].rec.dir
            && (d.creates[i].rec.stage != LegacyVerified ==>
                  i in d.atts && d.removes[i].rec.githubId == Some(d.atts[i].rec.githubId)))
  {
    PointsInOrder(run, k, k);
    assert InvAt(At(run, k), i);
  }

  /** Between any two points of a run, an instance's records only move forward:
      directories and attestations are never rewritten, stages never step back. */
  lemma InstanceHistory(run: seq<Attempt>, k: nat, m: nat, i: Instance)
    requires k <= m <= |WritesOf(EMPTY, run)|
    ensures var d, d' := At(run, k), At(run, m);
      && (i in d.creates ==>
            && i in d'.creates
            && d'.creates[i].rec.dir == d.creates[i].rec.dir
            && Precedes(d.creates[i].rec.stage, d'.creates[i].rec.stage))
      && (i in d.atts ==> i in d'.atts && d'.atts[i].rec == d.atts[i].rec)
      && (i in d.removes ==>
            && i in d'.removes
            && d'.removes[i].rec.githubId == d.removes[i].rec.githubId
            && d'.removes[i].rec.origin == d.removes[i].rec.origin
            && Rank(d.removes[i].rec.stage) <= Rank(d'.removes[i].rec.stage))
  {
    PointsInOrder(run, k, m);
    assert LaterAt(At(run, k), At(run, m), i);
  }

  /** A closed instance stays closed and none of its records is written again. */
  lemma ClosedIsFinal(run: seq<Attempt>, k: nat, m: nat, i: Instance)
    requires k <= m < |WritesOf(EMPTY, run)|
    requires Closed(At(run, k), i)
    ensures Closed(At(run, m), i)
    ensures Target(WritesOf(EMPTY, run)[m]) != Some(i)
  {
    PointsInOrder(run, k, m);
    assert LaterAt(At(run, k), At(run, m), i);
    PointsInOrder(run, m, m + 1);
    assert WritesOf(EMPTY, run)[m..m+1][0] == WritesOf(EMPTY, run)[m];
  }

  /* The one change a slot with an unknown registration outcome still admits. */

  predicate UnknownAt(d: Disk, i: Instance) {
    && d.active.Some?
    && d.active.value.rec == i
    && i in d.creates
    && d.creates[i].rec.stage == OutcomeUnknown
  }

  predicate Frozen(w: Write, i: Instance) {
    w.ReplaceRemove? && w.r.instance == i
  }

  predicate AllFrozen(ws: seq<Write>, i: Instance) {
    forall n :: 0 <= n < |ws| ==> Frozen(ws[n], i)
  }

  lemma UnknownPlan(d: Disk, c: Call, i: Instance)
    requires Inv(d) && UnknownAt(d, i)
    ensures AllFrozen(PlanOf(d, c).writes, i)
  {
    assert InvAt(d, i);
    if c.Reconcile? && c.rcall == Complete {
      var p := RemoveAdvancePlan(d, Complete, c.obs);
      if p.ok { FrozenWrites(d, p.writes, i); }
    }
    hide Apply;
  }

  /** Changes of the stores beside the create records and the index. */
  predicate Beside(w: Write) {
    w.LinkAtt? || w.SettleAtt? || w.LinkRemove? || w.SettleRemove? || w.ReplaceRemove? || w.LinkUnit? || w.SettleUnit?
  }

  /** Changes that publish one new create record and point at it, or lie beside. */
  predicate Opens(w: Write, c: CreateRec) {
    match w
    case LinkCreate(c') => c' == c
    case SettleCreate(j) => j == c.instance
    case LinkActive(j) => j == c.instance
    case ReplaceActive(j) => j == c.instance
    case SettleActive => true
    case ReplaceCreate(_) => false
    case _ => true
  }

  lemma {:induction false} OpeningIsKnown(d: Disk, ws: seq<Write>, c: CreateRec, i: Instance)
    requires forall n :: 0 <= n < |ws| ==> Opens(ws[n], c)
    requires (c.instance in d.creates ==> d.creates[c.instance].rec == c) && c.stage != OutcomeUnknown
    requires !UnknownAt(d, i) && (d.active.Some? ==> d.active.value.rec in d.creates)
    ensures !UnknownAt(ApplyAll(d, ws), i)
    decreases |ws|
  {
    if ws != [] {
      assert Opens(ws[0], c);
      if ws[0].LinkActive? || ws[0].ReplaceActive? {
        OpenedIsKnown(d, ws, c, i);
      } else {
        OpeningIsKnown(Apply(d, ws[0]), ws[1..], c, i);
      }
    }
  }

  /** Once the index points at the new record, or is about to, it stays known. */
  lemma {:induction false} OpenedIsKnown(d: Disk, ws: seq<Write>, c: CreateRec, i: Instance)
    requires forall n :: 0 <= n < |ws| ==> Opens(ws[n], c)
    requires (c.instance in d.creates ==> d.creates[c.instance].rec == c) && c.stage != OutcomeUnknown
    requires (d.active.Some? && d.active.value.rec == c.instance) || (ws != [] && (ws[0].LinkActive? || ws[0].ReplaceActive?))
    requires ws == [] ==> !UnknownAt(d, i)
    ensures !UnknownAt(ApplyAll(d, ws), i)
    decreases |ws|
  {
    if ws != [] {
      assert Opens(ws[0], c);
      OpenedIsKnown(Apply(d, ws[0]), ws[1..], c, i);
    }
  }

  lemma {:induction false} BesideKeeps(d: Disk, ws: seq<Write>)
    requires forall n :: 0 <= n < |ws| ==> Beside(ws[n])
    ensures ApplyAll(d, ws).active == d.active && ApplyAll(d, ws).creates == d.creates
    decreases |ws|
  {
    if ws != [] {
      assert Beside(ws[0]);
      BesideKeeps(Apply(d, ws[0]), ws[1..]);
    }
  }

  /** All but the last change of a plan open one new cycle or lie beside the cycles. */
  lemma PlanBeforeLast(d: Disk, c: Call, k: nat)
    requires k < |PlanOf(d, c).writes|
    ensures var ws := PlanOf(d, c).writes[..k];
      || (forall n :: 0 <= n < k ==> Beside(ws[n]))
      || (exists r: CreateRec :: r.instance !in d.creates && r.stage in {PreRegistration, LegacyVerified}
            && forall n :: 0 <= n < k ==> Opens(ws[n], r))
  {
    hide Apply;
    var ws := PlanOf(d, c).writes;
    match c
    case CreateStage(stage, look, newId) =>
      if look.Seen? {
        assert stage == PreRegistration ==> forall n :: 0 <= n < k ==> Opens(ws[..k][n], CreateRec(newId, look.dir, stage));
      }
    case RemoveStage(rcall, adopt, o, newId) =>
      if adopt.held.Seen? {
        assert rcall == Begin && Current(d).Missing? ==>
          forall n :: 0 <= n < k ==> Opens(ws[..k][n], CreateRec(newId, adopt.held.dir, LegacyVerified));
      }
    case _ =>
  }

  /** From where an outcome is unknown, the rest of a plan is frozen. */
  lemma MidPlan(d: Disk, c: Call, k: nat, i: Instance)
    requires Inv(d) && k < |PlanOf(d, c).writes| && UnknownAt(ApplyAll(d, PlanOf(d, c).writes[..k]), i)
    ensures UnknownAt(d, i) && AllFrozen(PlanOf(d, c).writes, i)
  {
    hide PlanOf, Apply, ApplyAll, Inv;
    var ws := PlanOf(d, c).writes[..k];
    PlanBeforeLast(d, c, k);
    if forall n :: 0 <= n < k ==> Beside(ws[n]) {
      BesideKeeps(d, ws);
    } else {
      var r: CreateRec :| r.instance !in d.creates && r.stage in {PreRegistration, LegacyVerified}
        && forall n :: 0 <= n < k ==> Opens(ws[n], r);
      ActiveHasRecord(d);
      if !UnknownAt(d, i) { OpeningIsKnown(d, ws, r, i); }
    }
    UnknownPlan(d, c, i);
  }

  lemma ActiveHasRecord(d: Disk)
    requires Inv(d)
    ensures d.active.Some? ==> d.active.value.rec in d.creates
  {
  }

  lemma {:induction false} FrozenWrites(d: Disk, ws: seq<Write>, i: Instance)
    requires AllFrozen(ws, i)
    ensures ApplyAll(d, ws) == d.(removes := ApplyAll(d, ws).removes)
    ensures forall j :: j != i ==>
              && (j in ApplyAll(d, ws).removes <==> j in d.removes)
              && (j in d.removes ==> ApplyAll(d, ws).removes[j] == d.removes[j])
    decreases |ws|
  {
    if ws != [] {
      assert Frozen(ws[0], i);
      FrozenWrites(Apply(d, ws[0]), ws[1..], i);
    }
  }

  lemma {:induction false} FrozenRun(d: Disk, run: seq<Attempt>, k: nat, i: Instance)
    requires Inv(d) && k <= |WritesOf(d, run)| && UnknownAt(ApplyAll(d, WritesOf(d, run)[..k]), i)
    ensures AllFrozen(WritesOf(d, run)[k..], i)
    decreases |run|
  {
    hide Inv, Apply, PlanOf, UnknownAt;
    if run != [] {
      var us := Effect(d, run[0]);
      var d' := ApplyAll(d, us);
      var rest := WritesOf(d', run[1..]);
      EffectKeeps(d, run[0]);
      var ws := us + rest;
      assert WritesOf(d, run) == ws;
      hide WritesOf, ApplyAll;
      if k >= |us| {
        assert ws[..k] == us + rest[..k - |us|];
        assert ws[k..] == rest[k - |us|..];
        ApplyConcat(d, us, rest[..k - |us|]);
        FrozenRun(d', run[1..], k - |us|, i);
      } else {
        assert ws[..k] == us[..k] == PlanOf(d, run[0].call).writes[..k];
        MidPlan(d, run[0].call, k, i);
        StillUnknown(d, us, i);
        assert rest[..0] == [] && rest[0..] == rest;
        FrozenRun(d', run[1..], 0, i);
        assert ws[k..] == us[k..] + rest;
      }
    }
  }

  lemma StillUnknown(d: Disk, ws: seq<Write>, i: Instance)
    requires AllFrozen(ws, i) && UnknownAt(d, i)
    ensures UnknownAt(ApplyAll(d, ws), i)
  {
    hide ApplyAll;
    FrozenWrites(d, ws, i);
  }

  lemma EffectKeeps(d: Disk, a: Attempt)
    requires Inv(d)
    ensures Inv(ApplyAll(d, Effect(d, a)))
  {
    hide Apply, PlanOf, ApplyAll;
    RunLicensed(d, [a]);
    assert [a][1..] == [];
  }

  lemma {:induction false} ApplyConcat(d: Disk, us: seq<Write>, vs: seq<Write>)
    ensures ApplyAll(d, us + vs) == ApplyAll(ApplyAll(d, us), vs)
    decreases |us|
  {
    hide Apply;
    if us == [] {
      assert us + vs == vs;
    } else {
      ApplyConcat(Apply(d, us[0]), us[1..], vs);
      assert (us + vs)[1..] == us[1..] + vs;
    }
  }

  /** Once the active instance has an unknown registration outcome the slot is
      frozen for good: from then on every change on disk replaces that instance's
      own remove record. The index, all create records, attestations and unit
      attestations, and every other instance's remove record stay as they are,
      and no new cycle, attestation or removal is ever admitted. */
  lemma UnknownOutcomeFreezesSlot(run: seq<Attempt>, k: nat, m: nat, i: Instance)
    requires k <= m <= |WritesOf(EMPTY, run)| && UnknownAt(At(run, k), i)
    ensures forall n :: k <= n < m ==> Frozen(WritesOf(EMPTY, run)[n], i)
    ensures At(run, m) == At(run, k).(removes := At(run, m).removes)
    ensures forall j :: j != i ==>
              && (j in At(run, m).removes <==> j in At(run, k).removes)
              && (j in At(run, k).removes ==> At(run, m).removes[j] == At(run, k).removes[j])
    ensures forall look, newId :: PlanOf(At(run, m), CreateStage(PreRegistration, look, newId)) == REFUSED
    ensures forall o :: PlanOf(At(run, m), CreateAttestation(o)) == REFUSED
    ensures forall adopt, o, newId :: PlanOf(At(run, m), RemoveStage(Begin, adopt, o, newId)).writes == []
    ensures forall o :: PlanOf(At(run, m), Reconcile(Begin, o)) == REFUSED
  {
    var ws := WritesOf(EMPTY, run);
    FrozenInterval(run, k, m, i);
    PointsInOrder(run, m, m);
  }

  lemma FrozenInterval(run: seq<Attempt>, k: nat, m: nat, i: Instance)
    requires k <= m <= |WritesOf(EMPTY, run)| && UnknownAt(At(run, k), i)
    ensures AllFrozen(WritesOf(EMPTY, run)[k..m], i) && UnknownAt(At(run, m), i)
    ensures forall n :: k <= n < m ==> Frozen(WritesOf(EMPTY, run)[n], i)
    ensures At(run, m) == At(run, k).(removes := At(run, m).removes)
    ensures forall j :: j != i ==>
              && (j in At(run, m).removes <==> j in At(run, k).removes)
              && (j in At(run, k).removes ==> At(run, m).removes[j] == At(run, k).removes[j])
  {
    hide UnknownAt, Inv, Frozen, ApplyAll, WritesOf;
    var ws := WritesOf(EMPTY, run);
    EmptyInv();
    FrozenRun(EMPTY, run, k, i);
    assert forall n :: 0 <= n < m - k ==> ws[k..m][n] == ws[k..][n];
    PointsInOrder(run, k, m);
    FrozenWrites(At(run, k), ws[k..m], i);
    StillUnknown(At(run, k), ws[k..m], i);
    forall n | k <= n < m ensures Frozen(ws[n], i) { assert ws[k..m][n - k] == ws[n]; }
  }

  /** An aborted instance was never complete, and its removal was begun by the
      reconciliation path and has finished. */
  lemma AbortedWasNeverComplete(run: seq<Attempt>, k: nat, m: nat, i: Instance)
    requires k <= m <= |WritesOf(EMPTY, run)|
    requires var d' := At(run, m); i in d'.creates && d'.creates[i].rec.stage == AbortedReconciled
    ensures var d := At(run, k); i in d.creates ==> d.creates[i].rec.stage != CreateComplete
    ensures var d' := At(run, m);
      && i in d'.removes && d'.removes[i].whole
      && d'.removes[i].rec.stage == RemoveComplete
      && d'.removes[i].rec.origin == Reconciliation
  {
    PointsInOrder(run, k, m);
    assert LaterAt(At(run, k), At(run, m), i);
    assert InvAt(At(run, m), i);
  }

  /** An active index that was linked but not settled stops every operation. */
  lemma {:induction false} UnreadableActiveFreezesSlot(d: Disk, run: seq<Attempt>)
    requires Current(d).Unreadable?
    ensures After(d, run) == d
    decreases |run|
  {
    if run != [] {
      assert PlanOf(d, run[0].call).writes == [];
      UnreadableActiveFreezesSlot(d, run[1..]);
    }
  }

  /* ---------------------- The sequence of active instances ------------------- */

  /** The instances the active index was pointed at, in order. */
  function ActiveHistory(ws: seq<Write>): seq<Instance>
    decreases |ws|
  {
    if ws == [] then []
    else
      ActiveHistory(ws[..|ws| - 1]) + Pointed(ws[|ws| - 1])
  }

  ghost predicate GoodCycles(d: Disk, h: seq<Instance>) {
    && (|h| == 0 <==> d.active.None?)
    && (|h| > 0 ==> d.active.value.rec == h[|h| - 1])
    && (forall a :: 0 <= a < |h| ==> h[a] in d.creates)
    && (forall a :: 0 <= a < |h| - 1 ==> Closed(d, h[a]))
    && (forall a :: 0 <= a < |h| - 1 ==> d.creates[h[a]].rec.dir != d.creates[h[a + 1]].rec.dir)
    && (forall a, b :: 0 <= a < b < |h| ==> h[a] != h[b])
  }

  function Pointed(w: Write): seq<Instance> {
    if w.LinkActive? || w.ReplaceActive? then [w.i] else []
  }

  lemma GoodCyclesStep(d: Disk, w: Write, h: seq<Instance>)
    requires Inv(d) && Licensed(d, w) && GoodCycles(d, h)
    ensures GoodCycles(Apply(d, w), h + Pointed(w))
  {
    hide Inv, Precedes, Rank;
    var d' := Apply(d, w);
    LicensedIsLater(d, w);
    forall a | 0 <= a < |h|
      ensures h[a] in d'.creates && d'.creates[h[a]].rec.dir == d.creates[h[a]].rec.dir
      ensures Closed(d, h[a]) ==> Closed(d', h[a])
    {
      assert LaterAt(d, d', h[a]);
    }
    if w.ReplaceActive? {
      assert forall a :: 0 <= a < |h| ==> h[a] in d.removes;
      assert d'.creates == d.creates;
    } else if w.LinkActive? {
      assert h == [];
    } else {
      assert h + Pointed(w) == h;
    }
  }

  lemma {:induction false} CyclesGrow(run: seq<Attempt>, k: nat)
    requires k <= |WritesOf(EMPTY, run)|
    ensures GoodCycles(At(run, k), ActiveHistory(WritesOf(EMPTY, run)[..k]))
  {
    hide Inv, Licensed, Apply, WritesOf;
    var ws := WritesOf(EMPTY, run);
    if k > 0 {
      CyclesGrow(run, k - 1);
      PointsInOrder(run, k - 1, k);
      assert ws[k - 1..k] == [ws[k - 1]];
      assert [ws[k - 1]][1..] == [];
      assert ws[..k][..k - 1] == ws[..k - 1];
      GoodCyclesStep(At(run, k - 1), ws[k-1], ActiveHistory(ws[..k - 1]));
    } else {
      assert ws[..0] == [];
    }
  }

  /** In every run, each cycle but the last is closed, no instance becomes active
      twice, and two consecutive cycles never pin the same directory. */
  lemma ConsecutiveCyclesDiffer(run: seq<Attempt>)
    ensures GoodCycles(After(EMPTY, run), ActiveHistory(WritesOf(EMPTY, run)))
  {
    EmptyInv();
    hide Inv, Licensed, Apply, ApplyAll, WritesOf, ActiveHistory, GoodCycles;
    var ws := WritesOf(EMPTY, run);
    RunLicensed(EMPTY, run);
    CyclesGrow(run, |ws|);
    assert ws[..|ws|] == ws;
  }
}
