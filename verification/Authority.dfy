/**
 * The root authority as the source runs it: read records, refuse or rewrite
 * them, one directory-entry change at a time. Every operation is proved to do
 * exactly what its plan says, up to the change at which it is killed.
 */
module Authority {
  import opened Wrappers
  import opened Journal
  import opened JournalSafety
  import opened JournalRuns
  import opened JournalEvidence

  datatype Reply = Returned | Raised | Killed

  lemma TakeConcat<T>(s: seq<T>, t: seq<T>, m: nat)
    requires m <= |t|
    ensures s + t[..m] == (s + t)[..|s| + m]
  {
  }

  lemma {:induction false} ApplySnoc(d: Disk, ws: seq<Write>, w: Write)
    ensures ApplyAll(d, ws + [w]) == Apply(ApplyAll(d, ws), w)
    decreases |ws|
  {
    if ws == [] {
      assert ws + [w] == [w];
      assert [w][1..] == [];
    } else {
      ApplySnoc(Apply(d, ws[0]), ws[1..], w);
      assert (ws + [w])[1..] == ws[1..] + [w];
    }
  }

  class Store {
    var active: Option<Held<Instance>>
    var creates: map<Instance, Held<CreateRec>>
    var atts: map<Instance, Held<AttRec>>
    var removes: map<Instance, Held<RemoveRec>>
    var units: map<Instance, Held<UnitRec>>

    /** The number of directory-entry changes left before the process is killed. */
    var budget: nat

    ghost function View(): Disk
      reads this
    {
      Disk(active, creates, atts, removes, units)
    }

    constructor (budget: nat)
      ensures View() == EMPTY && this.budget == budget
    {
      active, creates, atts, removes, units := None, map[], map[], map[], map[];
      this.budget := budget;
    }

    /** What a call that started from d0 with b0 changes to live has done. */
    ghost predicate Ran(d0: Disk, b0: nat, c: Call, r: Reply)
      reads this
    {
      var p := PlanOf(d0, c);
      && View() == ApplyAll(d0, Effect(d0, Attempt(c, b0)))
      && budget == b0 - |Effect(d0, Attempt(c, b0))|
      && r == (if b0 < |p.writes| then Killed else if p.ok then Returned else Raised)
    }

    /** An operation that returned had seen what it needs and did what it promises; one
        that raised could not go through and spared the disk. */
    ghost predicate Kept(d0: Disk, c: Call, r: Reply)
      reads this
    {
      Inv(d0) ==>
        && (r.Returned? ==> Performs(d0, c, View()))
        && (r.Raised? ==> Spares(d0, c, View()) && forall d' :: !Performs(d0, c, d'))
    }

    lemma ExactWhenSound(d0: Disk, c: Call)
      ensures Inv(d0) ==> Exact(d0, c)
    {
      hide PlanOf, Performs, Spares;
      if Inv(d0) { OperationExact(d0, c); }
    }

    /** One directory-entry change, unless the process has been killed. */
    method Change(w: Write) returns (alive: bool)
      modifies this
      ensures alive <==> old(budget) > 0
      ensures alive ==> View() == Apply(old(View()), w) && budget == old(budget) - 1
      ensures !alive ==> View() == old(View()) && budget == 0
    {
      if budget == 0 { return false; }
      budget := budget - 1;
      match w {
        case LinkCreate(c) => creates := creates[c.instance := Held(c, false)];
        case SettleCreate(i) => creates := Settle(creates, i);
        case ReplaceCreate(c) => creates := creates[c.instance := Held(c, true)];
        case LinkActive(i) => active := Some(Held(i, false));
        case SettleActive => if active.Some? { active := Some(Held(active.value.rec, true)); }
        case ReplaceActive(i) => active := Some(Held(i, true));
        case LinkAtt(a) => atts := atts[a.instance := Held(a, false)];
        case SettleAtt(i) => atts := Settle(atts, i);
        case LinkRemove(r) => removes := removes[r.instance := Held(r, false)];
        case SettleRemove(i) => removes := Settle(removes, i);
        case ReplaceRemove(r) => removes := removes[r.instance := Held(r, true)];
        case LinkUnit(u) => units := units[u.instance := Held(u, false)];
        case SettleUnit(i) => units := Settle(units, i);
      }
      return true;
    }

    /** A change that extends the changes `ws` already made since d0. */
    method Commit(ghost d0: Disk, ghost ws: seq<Write>, w: Write) returns (alive: bool)
      requires View() == ApplyAll(d0, ws)
      modifies this
      ensures alive <==> old(budget) > 0
      ensures alive ==> View() == ApplyAll(d0, ws + [w]) && budget == old(budget) - 1
      ensures !alive ==> View() == ApplyAll(d0, ws) && budget == 0
    {
      alive := Change(w);
      ApplySnoc(d0, ws, w);
    }

    /** `_active_update`: replaces the active index when there is one. */
    method PointActiveAt(ghost d0: Disk, ghost ws: seq<Write>, i: Instance) returns (alive: bool, ghost n: nat)
      requires View() == ApplyAll(d0, ws)
      modifies this
      ensures var us := PointActive(ApplyAll(d0, ws), i);
        && n <= |us| && View() == ApplyAll(d0, ws + us[..n]) && budget == old(budget) - n
        && (alive <==> n == |us|) && (!alive ==> budget == 0)
    {
      n := 0;
      assert ws + [] == ws;
      if active.Some? {
        alive := Commit(d0, ws, ReplaceActive(i));
        if alive { n := 1; assert [ReplaceActive(i)][..1] == [ReplaceActive(i)]; }
        return;
      }
      alive := Commit(d0, ws, LinkActive(i));
      if !alive { return; }
      assert [LinkActive(i), SettleActive][..1] == [LinkActive(i)];
      n := 1;
      alive := Commit(d0, ws + [LinkActive(i)], SettleActive);
      if !alive { return; }
      assert ws + [LinkActive(i)] + [SettleActive] == ws + [LinkActive(i), SettleActive];
      assert [LinkActive(i), SettleActive][..2] == [LinkActive(i), SettleActive];
      n := 2;
    }

    lemma CreateKeepsActive(d: Disk, c: CreateRec, i: Instance)
      ensures PointActive(ApplyAll(d, [LinkCreate(c)] + [SettleCreate(i)]), i) == PointActive(d, i)
    {
      assert ApplyAll(d, []) == d;
      assert [] + [LinkCreate(c)] == [LinkCreate(c)];
      ApplySnoc(d, [], LinkCreate(c));
      ApplySnoc(d, [LinkCreate(c)], SettleCreate(i));
    }

    /** Publishes the create record of a new cycle, then moves the active index. */
    method StartCycle(i: Instance, dir: Identity, stage: CStage) returns (r: Reply, ghost n: nat)
      modifies this
      ensures var p := NewCycle(old(View()), i, dir, stage);
        && n <= |p.writes| && View() == ApplyAll(old(View()), p.writes[..n]) && budget == old(budget) - n
        && (r.Killed? <==> n < |p.writes|) && (r.Killed? ==> budget == 0)
        && (!r.Killed? ==> r == if p.ok then Returned else Raised)
    {
      ghost var d0 := View();
      n := 0;
      assert ApplyAll(d0, []) == d0;
      if i in creates { return Raised, 0; }
      var c := CreateRec(i, dir, stage);
      ghost var p := NewCycle(d0, i, dir, stage).writes;
      ghost var us := PointActive(d0, i);
      ghost var head := [LinkCreate(c)] + [SettleCreate(i)];
      assert p == head + us;
      CreateKeepsActive(d0, c, i);
      hide Apply, ApplyAll, PointActive, NewCycle;
      var alive := Commit(d0, [], LinkCreate(c));
      if !alive {
        assert p[..0] == [];
        return Killed, 0;
      }
      assert [] + [LinkCreate(c)] == [LinkCreate(c)];
      alive := Commit(d0, [LinkCreate(c)], SettleCreate(i));
      if !alive {
        assert p[..1] == [LinkCreate(c)];
        return Killed, 1;
      }
      ghost var m;
      alive, m := PointActiveAt(d0, head, i);
      TakeConcat(head, us, m);
      n := 2 + m;
      r := if alive then Returned else Killed;
    }

    method CreateStage(stage: CStage, look: Look, newId: Instance) returns (r: Reply)
      modifies this
      ensures Ran(old(View()), old(budget), Call.CreateStage(stage, look, newId), r)
      ensures Kept(old(View()), Call.CreateStage(stage, look, newId), r)
    {
      hide Apply, NewCycle, Inv, Performs, Spares;
      ghost var d0 := View();
      ghost var c := Call.CreateStage(stage, look, newId);
      ExactWhenSound(d0, c);
      assert ApplyAll(d0, []) == d0;
      if !InStages(stage) && stage != OutcomeUnknown { return Raised; }
      var current := Current(Disk(active, creates, atts, removes, units));
      if current.Unreadable? { return Raised; }
      if stage == PreRegistration {
        if current.Found? {
          var previous := Read(creates, current.rec);
          var removed := Read(removes, current.rec);
          if !(previous.Found? && Closable(previous.rec.stage)) || !(removed.Found? && removed.rec.stage == RemoveComplete) {
            return Raised;
          }
          if look.Refused? || look.dir == removed.rec.dir { return Raised; }
        } else if look.Refused? {
          return Raised;
        }
        ghost var n;
        r, n := StartCycle(newId, look.dir, stage);
        ghost var p := PlanOf(d0, c).writes;
        assert p[..|p|] == p;
        return;
      }
      if current.Missing? { return Raised; }
      var prior := Read(creates, current.rec);
      if !prior.Found? || prior.rec.instance != current.rec { return Raised; }
      var previous := prior.rec.stage;
      if previous == stage { return Returned; }
      if !InStages(previous) || previous == CreateComplete { return Raised; }
      if stage != OutcomeUnknown && Index(stage) != Index(previous) + 1 { return Raised; }
      if stage == UnitIncomplete {
        var proof := Read(atts, current.rec);
        if !proof.Found? || proof.rec.instance != current.rec || proof.rec.dir != prior.rec.dir || !proof.rec.secure {
          return Raised;
        }
      }
      var w := ReplaceCreate(prior.rec.(stage := stage));
      assert [] + [w] == [w] == PlanOf(d0, c).writes;
      var alive := Commit(d0, [], w);
      r := if alive then Returned else Killed;
      assert PlanOf(d0, c).writes[..0] == [];
    }

    /** Two changes that publish one record exclusively. */
    method Exclusive(ghost d0: Disk, ghost ws: seq<Write>, v: Write, w: Write) returns (alive: bool, ghost n: nat)
      requires View() == ApplyAll(d0, ws)
      modifies this
      ensures n <= 2 && View() == ApplyAll(d0, ws + [v, w][..n]) && budget == old(budget) - n
      ensures (alive <==> n == 2) && (!alive ==> budget == 0)
    {
      assert ws + [v, w][..0] == ws;
      n := 0;
      alive := Commit(d0, ws, v);
      if !alive { return; }
      assert [v, w][..1] == [v];
      n := 1;
      alive := Commit(d0, ws + [v], w);
      if !alive { return; }
      assert ws + [v] + [w] == ws + [v, w][..2];
      n := 2;
    }

    method CreateAttestation(o: Obs) returns (r: Reply)
      modifies this
      ensures Ran(old(View()), old(budget), Call.CreateAttestation(o), r)
      ensures Kept(old(View()), Call.CreateAttestation(o), r)
    {
      hide Inv, Performs, Spares;
      ghost var d0 := View();
      ghost var p := PlanOf(d0, Call.CreateAttestation(o)).writes;
      ExactWhenSound(d0, Call.CreateAttestation(o));
      assert ApplyAll(d0, []) == d0;
      var current := Current(Disk(active, creates, atts, removes, units));
      if !current.Found? { return Raised; }
      var a := current.rec;
      var state := Read(creates, a);
      if !state.Found? || state.rec.stage != PermissionIncomplete || state.rec.instance != a { return Raised; }
      if o.held != Seen(state.rec.dir) || o.path != o.held { return Raised; }
      if !o.meta.Metadata? || !o.meta.matches || o.meta.agentId.None? || o.meta.agentId.value <= 0 { return Raised; }
      if !Read(atts, a).Missing? { return Raised; }
      var alive;
      ghost var n;
      alive, n := Exclusive(d0, [], LinkAtt(AttRec(a, state.rec.dir, o.meta.agentId.value, true)), SettleAtt(a));
      assert [] + p[..n] == p[..n] && p[..|p|] == p;
      r := if alive then Returned else Killed;
    }

    method CreateUnitAttestation(look: Look) returns (r: Reply)
      modifies this
      ensures Ran(old(View()), old(budget), Call.CreateUnitAttestation(look), r)
      ensures Kept(old(View()), Call.CreateUnitAttestation(look), r)
    {
      hide Inv, Performs, Spares;
      ghost var d0 := View();
      ghost var p := PlanOf(d0, Call.CreateUnitAttestation(look)).writes;
      ExactWhenSound(d0, Call.CreateUnitAttestation(look));
      assert ApplyAll(d0, []) == d0;
      var current := Current(Disk(active, creates, atts, removes, units));
      if !current.Found? { return Raised; }
      var a := current.rec;
      var create := Read(creates, a);
      if !create.Found? || create.rec.stage !in {UnitIncomplete, StartIncomplete} { return Raised; }
      if look != Seen(create.rec.dir) || !Read(units, a).Missing? { return Raised; }
      var alive;
      ghost var n;
      alive, n := Exclusive(d0, [], LinkUnit(UnitRec(a)), SettleUnit(a));
      assert [] + p[..n] == p[..n] && p[..|p|] == p;
      r := if alive then Returned else Killed;
    }

    /** The BEGIN part of `remove_stage`, for an active instance. */
    method BeginRemoval(ghost d0: Disk, ghost ws: seq<Write>, o: Obs) returns (r: Reply, ghost n: nat)
      requires View() == ApplyAll(d0, ws)
      modifies this
      ensures var p := RemoveBeginPlan(ApplyAll(d0, ws), o);
        && n <= |p.writes| && View() == ApplyAll(d0, ws + p.writes[..n]) && budget == old(budget) - n
        && (r.Killed? <==> n < |p.writes|) && (r.Killed? ==> budget == 0)
        && (!r.Killed? ==> r == if p.ok then Returned else Raised)
    {
      ghost var d := View();
      ghost var p := RemoveBeginPlan(d, o);
      assert ws + [] == ws;
      n := 0;
      var current := Current(Disk(active, creates, atts, removes, units));
      if !current.Found? { return Raised, 0; }
      var a := current.rec;
      var created := Read(creates, a);
      if !created.Found? || created.rec.stage !in {CreateComplete, LegacyVerified} { return Raised, 0; }
      if !Read(removes, a).Missing? { return Raised, 0; }
      if o.held.Refused? || o.path != o.held { return Raised, 0; }
      if !o.meta.Metadata? || !o.meta.matches { return Raised, 0; }
      var remoteId := o.meta.agentId;
      if remoteId.Some? && remoteId.value <= 0 { return Raised, 0; }
      if created.rec.stage == CreateComplete {
        var att := Read(atts, a);
        if !att.Found? || att.rec.instance != a || Some(att.rec.githubId) != remoteId { return Raised, 0; }
      }
      if created.rec.dir != o.held.dir { return Raised, 0; }
      var alive;
      alive, n := Exclusive(d0, ws, LinkRemove(RemoveRec(a, o.held.dir, remoteId, RemoteOutcomeUnknown, Ordinary)), SettleRemove(a));
      r := if alive then Returned else Killed;
    }

    /** CONFIRM and COMPLETE of `remove_stage`. */
    method AdvanceRemoval(rcall: RCall, o: Obs) returns (r: Reply)
      requires rcall != Begin
      modifies this
      ensures var p := RemoveAdvancePlan(old(View()), rcall, o);
        && (r.Killed? <==> old(budget) < |p.writes|)
        && (!r.Killed? ==>
              && r == (if p.ok then Returned else Raised)
              && View() == ApplyAll(old(View()), p.writes) && budget == old(budget) - |p.writes|)
        && (r.Killed? ==> View() == old(View()) && budget == old(budget) == 0)
      ensures Inv(old(View())) && r.Returned? ==>
        if rcall == Complete then exists previous :: Finishes(old(View()), o, previous, View())
        else exists previous :: Confirms(old(View()), o, previous, View())
    {
      ghost var d0 := View();
      assert ApplyAll(d0, []) == d0;
      var current := Current(Disk(active, creates, atts, removes, units));
      if !current.Found? { return Raised; }
      var previous := Read(removes, current.rec);
      if !previous.Found? || previous.rec.instance != current.rec { return Raised; }
      var next;
      if rcall == ConfirmRemoteRemoved {
        if previous.rec.stage != RemoteOutcomeUnknown || o.held != Seen(previous.rec.dir) { return Raised; }
        next := CleanupPending;
      } else {
        if previous.rec.stage != CleanupPending || o.present { return Raised; }
        next := RemoveComplete;
      }
      var w := ReplaceRemove(previous.rec.(stage := next));
      assert [] + [w] == [w];
      var alive := Commit(d0, [], w);
      r := if alive then Returned else Killed;
      if Inv(d0) { AdvanceRemovalExact(d0, rcall, o); }
    }

    method AdoptLegacy(adopt: Obs, newId: Instance) returns (r: Reply, ghost n: nat)
      requires active.None?
      modifies this
      ensures var p := AdoptPlan(old(View()), adopt, newId);
        && n <= |p.writes| && View() == ApplyAll(old(View()), p.writes[..n]) && budget == old(budget) - n
        && (r.Killed? <==> n < |p.writes|) && (r.Killed? ==> budget == 0)
        && (!r.Killed? ==> r == if p.ok then Returned else Raised)
    {
      assert ApplyAll(View(), []) == View();
      if adopt.held.Refused? || adopt.path != adopt.held || !adopt.legacyFiles { return Raised, 0; }
      if !adopt.meta.Metadata? || !adopt.meta.matches { return Raised, 0; }
      r, n := StartCycle(newId, adopt.held.dir, LegacyVerified);
    }

    /** BEGIN of `remove_stage`, which adopts a strict legacy runner as an instance of
        its own first when the slot has none. */
    method AdoptAndBegin(adopt: Obs, o: Obs, newId: Instance) returns (r: Reply)
      modifies this
      ensures Ran(old(View()), old(budget), Call.RemoveStage(Begin, adopt, o, newId), r)
    {
      hide Apply, NewCycle, RemoveAdvancePlan, RemoveBeginPlan, AdoptPlan;
      ghost var d0 := View();
      ghost var p := PlanOf(d0, Call.RemoveStage(Begin, adopt, o, newId)).writes;
      assert ApplyAll(d0, []) == d0;
      assert p[..|p|] == p && p[..0] == [];
      ghost var n: nat := 0;
      ghost var ws: seq<Write> := [];
      if active.None? {
        ghost var q := AdoptPlan(d0, adopt, newId);
        r, n := AdoptLegacy(adopt, newId);
        assert q.writes <= p;
        assert p[..n] == q.writes[..n];
        if !r.Returned? { return; }
        ws := q.writes;
        assert q.writes[..n] == ws;
      }
      ghost var m;
      r, m := BeginRemoval(d0, ws, o);
      ghost var us := RemoveBeginPlan(ApplyAll(d0, ws), o).writes;
      assert p == ws + us;
      TakeConcat(ws, us, m);
    }

    method RemoveStage(rcall: RCall, adopt: Obs, o: Obs, newId: Instance) returns (r: Reply)
      modifies this
      ensures Ran(old(View()), old(budget), Call.RemoveStage(rcall, adopt, o, newId), r)
      ensures Kept(old(View()), Call.RemoveStage(rcall, adopt, o, newId), r)
    {
      hide Apply, RemoveAdvancePlan, Inv, Performs, Spares;
      ghost var d0 := View();
      ghost var p := PlanOf(d0, Call.RemoveStage(rcall, adopt, o, newId)).writes;
      ExactWhenSound(d0, Call.RemoveStage(rcall, adopt, o, newId));
      assert p[..|p|] == p && p[..0] == [];
      if rcall == Begin {
        r := AdoptAndBegin(adopt, o, newId);
      } else {
        r := AdvanceRemoval(rcall, o);
      }
    }

    /** The BEGIN part of `reconcile_create`. */
    method BeginReconciliation(o: Obs) returns (r: Reply)
      modifies this
      ensures Ran(old(View()), old(budget), Call.Reconcile(Begin, o), r)
      ensures Kept(old(View()), Call.Reconcile(Begin, o), r)
    {
      hide Apply, RemoveAdvancePlan, RemoveBeginPlan, AdoptPlan, Inv, Performs, Spares;
      ghost var d0 := View();
      ghost var p := PlanOf(d0, Call.Reconcile(Begin, o)).writes;
      ExactWhenSound(d0, Call.Reconcile(Begin, o));
      assert ApplyAll(d0, []) == d0;
      assert p[..|p|] == p && p[..0] == [];
      var current := Current(Disk(active, creates, atts, removes, units));
      if !current.Found? { return Raised; }
      var a := current.rec;
      var created := Read(creates, a);
      var att := Read(atts, a);
      if !created.Found? || created.rec.stage != UnitIncomplete || created.rec.instance != a { return Raised; }
      if !att.Found? || att.rec.instance != a { return Raised; }
      if !Read(removes, a).Missing? || !Read(units, a).Missing? { return Raised; }
      if o.held != Seen(created.rec.dir) || o.held != Seen(att.rec.dir) || o.path != o.held { return Raised; }
      if !o.filesMatch || !o.meta.Metadata? || !o.meta.matches { return Raised; }
      if o.meta.agentId != Some(att.rec.githubId) || att.rec.githubId <= 0 { return Raised; }
      if o.serviceFile || o.unitFile { return Raised; }
      var alive;
      ghost var n;
      var record := RemoveRec(a, o.held.dir, o.meta.agentId, RemoteOutcomeUnknown, Reconciliation);
      alive, n := Exclusive(d0, [], LinkRemove(record), SettleRemove(a));
      assert [] + p[..n] == p[..n];
      r := if alive then Returned else Killed;
    }

    method Reconcile(rcall: RCall, o: Obs) returns (r: Reply)
      modifies this
      ensures Ran(old(View()), old(budget), Call.Reconcile(rcall, o), r)
      ensures Kept(old(View()), Call.Reconcile(rcall, o), r)
    {
      hide RemoveBeginPlan, ReconcileBeginPlan, Inv, Performs, Spares;
      if rcall == Begin {
        r := BeginReconciliation(o);
        return;
      }
      ghost var d0 := View();
      ghost var p := PlanOf(d0, Call.Reconcile(rcall, o)).writes;
      ExactWhenSound(d0, Call.Reconcile(rcall, o));
      assert ApplyAll(d0, []) == d0;
      assert p[..|p|] == p && p[..0] == [];
      var current := Current(Disk(active, creates, atts, removes, units));
      if !current.Found? { return Raised; }
      var a := current.rec;
      if rcall == ConfirmRemoteRemoved {
        if o.unitFile || o.serviceFile { return Raised; }
        var removed := Read(removes, a);
        if !removed.Found? || o.held != Seen(removed.rec.dir) { return Raised; }
      }
      ghost var q := RemoveAdvancePlan(d0, rcall, o);
      r := AdvanceRemoval(rcall, o);
      if rcall == Complete && r.Returned? {
        // The second publish; a kill in between leaves the create record behind.
        assert current == Current(View());
        var created := Read(creates, a);
        if !created.Found? || created.rec.stage != UnitIncomplete { return Raised; }
        var w := ReplaceCreate(created.rec.(stage := AbortedReconciled));
        assert p == q.writes + [w];
        var alive := Commit(d0, q.writes, w);
        if !alive {
          assert p[..|q.writes|] == q.writes;
          return Killed;
        }
      }
    }
  }
}
