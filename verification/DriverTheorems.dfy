/** The promises of the scripts to the outside world, over every history. */
module DriverTheorems {
  import opened Wrappers
  import opened Journal
  import opened JournalSafety
  import opened JournalEvidence
  import opened Drivers
  import opened DriverSafety

  lemma StartOk()
    ensures HostOk(START)
  {
    forall i ensures InvAt(EMPTY, i) {}
  }

  /* --------------------------- At most once, in order ------------------------ */

  /** Over any history, with kills anywhere and any number of relaunches, GitHub
      sees an orderly sequence of calls. */
  lemma CallsAreOrderly(history: seq<Label>)
    ensures Orderly(Exec(START, history).effects)
  {
    StartOk();
    HistoryKeeps(START, history);
  }

  /** No instance is registered twice or unregistered twice. */
  lemma AtMostOncePerInstance(history: seq<Label>, j: nat, k: nat)
    requires j < k < |Exec(START, history).effects|
    ensures var e := Exec(START, history).effects;
      e[j].kind == e[k].kind ==> e[j].who != e[k].who
  {
    CallsAreOrderly(history);
    var e := Exec(START, history).effects;
    if e[k].kind.UnregisterCall? && j < k - 1 {
      assert e[j].who != e[k-1].who;
    }
  }

  /** A slot is registered again only after the earlier registration was undone:
      the call right after it unregistered that instance and reported success. */
  lemma NeverTwoRegistrations(history: seq<Label>, j: nat, k: nat)
    requires j < k < |Exec(START, history).effects|
    requires var e := Exec(START, history).effects; e[j].kind.RegisterCall? && e[k].kind.RegisterCall?
    ensures var e := Exec(START, history).effects;
      j + 1 < k && e[j].outcome.Done? && e[j + 1] == Effect(UnregisterCall, e[j].who, Done)
  {
    CallsAreOrderly(history);
  }

  lemma {:induction false} EffectsGrow(s: Host, more: seq<Label>)
    ensures s.effects <= Exec(s, more).effects
    decreases |more|
  {
    if more != [] { EffectsGrow(Step(s, more[0]), more[1..]); }
  }

  /** After a call whose success was not reported, whether it failed or its
      script was killed, the slot never calls GitHub again. */
  lemma UncertainCallIsTheLast(history: seq<Label>, more: seq<Label>)
    requires var e := Exec(START, history).effects; e != [] && !e[|e| - 1].outcome.Done?
    ensures Exec(Exec(START, history), more).effects == Exec(START, history).effects
  {
    var s := Exec(START, history);
    StartOk();
    HistoryKeeps(START, history);
    HistoryKeeps(s, more);
    EffectsGrow(s, more);
    var e, e' := s.effects, Exec(s, more).effects;
    assert e'[|e| - 1] == e[|e| - 1];
  }

  /* ------------------------- What precedes each call ------------------------- */

  /** Everyone GitHub has heard of is the active instance or closed. */
  ghost predicate Settled(d: Disk, e: seq<Effect>) {
    forall k :: 0 <= k < |e| ==>
      (e[k].who.Some? && (ActiveId(d) == e[k].who || Closed(d, e[k].who.value)))
  }

  lemma WriteKeepsSettled(d: Disk, w: Write, e: seq<Effect>)
    requires Inv(d) && Licensed(d, w) && Settled(d, e)
    ensures Settled(Apply(d, w), e)
  {
    LicensedIsLater(d, w);
    forall k | 0 <= k < |e|
      ensures ActiveId(Apply(d, w)) == e[k].who || Closed(Apply(d, w), e[k].who.value)
    {
      assert LaterAt(d, Apply(d, w), e[k].who.value);
    }
  }

  lemma StepKeepsSettled(s: Host, l: Label)
    requires HostOk(s) && Settled(s.disk, s.effects)
    ensures Settled(Step(s, l).disk, Step(s, l).effects)
  {
    if l.WriteOne? && s.pending != [] {
      WriteKeepsSettled(s.disk, s.pending[0], s.effects);
    }
  }

  lemma {:induction false} SettledAlways(s: Host, history: seq<Label>)
    requires HostOk(s) && Settled(s.disk, s.effects)
    ensures Settled(Exec(s, history).disk, Exec(s, history).effects)
    decreases |history|
  {
    if history != [] {
      StepKeepsSettled(s, history[0]);
      StepKeeps(s, history[0]);
      SettledAlways(Step(s, history[0]), history[1..]);
    }
  }

  /** When config.sh registers, the instance's create record is durable at
      PRE_REGISTRATION, GitHub never heard of the instance, and every instance it
      did hear of is closed. When config.sh unregisters, the same instance's
      intent to remove is durable and pins the directory and id it was created
      and attested with. */
  lemma BeforeEachCall(history: seq<Label>, outcome: Outcome)
    requires var s := Exec(START, history); Step(s, CallGitHub(outcome)).effects != s.effects
    ensures var s := Exec(START, history);
      var x := Step(s, CallGitHub(outcome)).effects[|s.effects|];
      var d := s.disk;
      && x.who.Some? && d.active == Some(Held(x.who.value, true))
      && x.who.value in d.creates && d.creates[x.who.value].whole
      && (x.kind.RegisterCall? ==>
            && d.creates[x.who.value].rec.stage == PreRegistration
            && x.who.value !in d.removes
            && Unseen(s.effects, x.who.value)
            && forall k :: 0 <= k < |s.effects| ==> s.effects[k].who.Some? && Closed(d, s.effects[k].who.value))
      && (x.kind.UnregisterCall? ==>
            && x.who.value in d.removes && d.removes[x.who.value].whole
            && d.removes[x.who.value].rec.stage == RemoteOutcomeUnknown
            && d.removes[x.who.value].rec.dir == d.creates[x.who.value].rec.dir
            && (d.creates[x.who.value].rec.stage != LegacyVerified ==>
                  && WasDone(s.effects, RegisterCall, x.who.value)
                  && x.who.value in d.atts
                  && d.removes[x.who.value].rec.githubId == Some(d.atts[x.who.value].rec.githubId)))
  {
    hide Exec, AllLicensed;
    var s := Exec(START, history);
    StartOk();
    HistoryKeeps(START, history);
    SettledAlways(START, history);
    RemoveIntentIsReadable(history);
    var i := s.disk.active.value.rec;
    assert InvAt(s.disk, i) && Confirmed(s.disk, s.effects, i);
  }

  /** A registration that fails is recorded: whatever the root operation then observes,
      the instance's create record ends at REGISTRATION_OUTCOME_UNKNOWN, and the script
      is over. */
  lemma FailedRegistrationIsRecorded(history: seq<Label>, adopt: Obs, obs: Obs, newId: Instance)
    requires Exec(START, history).pc == At(Register, 1)
    ensures var s := Exec(START, history);
      exists i, dir ::
        && Stands(s.disk, i, dir, PreRegistration)
        && Exec(s, [CallGitHub(Failed), AskRoot(adopt, obs, newId), WriteOne, Return])
           == Host(WithCreate(s.disk, CreateRec(i, dir, OutcomeUnknown)), [], Idle, s.effects + [Effect(RegisterCall, Some(i), Failed)])
  {
    var s := Exec(START, history);
    AtTheCall(history);
    var i := s.disk.active.value.rec;
    var c := s.disk.creates[i].rec;
    FourSteps(s, CallGitHub(Failed), AskRoot(adopt, obs, newId), WriteOne, Return);
    hide Exec;
    MarkIsPlanned(s.disk, i, c.dir, obs.path, newId);
    hide Apply, CreateStagePlan;
    var s1 := Step(s, CallGitHub(Failed));
    assert s1 == Host(s.disk, [], MarkUnknown, s.effects + [Effect(RegisterCall, Some(i), Failed)]);
    var w := ReplaceCreate(CreateRec(i, c.dir, OutcomeUnknown));
    var s2 := Step(s1, AskRoot(adopt, obs, newId));
    assert s2 == s1.(pc := MarkingUnknown, pending := [w]);
    assert [w][1..] == [];
  }

  lemma AtTheCall(history: seq<Label>)
    requires Exec(START, history).pc == At(Register, 1)
    ensures var s := Exec(START, history);
      && s.pending == [] && s.disk.active.Some?
      && var i := s.disk.active.value.rec;
         i in s.disk.creates && Stands(s.disk, i, s.disk.creates[i].rec.dir, PreRegistration)
  {
    var s := Exec(START, history);
    StartOk();
    HistoryKeeps(START, history);
    hide Exec;
    assert Knows(Register, 1, s.disk, s.effects);
    assert InvAt(s.disk, Current(s.disk).rec);
  }

  lemma MarkIsPlanned(d: Disk, i: Instance, dir: Identity, look: Look, newId: Instance)
    requires Stands(d, i, dir, PreRegistration)
    ensures var w := ReplaceCreate(CreateRec(i, dir, OutcomeUnknown));
      && CreateStagePlan(d, OutcomeUnknown, look, newId).writes == [w]
      && Apply(d, w) == WithCreate(d, CreateRec(i, dir, OutcomeUnknown))
  {
  }

  lemma FourSteps(s: Host, a: Label, b: Label, c: Label, e: Label)
    ensures Exec(s, [a, b, c, e]) == Step(Step(Step(Step(s, a), b), c), e)
  {
    hide Step;
    assert [a, b, c, e][1..] == [b, c, e] && [b, c, e][1..] == [c, e] && [c, e][1..] == [e] && [e][1..] == [];
    assert Exec(s, [a, b, c, e]) == Exec(Step(s, a), [b, c, e]);
    assert Exec(Step(s, a), [b, c, e]) == Exec(Step(Step(s, a), b), [c, e]);
    assert Exec(Step(Step(s, a), b), [c, e]) == Exec(Step(Step(Step(s, a), b), c), [e]);
  }

  lemma UncertainIsOpen(d: Disk, e: seq<Effect>)
    requires Story(d, e) && e != [] && !e[|e| - 1].outcome.Done?
    ensures e[|e| - 1].who.Some? && !Closed(d, e[|e| - 1].who.value)
  {
    hide Chapter;
    var i := e[|e| - 1].who.value;
    assert Confirmed(d, e, i);
    assert |e| > 1 && e[|e| - 1].kind.UnregisterCall? ==> e[|e| - 2].who == Some(i);
    assert forall k :: 0 <= k < |e| ==> e[k] != Effect(UnregisterCall, Some(i), Done);
    assert !WasDone(e, UnregisterCall, i);
  }

  /** The instance of an unconfirmed call stays active for good. */
  lemma UncertainStaysActive(history: seq<Label>, more: seq<Label>)
    requires var e := Exec(START, history).effects; e != [] && !e[|e| - 1].outcome.Done?
    ensures var s := Exec(START, history);
      ActiveId(Exec(s, more).disk) == s.effects[|s.effects| - 1].who
  {
    var s := Exec(START, history);
    var t := Exec(s, more);
    var e := s.effects;
    StartOk();
    HistoryKeeps(START, history);
    HistoryKeeps(s, more);
    SettledAlways(START, history);
    SettledAlways(s, more);
    UncertainCallIsTheLast(history, more);
    hide Story, Inv, Exec;
    UncertainIsOpen(t.disk, e);
  }

  /* ------------------------- A call after the kill --------------------------- */

  lemma {:induction false} ExecConcat(s: Host, g: seq<Label>, h: seq<Label>)
    ensures Exec(s, g + h) == Exec(Exec(s, g), h)
    decreases |g|
  {
    hide Step;
    if g == [] {
      assert g + h == h;
    } else {
      ExecConcat(Step(s, g[0]), g[1..], h);
      assert (g + h)[1..] == g[1..] + h;
    }
  }

  /** No step depends on the calls made before. */
  lemma {:induction false} CallsAreOnlyAdded(s: Host, t: Host, more: seq<Label>)
    requires t == s.(effects := t.effects)
    ensures var s', t' := Exec(s, more), Exec(t, more);
      && s.effects <= s'.effects
      && t' == s'.(effects := t.effects + s'.effects[|s.effects|..])
    decreases |more|
  {
    hide Apply, PlanOf, CreateStagePlan, ToCall;
    if more != [] {
      var s1, t1 := Step(s, more[0]), Step(t, more[0]);
      assert t1 == s1.(effects := t.effects + s1.effects[|s.effects|..]);
      CallsAreOnlyAdded(s1, t1, more[1..]);
    }
  }

  /** A script that was killed when its GitHub call was next may have left a child
      that makes the call at any later time. Until then, whatever is launched, nobody
      else calls GitHub and the instance stays active, so that the late call is in
      order and concerns the instance it was meant for. */
  lemma LateCallIsTheOnlyOne(history: seq<Label>, more: seq<Label>, outcome: Outcome)
    requires var s := Exec(START, history); Step(s, CallGitHub(outcome)).effects != s.effects
    ensures var s := Exec(START, history);
      var t := Exec(Step(s, Kill), more);
      var late := Step(s, CallGitHub(outcome)).effects[|s.effects|];
      && t.effects == s.effects
      && Orderly(t.effects + [late])
      && ActiveId(t.disk) == late.who
  {
    var s := Exec(START, history);
    var lost := [CallGitHub(Lost), Kill];
    var h := history + lost;
    var u := Exec(START, h);
    ExecConcat(START, history, lost);
    assert lost[1..] == [Kill] && [Kill][1..] == [];
    assert u == Step(Step(s, CallGitHub(Lost)), Kill);
    UncertainStaysActive(h, more);
    UncertainCallIsTheLast(h, more);
    CallsAreOnlyAdded(Step(s, Kill), u, more);
    CallsAreOrderly(history + [CallGitHub(outcome)]);
    ExecConcat(START, history, [CallGitHub(outcome)]);
    assert [CallGitHub(outcome)][1..] == [];
  }

  /* A removal intent a script rests on was settled before the script went on. */

  ghost predicate IntentWhole(s: Host) {
    match s.pc
    case At(sc, k) => k > 0 && !sc.Register? ==> Wholly(s.disk)
    case Asked(sc, k, ok) => ok && !sc.Register? ==> Wholly(ApplyAll(s.disk, s.pending))
    case _ => true
  }

  ghost predicate Wholly(d: Disk) {
    && Current(d).Found?
    && Read(d.removes, Current(d).rec).Found?
  }

  lemma RequestLeavesWhole(d: Disk, req: Request, adopt: Obs, o: Obs, newId: Instance)
    requires Inv(d) && (req.AskRemove? || req.AskReconcile?)
    ensures var p := PlanOf(d, ToCall(req, adopt, o, newId)); p.ok ==> Wholly(ApplyAll(d, p.writes))
  {
    var p := PlanOf(d, ToCall(req, adopt, o, newId));
    if p.ok {
      match req
      case AskRemove(rcall) =>
        if rcall == Begin && Current(d).Missing? {
          var a := AdoptPlan(d, adopt, newId);
          NewCycleLicensed(d, newId, adopt.held.dir, LegacyVerified);
          AllLicensedKeeps(d, a.writes);
          var d1 := ApplyAll(d, a.writes);
          BeginLeavesWhole(d1, o);
          RemoveBeginLicensed(d1, o);
          LicensedConcat(d, a.writes, RemoveBeginPlan(d1, o).writes);
        } else if rcall == Begin {
          BeginLeavesWhole(d, o);
        } else {
        }
      case AskReconcile(rcall) =>
        if rcall == Begin {
          BeginLeavesWhole(d, o);
        } else {
          if rcall == Complete {
            var q := RemoveAdvancePlan(d, rcall, o);
            RemoveAdvanceLicensed(d, rcall, o);
            assert q.writes == [q.writes[0]];
            License1(d, q.writes[0]);
            var d1 := ApplyAll(d, q.writes);
            AllLicensedKeeps(d, q.writes);
            var w := p.writes[|q.writes|];
            assert p.writes == q.writes + [w];
            assert InvAt(d1, d1.active.value.rec);
            License1(d1, w);
            LicensedConcat(d, q.writes, [w]);
          }
        }
    }
  }

  lemma BeginLeavesWhole(d: Disk, o: Obs)
    requires Inv(d)
    ensures RemoveBeginPlan(d, o).ok ==> Wholly(ApplyAll(d, RemoveBeginPlan(d, o).writes))
    ensures ReconcileBeginPlan(d, o).ok ==> Wholly(ApplyAll(d, ReconcileBeginPlan(d, o).writes))
  {
    if d.active.Some? { assert InvAt(d, d.active.value.rec); }
    var p := RemoveBeginPlan(d, o);
    if p.ok { License2(d, p.writes[0], p.writes[1]); assert p.writes == [p.writes[0], p.writes[1]]; }
    var q := ReconcileBeginPlan(d, o);
    if q.ok { License2(d, q.writes[0], q.writes[1]); assert q.writes == [q.writes[0], q.writes[1]]; }
  }

  lemma StepKeepsWhole(s: Host, l: Label)
    requires HostOk(s) && IntentWhole(s)
    ensures IntentWhole(Step(s, l))
  {
    if l.AskRoot? && AtInstr(s.pc) && Steps(s.pc.script)[s.pc.k].Ask? && !s.pc.script.Register? {
      RequestLeavesWhole(s.disk, Steps(s.pc.script)[s.pc.k].req, l.adopt, l.obs, l.newId);
    }
  }

  lemma {:induction false} WholeAlways(s: Host, history: seq<Label>)
    requires HostOk(s) && IntentWhole(s)
    ensures IntentWhole(Exec(s, history))
    decreases |history|
  {
    if history != [] {
      StepKeepsWhole(s, history[0]);
      StepKeeps(s, history[0]);
      WholeAlways(Step(s, history[0]), history[1..]);
    }
  }

  lemma RemoveIntentIsReadable(history: seq<Label>)
    ensures IntentWhole(Exec(START, history))
  {
    StartOk();
    WholeAlways(START, history);
  }
}
