/** What a finished mutation reports, against what its script really did. */
module Reporting {
  import opened Wrappers
  import opened Journal
  import opened JournalSafety
  import opened JournalEvidence
  import opened Drivers
  import opened DriverSafety
  import opened DriverTheorems
  import opened Progress

  datatype Failure = OutcomeLost | LifecycleFailed | CompletionNotVerified | OtherError

  datatype Verdict = FailedPreExternal | UnknownReconciliationRequired

  datatype Answer = Success | Diagnosed(error: Failure, verdict: Verdict)

  /** The create and remove stages a diagnostic may disclose. */
  predicate SafeCreate(s: CStage) {
    s !in {LegacyVerified, AbortedReconciled}
  }

  /** Classifies a failed mutation. The verdict starts from the error and is
      overwritten when the journal shows that a checkpoint was crossed; a journal
      read that fails leaves the first verdict standing. */
  method Diagnostic(create: bool, error: Failure, d: Disk) returns (verdict: Verdict)
    ensures verdict == VerdictOf(create, error, d)
  {
    verdict := if error in {OutcomeLost, CompletionNotVerified}
               then UnknownReconciliationRequired else FailedPreExternal;
    var current := Current(d);
    if current.Found? {
      if create {
        var record := Read(d.creates, current.rec);
        if record.Found? && SafeCreate(record.rec.stage) {
          verdict := UnknownReconciliationRequired;
        }
      } else {
        var record := Read(d.removes, current.rec);
        if record.Found? {
          verdict := UnknownReconciliationRequired;
        }
      }
    }
  }

  function VerdictOf(create: bool, error: Failure, d: Disk): Verdict {
    if error in {OutcomeLost, CompletionNotVerified} then UnknownReconciliationRequired
    else match Current(d)
      case Found(a) =>
        if create then
          var record := Read(d.creates, a);
          if record.Found? && SafeCreate(record.rec.stage) then UnknownReconciliationRequired else FailedPreExternal
        else if Read(d.removes, a).Found? then UnknownReconciliationRequired
        else FailedPreExternal
      case _ => FailedPreExternal
  }

  /** A failure before external effects is reported exactly when the error says nothing
      about the outcome and no checkpoint of the active instance can be read: no create
      record at a stage of a registration, or no remove record. */
  lemma VerdictMeans(create: bool, error: Failure, d: Disk)
    ensures VerdictOf(create, error, d) == FailedPreExternal <==>
      && (error == LifecycleFailed || error == OtherError)
      && forall i :: d.active == Some(Held(i, true)) ==>
           if create then
             i in d.creates && d.creates[i].whole ==> d.creates[i].rec.stage == LegacyVerified || d.creates[i].rec.stage == AbortedReconciled
           else i in d.removes ==> !d.removes[i].whole
  {
    if d.active.Some? && d.active.value.whole {
      assert d.active == Some(Held(d.active.value.rec, true));
    }
  }

  /** Completion evidence: a terminal record of the instance and the directory
      present after a create, absent after a remove. */
  predicate Completed(create: bool, instance: Instance, d: Disk, isDirectory: bool, present: bool) {
    if create then
      match Current(d)
      case Found(a) =>
        var record := Read(d.creates, a);
        record.Found? && record.rec.instance == a && record.rec.stage == CreateComplete && isDirectory
      case _ => false
    else
      var record := Read(d.removes, instance);
      record.Found? && record.rec.instance == instance && record.rec.stage == RemoveComplete && !present
  }

  /** What completion means: the active instance's readable record stands at
      CREATE_COMPLETE and its directory is there; after a removal, the removed
      instance's readable record is at REMOVE_COMPLETE and nothing is left under its
      path. */
  ghost predicate Accomplished(create: bool, instance: Instance, d: Disk, isDirectory: bool, present: bool) {
    if create then isDirectory && exists i, dir :: Stands(d, i, dir, CreateComplete)
    else !present && exists r: RemoveRec ::
      r.instance == instance && r.stage == RemoveComplete && instance in d.removes && d.removes[instance] == Held(r, true)
  }

  lemma CompletedIsAccomplished(create: bool, instance: Instance, d: Disk, isDirectory: bool, present: bool)
    ensures Completed(create, instance, d, isDirectory, present) <==> Accomplished(create, instance, d, isDirectory, present)
  {
    if create && Completed(create, instance, d, isDirectory, present) {
      var i := d.active.value.rec;
      assert Stands(d, i, d.creates[i].rec.dir, CreateComplete);
    }
  }

  function AnswerOf(create: bool, instance: Instance, timedOut: bool, exit: Option<int>, d: Disk,
                    isDirectory: bool, present: bool): Answer {
    if timedOut || exit.None? then Diagnosed(OutcomeLost, VerdictOf(create, OutcomeLost, d))
    else if exit.value != 0 then Diagnosed(LifecycleFailed, VerdictOf(create, LifecycleFailed, d))
    else if !Completed(create, instance, d, isDirectory, present) then
      Diagnosed(CompletionNotVerified, VerdictOf(create, CompletionNotVerified, d))
    else Success
  }

  /** The end of a transaction whose script was spawned: `exit` is None when the
      script did not exit by itself. */
  method Conclude(create: bool, instance: Instance, timedOut: bool, exit: Option<int>, d: Disk,
                  isDirectory: bool, present: bool) returns (a: Answer)
    ensures a == AnswerOf(create, instance, timedOut, exit, d, isDirectory, present)
    ensures a.Success? <==> !timedOut && exit == Some(0) && Accomplished(create, instance, d, isDirectory, present)
    ensures a.Diagnosed? ==> a.verdict == VerdictOf(create, a.error, d)
    ensures a.Diagnosed? ==>
      a.error == (if timedOut || exit.None? then OutcomeLost else if exit.value != 0 then LifecycleFailed else CompletionNotVerified)
    ensures a.Diagnosed? && a.verdict.FailedPreExternal? ==> !timedOut && exit.Some? && exit.value != 0
  {
    CompletedIsAccomplished(create, instance, d, isDirectory, present);
    hide Completed, Accomplished;
    if timedOut || exit.None? {
      var v := Diagnostic(create, OutcomeLost, d);
      return Diagnosed(OutcomeLost, v);
    }
    if exit.value != 0 {
      var v := Diagnostic(create, LifecycleFailed, d);
      return Diagnosed(LifecycleFailed, v);
    }
    if !Completed(create, instance, d, isDirectory, present) {
      var v := Diagnostic(create, CompletionNotVerified, d);
      return Diagnosed(CompletionNotVerified, v);
    }
    return Success;
  }

  /* ------------------------------ Honest success ----------------------------- */

  /** A reported success is real, wherever the history ends. After a create the active
      instance stands at CREATE_COMPLETE in a directory that is there, GitHub confirmed
      its registration and it is attested; after a remove the requested instance's
      record is at REMOVE_COMPLETE, nothing is left under its path, and GitHub confirmed
      that it was unregistered. */
  lemma SuccessIsReal(history: seq<Label>, create: bool, instance: Instance, timedOut: bool, exit: Option<int>, isDirectory: bool, present: bool)
    requires AnswerOf(create, instance, timedOut, exit, Exec(START, history).disk, isDirectory, present) == Success
    ensures !timedOut && exit == Some(0)
    ensures var s := Exec(START, history);
      if create then
        && isDirectory
        && exists i, dir, id ::
             && Stands(s.disk, i, dir, CreateComplete) && AttestedAs(s.disk, i, dir, id)
             && WasDone(s.effects, RegisterCall, i)
      else
        && !present && instance in s.disk.removes
        && s.disk.removes[instance].whole && s.disk.removes[instance].rec.stage == RemoveComplete
        && WasDone(s.effects, UnregisterCall, instance)
        && instance in s.disk.creates
        && (s.disk.creates[instance].rec.stage != LegacyVerified ==> WasDone(s.effects, RegisterCall, instance))
  {
    var s := Exec(START, history);
    StartOk();
    HistoryKeeps(START, history);
    CompletedIsAccomplished(create, instance, s.disk, isDirectory, present);
    hide Exec, Completed, Story;
    if create {
      var i, dir :| Stands(s.disk, i, dir, CreateComplete);
      assert InvAt(s.disk, i);
      StoryConfirms(s, i);
      assert AttestedAs(s.disk, i, dir, s.disk.atts[i].rec.githubId);
    } else {
      assert InvAt(s.disk, instance);
      StoryConfirms(s, instance);
    }
  }

  lemma StoryConfirms(s: Host, i: Instance)
    requires HostOk(s)
    ensures Confirmed(s.disk, s.effects, i)
  {
  }

  /** And it is reported: an undisturbed registration whose script exits 0 in time and
      whose directory is there ends in a success. */
  lemma RegistrationIsReported(s: Host, a: Aim, instance: Instance, present: bool) returns (n: nat, t: Host)
    requires s.pc == At(Register, 0) && s.pending == [] && Inv(s.disk) && Free(s.disk, a.dir) && a.i !in s.disk.creates && a.id > 0
    ensures LeadsTo(s, a, n, t)
    ensures AnswerOf(true, instance, false, Some(0), t.disk, true, present) == Success
    ensures AnswerOf(true, instance, false, Some(0), t.disk, false, present) == Diagnosed(CompletionNotVerified, UnknownReconciliationRequired)
  {
    hide LeadsTo, Inv, Free;
    n, t := RegisterCompletes(s, a);
  }

  /** An undisturbed removal whose script exits 0 in time and whose directory is gone
      ends in a success. */
  lemma RemovalIsReported(s: Host, a: Aim, isDirectory: bool) returns (n: nat, t: Host)
    requires s.pc == At(Remove, 0) && s.pending == []
    requires Stands(s.disk, a.i, a.dir, CreateComplete) && AttestedAs(s.disk, a.i, a.dir, a.id) && a.i !in s.disk.removes && a.id > 0
    ensures LeadsTo(s, a, n, t)
    ensures AnswerOf(false, a.i, false, Some(0), t.disk, isDirectory, false) == Success
    ensures AnswerOf(false, a.i, false, Some(0), t.disk, isDirectory, true) == Diagnosed(CompletionNotVerified, UnknownReconciliationRequired)
  {
    hide LeadsTo, Progress.Free;
    n, t := RemoveCompletes(s, a);
  }

  /* ------------------------------ Honest failure ----------------------------- */

  function KindOf(sc: Script): CallKind {
    if sc.Register? then RegisterCall else UnregisterCall
  }

  function CallIndex(sc: Script): nat {
    if sc.Remove? then 2 else 1
  }

  predicate MovesActive(w: Write) {
    w.LinkActive? || w.ReplaceActive?
  }

  /** Where one launch of a script stands, n being the calls made before it. */
  ghost predicate Underway(s: Host, sc: Script, n: nat) {
    && HostOk(s)
    && |s.effects| >= n
    && (s.pc.At? || s.pc.Asked? ==> s.pc.script == sc)
    && (s.pc.MarkUnknown? || s.pc.MarkingUnknown? ==> sc.Register? && |s.effects| > n)
    && (s.pc.At? && |s.effects| > n ==> s.pc.k > CallIndex(sc))
    && (s.pc.Asked? && |s.effects| > n ==> s.pc.k > CallIndex(sc))
    && (|s.effects| > n ==>
          && ActiveId(s.disk).Some?
          && LastIs(s.effects, KindOf(sc), ActiveId(s.disk).value)
          && forall w :: w in s.pending ==> !MovesActive(w))
  }

  lemma LaterRequestsStay(d: Disk, sc: Script, k: nat, req: Request, adopt: Obs, o: Obs, newId: Instance)
    requires k < |Steps(sc)| && Steps(sc)[k] == Ask(req) && k > CallIndex(sc)
    ensures forall w :: w in PlanOf(d, ToCall(req, adopt, o, newId)).writes ==> !MovesActive(w) && !w.LinkRemove?
  {
    hide Apply, ApplyAll, AdoptPlan, PreRegistrationPlan, RemoveBeginPlan, ReconcileBeginPlan, NewCycle, PointActive;
  }

  lemma AskStaysUnderway(s: Host, l: Label, sc: Script, n: nat)
    requires Underway(s, sc, n) && l.AskRoot?
    ensures Underway(Step(s, l), sc, n)
  {
    StepKeeps(s, l);
    if AtInstr(s.pc) && Steps(sc)[s.pc.k].Ask? && |s.effects| > n {
      LaterRequestsStay(s.disk, sc, s.pc.k, Steps(sc)[s.pc.k].req, l.adopt, l.obs, l.newId);
    }
  }

  lemma CallStaysUnderway(s: Host, l: Label, sc: Script, n: nat)
    requires Underway(s, sc, n) && l.CallGitHub?
    ensures Underway(Step(s, l), sc, n)
  {
    StepKeeps(s, l);
    if AtInstr(s.pc) && Steps(sc)[s.pc.k].GitHub? {
      assert s.disk.active.Some?;
    }
  }

  lemma WriteStaysUnderway(s: Host, l: Label, sc: Script, n: nat)
    requires Underway(s, sc, n) && l.WriteOne?
    ensures Underway(Step(s, l), sc, n)
  {
    StepKeeps(s, l);
    hide HostOk;
    if s.pending != [] && |s.effects| > n {
      assert s.pending[0] in s.pending;
      assert ActiveId(Apply(s.disk, s.pending[0])) == ActiveId(s.disk);
    }
  }

  lemma StepStaysUnderway(s: Host, l: Label, sc: Script, n: nat)
    requires Underway(s, sc, n) && !l.Launch?
    ensures Underway(Step(s, l), sc, n)
  {
    match l
    case AskRoot(_, _, _) => AskStaysUnderway(s, l, sc, n);
    case CallGitHub(_) => CallStaysUnderway(s, l, sc, n);
    case WriteOne => WriteStaysUnderway(s, l, sc, n);
    case _ => StepKeeps(s, l);
  }

  lemma {:induction false} StaysUnderway(s: Host, steps: seq<Label>, sc: Script, n: nat)
    requires Underway(s, sc, n) && forall l :: l in steps ==> !l.Launch?
    ensures Underway(Exec(s, steps), sc, n)
    decreases |steps|
  {
    if steps != [] {
      StepStaysUnderway(s, steps[0], sc, n);
      StaysUnderway(Step(s, steps[0]), steps[1..], sc, n);
    }
  }

  /** If the script of a transaction called GitHub at all, then wherever the
      script ended and whatever the error, the diagnostic never says that the
      failure came before external effects. */
  lemma FailureIsHonest(before: seq<Label>, sc: Script, steps: seq<Label>, error: Failure)
    requires Exec(START, before).pc.Idle? && !sc.ReconcileCreate?
    requires forall l :: l in steps ==> !l.Launch?
    requires var s0 := Exec(START, before);
      Exec(Step(s0, Launch(sc)), steps).effects != s0.effects
    ensures var s := Exec(Step(Exec(START, before), Launch(sc)), steps);
      VerdictOf(sc.Register?, error, s.disk) == UnknownReconciliationRequired
  {
    var s0 := Exec(START, before);
    StartOk();
    HistoryKeeps(START, before);
    StepKeeps(s0, Launch(sc));
    var s1 := Step(s0, Launch(sc));
    EffectsGrow(s1, steps);
    StaysUnderway(s1, steps, sc, |s0.effects|);
    var s := Exec(s1, steps);
    assert |s.effects| > |s0.effects|;
    var i := s.disk.active.value.rec;
    assert InvAt(s.disk, i);
    if sc.Remove? { UnregisteredHasIntent(before, sc, steps); }
  }

  /* After an unregister call the active instance still has a readable removal record. */

  ghost predicate IntentSeen(s: Host, n: nat) {
    |s.effects| > n ==> Wholly(s.disk) && forall w :: w in s.pending ==> !w.LinkRemove?
  }

  lemma StepKeepsIntentSeen(s: Host, l: Label, sc: Script, n: nat)
    requires Underway(s, sc, n) && !sc.Register? && !l.Launch? && IntentSeen(s, n) && IntentWhole(s)
    ensures IntentSeen(Step(s, l), n)
  {
    match l
    case WriteOne =>
      if s.pending != [] && |s.effects| > n {
        assert s.pending[0] in s.pending;
        assert ActiveId(Apply(s.disk, s.pending[0])) == ActiveId(s.disk);
      }
    case AskRoot(adopt, obs, newId) =>
      if AtInstr(s.pc) && Steps(sc)[s.pc.k].Ask? && |s.effects| > n {
        LaterRequestsStay(s.disk, sc, s.pc.k, Steps(sc)[s.pc.k].req, adopt, obs, newId);
      }
    case _ =>
  }

  lemma {:induction false} IntentStaysSeen(s: Host, steps: seq<Label>, sc: Script, n: nat)
    requires Underway(s, sc, n) && !sc.Register? && IntentSeen(s, n) && IntentWhole(s)
    requires forall l :: l in steps ==> !l.Launch?
    ensures IntentSeen(Exec(s, steps), n)
    decreases |steps|
  {
    if steps != [] {
      StepStaysUnderway(s, steps[0], sc, n);
      StepKeepsIntentSeen(s, steps[0], sc, n);
      StepKeepsWhole(s, steps[0]);
      IntentStaysSeen(Step(s, steps[0]), steps[1..], sc, n);
    }
  }

  lemma UnregisteredHasIntent(before: seq<Label>, sc: Script, steps: seq<Label>)
    requires Exec(START, before).pc.Idle? && sc.Remove?
    requires forall l :: l in steps ==> !l.Launch?
    ensures var s0 := Exec(START, before);
      IntentSeen(Exec(Step(s0, Launch(sc)), steps), |s0.effects|)
  {
    var s0 := Exec(START, before);
    StartOk();
    HistoryKeeps(START, before);
    StepKeeps(s0, Launch(sc));
    IntentStaysSeen(Step(s0, Launch(sc)), steps, sc, |s0.effects|);
  }
}
