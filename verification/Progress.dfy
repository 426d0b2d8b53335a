/**
 * What the protocol is for: with nobody in the way the scripts get through. From
 * every slot whose last instance is closed a new runner can be registered, from
 * every complete one it can be removed, and then the slot is ready again.
 */
module Progress {
  import opened Wrappers
  import opened Journal
  import opened JournalSafety
  import opened JournalEvidence
  import opened Drivers

  /** What a script is run for: the instance a registration would make or a removal
      is about, its directory and its GitHub id. */
  datatype Aim = Aim(i: Instance, dir: Identity, id: int)

  /** What a directory in order shows. */
  function Sight(a: Aim): Obs {
    Obs(Seen(a.dir), Seen(a.dir), true, Metadata(true, Some(a.id)), true, false, false, false)
  }

  /** What is seen once the directory is gone. */
  const GONE := Obs(Refused, Refused, false, BadMetadata, false, false, false, false)

  /** What a checkpoint looks at when everything is in order. */
  function Expected(req: Request, a: Aim): Obs {
    if req == AskRemove(Complete) || req == AskReconcile(Complete) then GONE else Sight(a)
  }

  /** The call that a checkpoint then makes. */
  function Wanted(req: Request, a: Aim): Call {
    ToCall(req, Expected(req, a), Expected(req, a), a.i)
  }

  /** What a checkpoint looks at is in order. A removal draws a new instance, and looks
      at a runner to adopt, only in a slot that never had one. */
  predicate Shows(d: Disk, req: Request, adopt: Obs, obs: Obs, newId: Instance, a: Aim) {
    if req.AskRemove? && !Current(d).Missing? then obs == Expected(req, a)
    else ToCall(req, adopt, obs, newId) == Wanted(req, a)
  }

  lemma ShownIsWanted(d: Disk, req: Request, adopt: Obs, obs: Obs, newId: Instance, a: Aim)
    requires Shows(d, req, adopt, obs, newId, a)
    ensures PlanOf(d, ToCall(req, adopt, obs, newId)) == PlanOf(d, Wanted(req, a))
  {
    hide Apply, CreateStagePlan, Expected;
  }

  /** Nothing is in the way: no kill and no refusal, what a checkpoint looks at is in
      order, the call is confirmed and local work succeeds. A script that is launched
      meanwhile waits for the lock. */
  predicate Smooth(s: Host, l: Label, a: Aim) {
    match l
    case Launch(_) => !s.pc.Idle?
    case AskRoot(adopt, obs, newId) =>
      AtInstr(s.pc) && Steps(s.pc.script)[s.pc.k].Ask? ==> Shows(s.disk, Steps(s.pc.script)[s.pc.k].req, adopt, obs, newId, a)
    case RefuseRoot => false
    case WriteOne => true
    case Return => true
    case CallGitHub(outcome) => outcome.Done?
    case LocalStep(ok) => ok
    case Kill => false
  }

  predicate Undisturbed(s: Host, history: seq<Label>, a: Aim)
    decreases |history|
  {
    history == [] || (Smooth(s, history[0], a) && Undisturbed(Step(s, history[0]), history[1..], a))
  }

  /** The steps of a history that change something. */
  function Moves(s: Host, history: seq<Label>): nat
    decreases |history|
  {
    if history == [] then 0
    else (if Step(s, history[0]) == s then 0 else 1) + Moves(Step(s, history[0]), history[1..])
  }

  /** The one step that can be next when nothing is in the way. */
  function NextLabel(s: Host, a: Aim): Label {
    if s.pending != [] then WriteOne
    else if AtInstr(s.pc) then
      match Steps(s.pc.script)[s.pc.k]
      case Ask(req) => AskRoot(Expected(req, a), Expected(req, a), a.i)
      case GitHub => CallGitHub(Done)
      case Local => LocalStep(true)
    else Return
  }

  function Onward(s: Host, a: Aim): Host {
    Step(s, NextLabel(s, a))
  }

  function Course(s: Host, a: Aim, n: nat): Host
    decreases n
  {
    if n == 0 then s else Course(Onward(s, a), a, n - 1)
  }

  predicate Ended(s: Host) {
    s.pc.Idle? && s.pending == []
  }

  /** Changes are pending only while a root operation is under way. */
  predicate Tidy(s: Host) {
    !s.pc.MarkUnknown? && (s.pending != [] ==> s.pc.Asked? || s.pc.MarkingUnknown?)
  }

  lemma SmoothStep(s: Host, l: Label, a: Aim)
    requires Tidy(s) && Smooth(s, l, a)
    ensures Step(s, l) == s || (Step(s, l) == Onward(s, a) && !Ended(s))
    ensures Tidy(Step(s, l))
  {
    hide Apply, PlanOf, CreateStagePlan, ToCall, Expected, Shows;
    if l.AskRoot? && AtInstr(s.pc) && Steps(s.pc.script)[s.pc.k].Ask? {
      ShownIsWanted(s.disk, Steps(s.pc.script)[s.pc.k].req, l.adopt, l.obs, l.newId, a);
    }
  }

  /** Every undisturbed history is a beginning of one course. */
  lemma {:induction false} OnCourse(s: Host, history: seq<Label>, a: Aim)
    requires Tidy(s) && Undisturbed(s, history, a)
    ensures Exec(s, history) == Course(s, a, Moves(s, history))
    decreases |history|
  {
    hide Onward, Step, Smooth, Tidy;
    if history != [] {
      SmoothStep(s, history[0], a);
      OnCourse(Step(s, history[0]), history[1..], a);
    }
  }

  /** A course that ends bounds every undisturbed history. */
  lemma {:induction false} MovesBounded(s: Host, history: seq<Label>, a: Aim, n: nat)
    requires Tidy(s) && Undisturbed(s, history, a) && Ended(Course(s, a, n))
    ensures Moves(s, history) <= n
    decreases |history|
  {
    hide Onward, Step, Smooth, Tidy;
    if history != [] {
      SmoothStep(s, history[0], a);
      MovesBounded(Step(s, history[0]), history[1..], a, if Step(s, history[0]) == s then n else n - 1);
    }
  }

  /** When a course that has not ended stands still, it never ends. */
  lemma {:induction false} StuckStays(s: Host, a: Aim, n: nat)
    requires Onward(s, a) == s
    ensures Course(s, a, n) == s
  {
    if n > 0 { StuckStays(s, a, n - 1); }
  }

  lemma {:induction false} CourseAdd(s: Host, a: Aim, m: nat, n: nat)
    ensures Course(s, a, m + n) == Course(Course(s, a, m), a, n)
    decreases m
  {
    hide Onward;
    if m > 0 { CourseAdd(Onward(s, a), a, m - 1, n); }
  }

  ghost predicate CanMove(s: Host, a: Aim) {
    exists l :: Smooth(s, l, a) && Step(s, l) != s
  }

  /** Every undisturbed history makes at most n moves; it can always move on until the
      script has ended, and then the host is t. */
  ghost predicate LeadsTo(s: Host, a: Aim, n: nat, t: Host) {
    forall history {:trigger Undisturbed(s, history, a)} :: Undisturbed(s, history, a) ==>
      && Moves(s, history) <= n
      && (Ended(Exec(s, history)) ==> Exec(s, history) == t)
      && (!Ended(Exec(s, history)) ==> CanMove(Exec(s, history), a))
  }

  lemma NextIsSmooth(s: Host, a: Aim)
    ensures Onward(s, a) != s ==> CanMove(s, a)
    ensures Ended(s) ==> Onward(s, a) == s
  {
    hide ToCall, Apply, PlanOf;
    assert Smooth(s, NextLabel(s, a), a);
  }

  lemma HistoryCompletes(s: Host, history: seq<Label>, a: Aim, n: nat)
    requires Tidy(s) && Undisturbed(s, history, a) && Ended(Course(s, a, n))
    ensures Moves(s, history) <= n
    ensures Ended(Exec(s, history)) ==> Exec(s, history) == Course(s, a, n)
    ensures !Ended(Exec(s, history)) ==> CanMove(Exec(s, history), a)
  {
    hide Smooth, Step, Exec, Moves, Undisturbed, Tidy, Course, NextLabel, Ended, CanMove, Onward;
    OnCourse(s, history, a);
    MovesBounded(s, history, a, n);
    var m, e := Moves(s, history), Exec(s, history);
    CourseAdd(s, a, m, n - m);
    NextIsSmooth(e, a);
    if Onward(e, a) == e { StuckStays(e, a, n - m); }
  }

  lemma CourseCompletes(s: Host, a: Aim, n: nat)
    requires Tidy(s) && Ended(Course(s, a, n))
    ensures LeadsTo(s, a, n, Course(s, a, n))
  {
    hide Smooth, Step, Exec, Moves, Undisturbed, Tidy, Course, Ended, CanMove;
    forall history | Undisturbed(s, history, a)
      ensures Moves(s, history) <= n
      ensures Ended(Exec(s, history)) ==> Exec(s, history) == Course(s, a, n)
      ensures !Ended(Exec(s, history)) ==> CanMove(Exec(s, history), a)
    {
      HistoryCompletes(s, history, a, n);
    }
  }

  lemma {:induction false} WritesRun(s: Host, a: Aim)
    ensures Course(s, a, |s.pending|) == s.(disk := ApplyAll(s.disk, s.pending), pending := [])
    decreases |s.pending|
  {
    hide Apply;
    if s.pending != [] { WritesRun(Step(s, WriteOne), a); }
  }

  lemma Extend(s: Host, a: Aim, m: nat, t: Host, n: nat) returns (sum: nat)
    requires Course(s, a, m) == t
    ensures Course(s, a, sum) == Course(t, a, n)
  {
    CourseAdd(s, a, m, n);
    sum := m + n;
  }

  /** A checkpoint whose plan is admitted runs through. */
  lemma AskRuns(s: Host, a: Aim) returns (n: nat)
    requires AtInstr(s.pc) && Steps(s.pc.script)[s.pc.k].Ask? && s.pending == []
    requires PlanOf(s.disk, Wanted(Steps(s.pc.script)[s.pc.k].req, a)).ok
    ensures var p := PlanOf(s.disk, Wanted(Steps(s.pc.script)[s.pc.k].req, a));
      Course(s, a, n) == s.(disk := ApplyAll(s.disk, p.writes), pc := Next(s.pc.script, s.pc.k))
  {
    hide PlanOf, Apply, ToCall, Expected, ApplyAll, Steps;
    var s1 := Onward(s, a);
    WritesRun(s1, a);
    var s2 := Course(s1, a, |s1.pending|);
    assert Course(s2, a, 1) == Onward(s2, a);
    assert Course(s, a, 1) == s1;
    n := Extend(s, a, 1, s1, |s1.pending|);
    n := Extend(s, a, n, s2, 1);
  }

  lemma LocalRuns(s: Host, a: Aim)
    requires AtInstr(s.pc) && Steps(s.pc.script)[s.pc.k].Local? && s.pending == []
    ensures Course(s, a, 1) == s.(pc := Next(s.pc.script, s.pc.k))
  {
    assert Course(Onward(s, a), a, 0) == Onward(s, a);
  }

  lemma StageAdmitted(d: Disk, i: Instance, dir: Identity, stage: CStage, next: CStage, look: Look, newId: Instance)
    requires Stands(d, i, dir, stage) && InStages(stage) && InStages(next) && Index(next) == Index(stage) + 1
    requires next == UnitIncomplete ==> HasProof(d, i, dir)
    ensures var p := PlanOf(d, CreateStage(next, look, newId));
      p.ok && ApplyAll(d, p.writes) == WithCreate(d, CreateRec(i, dir, next))
  {
    var p := PlanOf(d, CreateStage(next, look, newId));
    ApplyOne(d, p.writes[0]);
    assert p.writes == [p.writes[0]];
  }

  lemma StageRuns(s: Host, a: Aim, k: nat, stage: CStage, next: CStage) returns (n: nat)
    requires s.pc == At(Register, k) && s.pending == [] && k < 13 && Steps(Register)[k] == Ask(AskStage(next))
    requires Stands(s.disk, a.i, a.dir, stage) && InStages(stage) && InStages(next) && Index(next) == Index(stage) + 1
    requires next == UnitIncomplete ==> HasProof(s.disk, a.i, a.dir)
    ensures Course(s, a, n) == s.(disk := WithCreate(s.disk, CreateRec(a.i, a.dir, next)), pc := Next(Register, k))
  {
    StageAdmitted(s.disk, a.i, a.dir, stage, next, Seen(a.dir), a.i);
    hide PlanOf, ApplyAll;
    n := AskRuns(s, a);
  }

  /** A slot that never had an instance, or whose instance is closed in another directory. */
  predicate Free(d: Disk, dir: Identity) {
    d.active.None? ||
    (Current(d).Found? && Closed(d, Current(d).rec) && d.removes[Current(d).rec].rec.dir != dir)
  }

  lemma CycleAdmitted(d: Disk, dir: Identity, newId: Instance)
    requires Free(d, dir) && newId !in d.creates
    ensures var p := PlanOf(d, CreateStage(PreRegistration, Seen(dir), newId));
      var d' := ApplyAll(d, p.writes);
      && p.ok && Stands(d', newId, dir, PreRegistration)
      && d'.removes == d.removes
      && d'.atts == d.atts
      && d'.units == d.units
  {
    var p := PlanOf(d, CreateStage(PreRegistration, Seen(dir), newId));
    var ws := p.writes;
    NewCycleApplied(d, newId, dir);
  }

  lemma NewCycleApplied(d: Disk, i: Instance, dir: Identity)
    requires i !in d.creates
    ensures var d' := ApplyAll(d, NewCycle(d, i, dir, PreRegistration).writes);
      && Stands(d', i, dir, PreRegistration)
      && d'.removes == d.removes
      && d'.atts == d.atts
      && d'.units == d.units
  {
    CycleIsMade(d, i, dir, PreRegistration);
  }

  lemma AttestationAdmitted(d: Disk, i: Instance, dir: Identity, id: int)
    requires Stands(d, i, dir, PermissionIncomplete) && i !in d.atts && id > 0
    ensures var p := PlanOf(d, CreateAttestation(Sight(Aim(i, dir, id))));
      p.ok && ApplyAll(d, p.writes) == d.(atts := d.atts[i := Held(AttRec(i, dir, id, true), true)])
  {
    var p := PlanOf(d, CreateAttestation(Sight(Aim(i, dir, id))));
    ApplyTwo(d, p.writes[0], p.writes[1]);
    assert p.writes == [p.writes[0], p.writes[1]];
  }

  lemma UnitAttestationAdmitted(d: Disk, i: Instance, dir: Identity)
    requires Stands(d, i, dir, UnitIncomplete) && i !in d.units
    ensures var p := PlanOf(d, CreateUnitAttestation(Seen(dir)));
      p.ok && ApplyAll(d, p.writes) == d.(units := d.units[i := Held(UnitRec(i), true)])
  {
    var p := PlanOf(d, CreateUnitAttestation(Seen(dir)));
    ApplyTwo(d, p.writes[0], p.writes[1]);
    assert p.writes == [p.writes[0], p.writes[1]];
  }

  /** Where the register script stands, with its one call confirmed. */
  ghost predicate Registering(s: Host, before: seq<Effect>, k: nat, i: Instance, dir: Identity, stage: CStage) {
    && s.pc == At(Register, k)
    && s.pending == []
    && s.effects == before + [Effect(RegisterCall, Some(i), Done)]
    && Stands(s.disk, i, dir, stage) && i !in s.disk.removes
  }

  lemma NeverUsed(d: Disk, i: Instance)
    requires Inv(d) && i !in d.creates
    ensures i !in d.atts && i !in d.removes && i !in d.units
  {
    assert InvAt(d, i);
  }

  lemma RegisterToCall(s: Host, a: Aim) returns (n: nat)
    requires s.pc == At(Register, 0) && s.pending == [] && Inv(s.disk) && Free(s.disk, a.dir) && a.i !in s.disk.creates
    ensures var t := Course(s, a, n);
      && Registering(t, s.effects, 2, a.i, a.dir, PreRegistration)
      && a.i !in t.disk.atts
      && a.i !in t.disk.units
  {
    NeverUsed(s.disk, a.i);
    CycleAdmitted(s.disk, a.dir, a.i);
    hide PlanOf, ApplyAll, Inv, Free;
    assert Steps(Register)[0] == Ask(AskStage(PreRegistration));
    n := AskRuns(s, a);
    n := Extend(s, a, n, Course(s, a, n), 1);
  }

  lemma RegisterToAttested(s: Host, a: Aim) returns (n: nat)
    requires s.pc == At(Register, 0) && s.pending == [] && Inv(s.disk) && Free(s.disk, a.dir) && a.i !in s.disk.creates && a.id > 0
    ensures var t := Course(s, a, n);
      && Registering(t, s.effects, 5, a.i, a.dir, PermissionIncomplete)
      && AttestedAs(t.disk, a.i, a.dir, a.id)
      && a.i !in t.disk.units
  {
    hide PlanOf, ApplyAll, Inv, Free, Course, Onward;
    n := RegisterToCall(s, a);
    var t := Course(s, a, n);
    var m := StageRuns(t, a, 2, PreRegistration, PermissionIncomplete);
    n := Extend(s, a, n, t, m);
    t := Course(s, a, n);
    LocalRuns(t, a);
    n := Extend(s, a, n, t, 1);
    t := Course(s, a, n);
    AttestationAdmitted(t.disk, a.i, a.dir, a.id);
    assert Steps(Register)[4] == Ask(AskAttestation);
    m := AskRuns(t, a);
    n := Extend(s, a, n, t, m);
  }

  lemma RegisterToUnit(s: Host, a: Aim) returns (n: nat)
    requires s.pc == At(Register, 5) && s.pending == []
    requires Stands(s.disk, a.i, a.dir, PermissionIncomplete) && AttestedAs(s.disk, a.i, a.dir, a.id) && a.i !in s.disk.units && a.id > 0
    requires a.i !in s.disk.removes
    ensures var t := Course(s, a, n);
      && t.pc == At(Register, 8) && t.pending == [] && t.effects == s.effects
      && Stands(t.disk, a.i, a.dir, UnitIncomplete) && AttestedAs(t.disk, a.i, a.dir, a.id) && a.i !in t.disk.removes
  {
    hide PlanOf, ApplyAll, Course, Onward;
    n := StageRuns(s, a, 5, PermissionIncomplete, UnitIncomplete);
    var t := Course(s, a, n);
    LocalRuns(t, a);
    n := Extend(s, a, n, t, 1);
    t := Course(s, a, n);
    UnitAttestationAdmitted(t.disk, a.i, a.dir);
    var m := AskRuns(t, a);
    n := Extend(s, a, n, t, m);
  }

  lemma RegisterToComplete(s: Host, a: Aim) returns (n: nat)
    requires s.pc == At(Register, 8) && s.pending == []
    requires Stands(s.disk, a.i, a.dir, UnitIncomplete) && AttestedAs(s.disk, a.i, a.dir, a.id) && a.i !in s.disk.removes
    ensures var t := Course(s, a, n);
      && Ended(t) && t.effects == s.effects
      && Stands(t.disk, a.i, a.dir, CreateComplete) && AttestedAs(t.disk, a.i, a.dir, a.id) && a.i !in t.disk.removes
  {
    hide PlanOf, ApplyAll, Course, Onward;
    n := StageRuns(s, a, 8, UnitIncomplete, StartIncomplete);
    var t := Course(s, a, n);
    LocalRuns(t, a);
    n := Extend(s, a, n, t, 1);
    t := Course(s, a, n);
    var m := StageRuns(t, a, 10, StartIncomplete, HealthUnknown);
    n := Extend(s, a, n, t, m);
    t := Course(s, a, n);
    LocalRuns(t, a);
    n := Extend(s, a, n, t, 1);
    t := Course(s, a, n);
    m := StageRuns(t, a, 12, HealthUnknown, CreateComplete);
    n := Extend(s, a, n, t, m);
  }

  /** Register: from a free slot, with an instance id never used, every undisturbed
      history of the script leads to CREATE_COMPLETE, with one confirmed registration. */
  lemma RegisterCompletes(s: Host, a: Aim) returns (n: nat, t: Host)
    requires s.pc == At(Register, 0) && s.pending == [] && Inv(s.disk) && Free(s.disk, a.dir) && a.i !in s.disk.creates && a.id > 0
    ensures LeadsTo(s, a, n, t)
    ensures t.effects == s.effects + [Effect(RegisterCall, Some(a.i), Done)]
    ensures Stands(t.disk, a.i, a.dir, CreateComplete) && AttestedAs(t.disk, a.i, a.dir, a.id) && a.i !in t.disk.removes
  {
    hide PlanOf, ApplyAll, Inv, Free, Course, Onward, LeadsTo;
    n := RegisterToAttested(s, a);
    t := Course(s, a, n);
    var m := RegisterToUnit(t, a);
    n := Extend(s, a, n, t, m);
    t := Course(s, a, n);
    m := RegisterToComplete(t, a);
    n := Extend(s, a, n, t, m);
    t := Course(s, a, n);
    CourseCompletes(s, a, n);
  }

  /* ------------------------------------ Removal ---------------------------------- */

  predicate Pinned(d: Disk, i: Instance, dir: Identity, id: int, stage: RStage, origin: Origin) {
    i in d.removes && d.removes[i] == Held(RemoveRec(i, dir, Some(id), stage, origin), true)
  }

  lemma BeginAdmitted(d: Disk, i: Instance, dir: Identity, id: int)
    requires Stands(d, i, dir, CreateComplete) && AttestedAs(d, i, dir, id) && i !in d.removes && id > 0
    ensures var p := PlanOf(d, RemoveStage(Begin, Sight(Aim(i, dir, id)), Sight(Aim(i, dir, id)), i));
      p.ok && ApplyAll(d, p.writes) == d.(removes := d.removes[i := Held(RemoveRec(i, dir, Some(id), RemoteOutcomeUnknown, Ordinary), true)])
  {
    var p := PlanOf(d, RemoveStage(Begin, Sight(Aim(i, dir, id)), Sight(Aim(i, dir, id)), i));
    ApplyTwo(d, p.writes[0], p.writes[1]);
    assert p.writes == [p.writes[0], p.writes[1]];
  }

  lemma ReconcileBeginAdmitted(d: Disk, i: Instance, dir: Identity, id: int)
    requires Stands(d, i, dir, UnitIncomplete) && AttestedAs(d, i, dir, id) && i !in d.removes && i !in d.units && id > 0
    ensures var p := PlanOf(d, Reconcile(Begin, Sight(Aim(i, dir, id))));
      p.ok && ApplyAll(d, p.writes) == d.(removes := d.removes[i := Held(RemoveRec(i, dir, Some(id), RemoteOutcomeUnknown, Reconciliation), true)])
  {
    var p := PlanOf(d, Reconcile(Begin, Sight(Aim(i, dir, id))));
    ApplyTwo(d, p.writes[0], p.writes[1]);
    assert p.writes == [p.writes[0], p.writes[1]];
  }

  lemma AbortAdmitted(d: Disk, i: Instance, dir: Identity, id: int)
    requires Stands(d, i, dir, UnitIncomplete) && Pinned(d, i, dir, id, CleanupPending, Reconciliation)
    ensures var p := PlanOf(d, Reconcile(Complete, GONE));
      var d' := ApplyAll(d, p.writes);
      && p.ok
      && Stands(d', i, dir, AbortedReconciled)
      && Pinned(d', i, dir, id, RemoveComplete, Reconciliation)
  {
    var w := ReplaceRemove(RemoveRec(i, dir, Some(id), RemoveComplete, Reconciliation));
    var p := PlanOf(d, Reconcile(Complete, GONE));
    ApplyOne(d, w);
    assert RemoveAdvancePlan(d, Complete, GONE).writes == [w];
    assert p.writes == [w] + [ReplaceCreate(CreateRec(i, dir, AbortedReconciled))];
    ApplyTwo(d, p.writes[0], p.writes[1]);
    assert p.writes == [p.writes[0], p.writes[1]];
  }

  lemma ConfirmAdmitted(d: Disk, a: Aim, origin: Origin)
    requires d.active == Some(Held(a.i, true)) && Pinned(d, a.i, a.dir, a.id, RemoteOutcomeUnknown, origin)
    ensures var d' := d.(removes := d.removes[a.i := Held(RemoveRec(a.i, a.dir, Some(a.id), CleanupPending, origin), true)]);
      && (var p := PlanOf(d, Wanted(AskRemove(ConfirmRemoteRemoved), a)); p.ok && ApplyAll(d, p.writes) == d')
      && (var p := PlanOf(d, Wanted(AskReconcile(ConfirmRemoteRemoved), a)); p.ok && ApplyAll(d, p.writes) == d')
  {
    var w := ReplaceRemove(RemoveRec(a.i, a.dir, Some(a.id), CleanupPending, origin));
    ApplyOne(d, w);
    assert RemoveAdvancePlan(d, ConfirmRemoteRemoved, Sight(a)).writes == [w];
  }

  lemma CompleteAdmitted(d: Disk, a: Aim, origin: Origin)
    requires d.active == Some(Held(a.i, true)) && Pinned(d, a.i, a.dir, a.id, CleanupPending, origin)
    ensures var d' := d.(removes := d.removes[a.i := Held(RemoveRec(a.i, a.dir, Some(a.id), RemoveComplete, origin), true)]);
      var p := PlanOf(d, Wanted(AskRemove(Complete), a));
      p.ok && ApplyAll(d, p.writes) == d'
  {
    var w := ReplaceRemove(RemoveRec(a.i, a.dir, Some(a.id), RemoveComplete, origin));
    ApplyOne(d, w);
    assert RemoveAdvancePlan(d, Complete, GONE).writes == [w];
  }

  /** Where a removing script stands once its call is confirmed. */
  ghost predicate Unregistering(s: Host, before: seq<Effect>, sc: Script, k: nat, i: Instance, dir: Identity, id: int, c: CStage) {
    && s.pc == At(sc, k) && s.pending == []
    && s.effects == before + [Effect(UnregisterCall, Some(i), Done)]
    && Stands(s.disk, i, dir, c)
    && Pinned(s.disk, i, dir, id, RemoteOutcomeUnknown, if sc.Remove? then Ordinary else Reconciliation)
  }

  lemma RemoveToCall(s: Host, a: Aim) returns (n: nat)
    requires s.pc == At(Remove, 0) && s.pending == []
    requires Stands(s.disk, a.i, a.dir, CreateComplete) && AttestedAs(s.disk, a.i, a.dir, a.id) && a.i !in s.disk.removes && a.id > 0
    ensures Unregistering(Course(s, a, n), s.effects, Remove, 3, a.i, a.dir, a.id, CreateComplete)
  {
    BeginAdmitted(s.disk, a.i, a.dir, a.id);
    hide PlanOf, ApplyAll;
    assert Steps(Remove)[0] == Ask(AskRemove(Begin));
    n := AskRuns(s, a);
    var t := Course(s, a, n);
    LocalRuns(t, a);
    n := Extend(s, a, n, t, 1);
    n := Extend(s, a, n, Course(s, a, n), 1);
  }

  lemma ReconcileToCall(s: Host, a: Aim) returns (n: nat)
    requires s.pc == At(ReconcileCreate, 0) && s.pending == []
    requires Stands(s.disk, a.i, a.dir, UnitIncomplete) && AttestedAs(s.disk, a.i, a.dir, a.id)
    requires a.i !in s.disk.removes && a.i !in s.disk.units && a.id > 0
    ensures Unregistering(Course(s, a, n), s.effects, ReconcileCreate, 2, a.i, a.dir, a.id, UnitIncomplete)
  {
    ReconcileBeginAdmitted(s.disk, a.i, a.dir, a.id);
    hide PlanOf, ApplyAll;
    assert Steps(ReconcileCreate)[0] == Ask(AskReconcile(Begin));
    n := AskRuns(s, a);
    n := Extend(s, a, n, Course(s, a, n), 1);
  }

  /** Remove: from CREATE_COMPLETE every undisturbed history of the script unregisters
      once, confirmed, and leads to a closed instance: the slot is free for any other
      directory. */
  lemma RemoveCompletes(s: Host, a: Aim) returns (n: nat, t: Host)
    requires s.pc == At(Remove, 0) && s.pending == []
    requires Stands(s.disk, a.i, a.dir, CreateComplete) && AttestedAs(s.disk, a.i, a.dir, a.id) && a.i !in s.disk.removes && a.id > 0
    ensures LeadsTo(s, a, n, t)
    ensures t.effects == s.effects + [Effect(UnregisterCall, Some(a.i), Done)]
    ensures Stands(t.disk, a.i, a.dir, CreateComplete) && Pinned(t.disk, a.i, a.dir, a.id, RemoveComplete, Ordinary)
    ensures forall other :: other != a.dir ==> Free(t.disk, other)
  {
    n := RemoveToCall(s, a);
    t := Course(s, a, n);
    hide PlanOf, ApplyAll, Course, Onward, LeadsTo;
    assert Steps(Remove)[3] == Ask(AskRemove(ConfirmRemoteRemoved)) && Steps(Remove)[5] == Ask(AskRemove(Complete));
    ConfirmAdmitted(t.disk, a, Ordinary);
    var m := AskRuns(t, a);
    n := Extend(s, a, n, t, m);
    t := Course(s, a, n);
    LocalRuns(t, a);
    n := Extend(s, a, n, t, 1);
    t := Course(s, a, n);
    CompleteAdmitted(t.disk, a, Ordinary);
    m := AskRuns(t, a);
    n := Extend(s, a, n, t, m);
    t := Course(s, a, n);
    CourseCompletes(s, a, n);
  }

  /** Reconciliation: every undisturbed history unregisters a registration that
      stopped before its Unit once, confirmed, and the slot is free again for any
      other directory. */
  lemma ReconcileCompletes(s: Host, a: Aim) returns (n: nat, t: Host)
    requires s.pc == At(ReconcileCreate, 0) && s.pending == []
    requires Stands(s.disk, a.i, a.dir, UnitIncomplete) && AttestedAs(s.disk, a.i, a.dir, a.id)
    requires a.i !in s.disk.removes && a.i !in s.disk.units && a.id > 0
    ensures LeadsTo(s, a, n, t)
    ensures t.effects == s.effects + [Effect(UnregisterCall, Some(a.i), Done)]
    ensures Stands(t.disk, a.i, a.dir, AbortedReconciled) && Pinned(t.disk, a.i, a.dir, a.id, RemoveComplete, Reconciliation)
    ensures forall other :: other != a.dir ==> Free(t.disk, other)
  {
    n := ReconcileToCall(s, a);
    t := Course(s, a, n);
    hide PlanOf, ApplyAll, Course, Onward, LeadsTo;
    assert Steps(ReconcileCreate)[2] == Ask(AskReconcile(ConfirmRemoteRemoved));
    assert Steps(ReconcileCreate)[4] == Ask(AskReconcile(Complete));
    ConfirmAdmitted(t.disk, a, Reconciliation);
    var m := AskRuns(t, a);
    n := Extend(s, a, n, t, m);
    t := Course(s, a, n);
    LocalRuns(t, a);
    n := Extend(s, a, n, t, 1);
    t := Course(s, a, n);
    AbortAdmitted(t.disk, a.i, a.dir, a.id);
    m := AskRuns(t, a);
    n := Extend(s, a, n, t, m);
    t := Course(s, a, n);
    CourseCompletes(s, a, n);
  }
}
