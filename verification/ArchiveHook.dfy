/**
 * Archive hooks of one job attempt: each claims a job directory, runs a bounded
 * worker that publishes the archive step by step, and ends in PASS or FAILED.
 * Hooks interleave freely, every command can fail, and the worker can be killed
 * between any two steps. Its last command may go on without it, and the whole
 * worker may go on when only its timeout is killed. A hook that is never
 * scheduled again was killed.
 */
module ArchiveHook {
  import opened Wrappers

  type Name = nat

  /** The bytes of a manifest. What jq writes names the hook that wrote it. */
  datatype Doc = Complete(hook: nat, counts: nat) | Garbage

  /** SHA-256, injective on the documents that occur. */
  datatype Sum = SumOf(doc: Doc)

  datatype Job = Job(
    owner: nat,               // the hook whose mkdir made the directory
    stage: bool,
    workspace: bool,
    temp: Option<Doc>,        // .manifest.tmp
    sumTemp: Option<Sum>,     // .manifest.sha256.tmp
    sum: Option<Sum>,         // manifest.sha256
    manifest: Option<Doc>,    // manifest.json, the PASS manifest
    failed: bool,             // manifest.failed.json
    flight: Option<Flight>)   // what is still under way after the hook saw the worker end

  datatype WorkerStep = Rsync | MoveStage | Count | WriteManifest | HashManifest | DropFailed | PublishSum | PublishManifest | Published

  /** The command that is left behind, and whether its shell is still there and will
      go on after it. */
  datatype Flight = Flight(at: WorkerStep, alive: bool)

  datatype Pc =
    | Starting(key: Name)
    | Colliding(dir: Name)              // JOB_DIR names a directory this hook did not make
    | Claimed(dir: Name)
    | Working(dir: Name, at: WorkerStep)
    | Ended(dir: Name)                  // the worker ended with a non-zero status
    | Failing(dir: Name)                // fail_archive
    | Keeping(dir: Name)                // fail_archive, about to set the stage aside
    | Passed(dir: Name)                 // exit 0
    | Refused                           // exit 1

  datatype Sys = Sys(jobs: map<Name, Job>, hooks: seq<Pc>)

  datatype Outcome =
    | Works(name: Name, counts: nat)    // the command succeeds; the parameters are what it chooses
    | Fails                             // the command fails
    | Unmade(name: Name)                // mkdir of this name fails although nothing has it
    | Orphans                           // the worker dies and its command goes on
    | Outlives                          // the timeout is killed alone and the worker goes on
    // in this directory, of what was left behind:
    | Lands(name: Name, counts: nat, remade: bool) // the command takes effect; rsync may make the stage again
    | Stops(name: Name)                 // the command fails or is killed, and its shell ends
    | Dies(name: Name)                  // the shell dies and the command goes on

  function After(w: WorkerStep): WorkerStep {
    match w
    case Rsync => MoveStage
    case MoveStage => Count
    case Count => WriteManifest
    case WriteManifest => HashManifest
    case HashManifest => DropFailed
    case DropFailed => PublishSum
    case PublishSum => PublishManifest
    case PublishManifest => Published
    case Published => Published
  }

  /** The effect of one worker command that succeeds. */
  function Effect(j: Job, w: WorkerStep, h: nat, counts: nat): Job {
    match w
    case Rsync => j
    case MoveStage => j.(stage := false, workspace := true)
    case Count => j
    case WriteManifest => j.(temp := Some(Complete(h, counts)))
    case HashManifest => if j.temp.Some? then j.(sumTemp := Some(SumOf(j.temp.value))) else j
    case DropFailed => j.(failed := false)
    case PublishSum => j.(sumTemp := None, sum := j.sumTemp)
    case PublishManifest => j.(temp := None, manifest := j.temp)
    case Published => j
  }

  /** What a worker command that fails or is killed midway can leave behind. */
  function Spoiled(j: Job, w: WorkerStep): Job {
    match w
    case WriteManifest => j.(temp := Some(Garbage))
    case HashManifest => j.(sumTemp := Some(SumOf(Garbage)))
    case _ => j
  }

  predicate IsLate(o: Outcome) {
    o.Lands? || o.Stops? || o.Dies?
  }

  /** What comes after a command left behind. */
  function Onward(f: Flight): Option<Flight> {
    if f.alive && After(f.at) != Published then Some(Flight(After(f.at), true)) else None
  }

  /** What is left behind makes a step. */
  function LeftBehind(j: Job, o: Outcome): Job {
    if j.flight.None? then j
    else
      var f := j.flight.value;
      match o
      case Lands(_, counts, remade) =>
        if f.at == MoveStage && !j.stage then j.(flight := None)
        else if f.at == Rsync then j.(stage := j.stage || remade, flight := Onward(f))
        else Effect(j, f.at, j.owner, counts).(flight := Onward(f))
      case Stops(_) => Spoiled(j, f.at).(flight := None)
      case Dies(_) => Spoiled(j, f.at).(flight := Some(Flight(f.at, false)))
      case _ => j
  }

  /** The hook sees the worker end while its command, or all of it, goes on. */
  function Detached(j: Job, w: WorkerStep, alive: bool): Job {
    if w == Published then j
    else if alive then j.(flight := Some(Flight(w, true)))
    else Spoiled(j, w).(flight := Some(Flight(w, false)))
  }

  /** What validate_authoritative_pass finds when its commands work. */
  predicate Valid(j: Job, h: nat) {
    && j.workspace
    && j.manifest.Some?
    && j.sum.Some?
    && j.sum == Some(SumOf(j.manifest.value))
    && j.manifest.value.Complete? && j.manifest.value.hook == h
  }

  const NEW_JOB := (h: nat) => Job(h, false, false, None, None, None, None, false, None)

  function Claim(s: Sys, h: nat, dir: Name): Sys
    requires h < |s.hooks|
  {
    if dir in s.jobs then s.(hooks := s.hooks[h := Colliding(dir)])
    else Sys(s.jobs[dir := NEW_JOB(h)], s.hooks[h := Claimed(dir)])
  }

  function Put(s: Sys, h: nat, dir: Name, j: Job, pc: Pc): Sys
    requires h < |s.hooks|
  {
    Sys(s.jobs[dir := j], s.hooks[h := pc])
  }

  /** One step of hook h, or of what its worker left behind. */
  function Step(s: Sys, h: nat, o: Outcome): Sys {
    if IsLate(o) then
      if o.name in s.jobs && s.jobs[o.name].owner == h
      then s.(jobs := s.jobs[o.name := LeftBehind(s.jobs[o.name], o)])
      else s
    else if h >= |s.hooks| then s
    else
      match s.hooks[h]
      case Starting(key) => if o.Works? then Claim(s, h, key) else s.(hooks := s.hooks[h := Colliding(key)])
      case Colliding(dir) =>
        // sleep and choose another name; a failing command runs the error trap
        if o.Works? then Claim(s, h, o.name)
        else if o.Unmade? then s.(hooks := s.hooks[h := Colliding(o.name)])
        else s.(hooks := s.hooks[h := Failing(dir)])
      case Claimed(dir) =>
        if dir !in s.jobs then s
        else if !o.Works? then s.(hooks := s.hooks[h := Failing(dir)])
        else Put(s, h, dir, s.jobs[dir].(stage := true), Working(dir, Rsync))
      case Working(dir, at) =>
        if dir !in s.jobs then s
        else if o.Orphans? || o.Outlives? then Put(s, h, dir, Detached(s.jobs[dir], at, o.Outlives?), Ended(dir))
        else if !o.Works? then Put(s, h, dir, Spoiled(s.jobs[dir], at), Ended(dir))
        else if at == Published then s.(hooks := s.hooks[h := Passed(dir)])
        else Put(s, h, dir, Effect(s.jobs[dir], at, h, o.counts), Working(dir, After(at)))
      case Ended(dir) =>
        // a validation command that itself fails counts as an invalid archive
        if o.Works? && dir in s.jobs && Valid(s.jobs[dir], h) then s.(hooks := s.hooks[h := Passed(dir)])
        else s.(hooks := s.hooks[h := Failing(dir)])
      case Failing(dir) =>
        if o.Works? && dir in s.jobs then Put(s, h, dir, s.jobs[dir].(failed := true), Keeping(dir))
        else s.(hooks := s.hooks[h := Keeping(dir)])
      case Keeping(dir) =>
        if o.Works? && dir in s.jobs && s.jobs[dir].owner == h then Put(s, h, dir, s.jobs[dir].(stage := false), Refused)
        else s.(hooks := s.hooks[h := Refused])
      case Passed(_) => s
      case Refused => s
  }

  type Run = seq<(nat, Outcome)>

  function Exec(s: Sys, run: Run): Sys
    decreases |run|
  {
    if run == [] then s else Exec(Step(s, run[0].0, run[0].1), run[1..])
  }

  predicate Fresh(s: Sys) {
    s.jobs == map[] && forall h :: 0 <= h < |s.hooks| ==> s.hooks[h].Starting?
  }

  /* --------------------------------- Invariant --------------------------------- */

  /** The directory a hook made, while the hook still works in it. */
  function Own(pc: Pc): Option<Name> {
    match pc
    case Claimed(dir) => Some(dir)
    case Working(dir, _) => Some(dir)
    case Ended(dir) => Some(dir)
    case Passed(dir) => Some(dir)
    case _ => None
  }

  function Rank(w: WorkerStep): nat {
    match w
    case Rsync => 0 case MoveStage => 1 case Count => 2 case WriteManifest => 3 case HashManifest => 4
    case DropFailed => 5 case PublishSum => 6 case PublishManifest => 7 case Published => 8
  }

  /** What stands in the directory when the worker has come to a step. */
  predicate Reached(j: Job, at: WorkerStep, h: nat) {
    && (Rank(at) > 1 <==> j.workspace)
    && (3 < Rank(at) <= 7 ==> j.temp.Some? && j.temp.value.Complete? && j.temp.value.hook == h)
    && (4 < Rank(at) <= 6 ==> j.sumTemp == Some(SumOf(j.temp.value)))
    && (at == PublishManifest ==> j.sum == Some(SumOf(j.temp.value)))
  }

  /** How far the worker of a hook has got in its directory. */
  predicate WorkOk(pc: Pc, j: Job, h: nat) {
    match pc
    case Claimed(_) => !j.workspace && j.manifest.None? && j.flight.None?
    case Working(_, at) =>
      && j.flight.None?
      && (Rank(at) <= 1 ==> j.stage)
      && Reached(j, at, h)
      && (j.manifest.Some? <==> at == Published)
    case Passed(_) => j.manifest.Some?
    case _ => true
  }

  predicate FlightOk(j: Job) {
    j.flight.Some? ==>
      && j.flight.value.at != Published
      && (j.flight.value.alive || j.flight.value.at == PublishManifest ==> Reached(j, j.flight.value.at, j.owner))
  }

  ghost predicate JobOk(j: Job) {
    && (j.manifest.Some? ==> Valid(j, j.owner) && j.flight.None?)
    && FlightOk(j)
  }

  ghost predicate HookOk(s: Sys, h: nat) {
    h < |s.hooks| ==>
      var own := Own(s.hooks[h]);
      own.Some? ==>
        && own.value in s.jobs
        && s.jobs[own.value].owner == h
        && WorkOk(s.hooks[h], s.jobs[own.value], h)
  }

  ghost predicate SysOk(s: Sys) {
    && (forall n :: n in s.jobs ==> JobOk(s.jobs[n]))
    && (forall h {:trigger HookOk(s, h)} :: HookOk(s, h))
  }

  /* ----------------------------- PASS against FAILED ---------------------------- */

  predicate Both(s: Sys, n: Name) {
    && n in s.jobs
    && s.jobs[n].manifest.Some?
    && s.jobs[n].failed
  }

  /** What is left behind can still publish. */
  predicate Due(j: Job) {
    j.flight.Some? &&
      (if j.flight.value.alive then j.flight.value.at == MoveStage ==> j.stage
       else j.flight.value.at == PublishManifest)
  }

  /** The PASS manifest is published, or can be without any hook doing more. */
  predicate PassDue(j: Job) {
    j.manifest.Some? || Due(j)
  }

  /** What the script does not expect: a command fails in the claim loop, whose
      JOB_DIR is then another hook's directory, or in the validation of an archive
      that is in fact valid; or the archive is validated while what was left of its
      worker, the last rename or all of it, can still publish. */
  predicate Fault(s: Sys, h: nat, o: Outcome) {
    h < |s.hooks| && !IsLate(o) &&
    match s.hooks[h]
    case Colliding(_) => !o.Works? && !o.Unmade?
    case Ended(dir) => dir in s.jobs && (Due(s.jobs[dir]) || (!o.Works? && Valid(s.jobs[dir], h)))
    case _ => false
  }

  predicate Faultless(s: Sys, run: Run)
    decreases |run|
  {
    run == [] || (!Fault(s, run[0].0, run[0].1) && Faultless(Step(s, run[0].0, run[0].1), run[1..]))
  }

  predicate WorksIn(pc: Pc, n: Name) {
    pc == Claimed(n) || (pc.Working? && pc.dir == n)
  }

  /** Somebody can still publish a PASS manifest in the directory, or has. */
  predicate MayPublish(s: Sys, n: Name) {
    if n in s.jobs then
      PassDue(s.jobs[n]) || (s.jobs[n].owner < |s.hooks| && WorksIn(s.hooks[s.jobs[n].owner], n))
    else
      exists g :: 0 <= g < |s.hooks| && (s.hooks[g].Starting? || s.hooks[g].Colliding?)
  }

  const OK := Works(0, 0)

  /** No command fails and nothing is killed. */
  predicate AllWorks(run: Run) {
    forall x :: x in run ==> x.1.Works? || x.1.Lands?
  }

  /** So many steps of hook 0 in which everything works. */
  function Oks(n: nat): Run {
    seq(n, _ => (0, OK))
  }

  /* -------------------------------- Main results ------------------------------- */

  /** At every point of every run, a published PASS manifest was written whole by
      the hook that made the directory, its workspace is in place and the checksum
      file beside it matches; and a hook that exits 0 has published it. */
  lemma PublishedIsComplete(s: Sys, run: Run, n: Name)
    requires Fresh(s) && n in Exec(s, run).jobs && Exec(s, run).jobs[n].manifest.Some?
    ensures var j := Exec(s, run).jobs[n];
      && j.workspace && j.manifest.value.Complete? && j.manifest.value.hook == j.owner
      && j.sum == Some(SumOf(j.manifest.value))
      && Valid(j, j.owner)
  {
    FreshOk(s);
    RunKeeps(s, run);
  }

  lemma ExitZeroIsPass(s: Sys, run: Run, h: nat)
    requires Fresh(s) && h < |Exec(s, run).hooks| && Exec(s, run).hooks[h].Passed?
    ensures var e := Exec(s, run);
      && e.hooks[h].dir in e.jobs
      && var j := e.jobs[e.hooks[h].dir];
      && j.owner == h && j.manifest.Some? && j.sum == Some(SumOf(j.manifest.value))
      && Valid(j, h)
  {
    FreshOk(s);
    RunKeeps(s, run);
    assert HookOk(Exec(s, run), h);
  }

  /** Two hooks never work in one job directory. */
  lemma ClaimsDisjoint(s: Sys, run: Run, g: nat, h: nat)
    requires Fresh(s) && g < |Exec(s, run).hooks| && h < |Exec(s, run).hooks|
    requires Own(Exec(s, run).hooks[g]).Some? && Own(Exec(s, run).hooks[g]) == Own(Exec(s, run).hooks[h])
    ensures g == h
  {
    FreshOk(s);
    RunKeeps(s, run);
    assert HookOk(Exec(s, run), g) && HookOk(Exec(s, run), h);
  }

  /** Without a fault a PASS and a FAILED manifest never stand side by side,
      wherever the workers are killed, whatever they leave under way and whatever
      else fails. */
  lemma PassExcludesFailed(s: Sys, run: Run, n: Name)
    requires Fresh(s) && Faultless(s, run)
    ensures !Both(Exec(s, run), n)
  {
    FreshOk(s);
    forall h ensures Apart(s, h) {}
    FaultlessRunKeepsApart(s, run);
  }

  /** A fault leads to both manifests exactly when somebody can still publish in the
      directory or has: the failing hook may write FAILED after that. */
  lemma FaultContradicts(s: Sys, h: nat, o: Outcome)
    requires SysOk(s) && Fault(s, h, o)
    ensures var s1, n := Step(s, h, o), s.hooks[h].dir;
      MayPublish(s1, n) <==> exists run :: Both(Exec(s1, run), n)
  {
    var s1, n := Step(s, h, o), s.hooks[h].dir;
    StepKeeps(s, h, o);
    assert s1.hooks[h] == Failing(n);
    hide Step, SysOk, MayPublish, Both, Exec;
    if MayPublish(s1, n) {
      var run := ContradictingRun(s1, h, n);
      assert Both(Exec(s1, run), n);
    } else {
      forall run ensures !Both(Exec(s1, run), n) { NeverPublished(s1, run, n); }
    }
  }

  /** The worker is killed after its last publication, and then a validation
      command fails: PASS and FAILED stand side by side. */
  lemma FailedValidationContradicts() returns (rest: Run)
    ensures Both(Exec(Sys(map[], [Starting(0)]), Oks(10) + [(0, Fails)] + ([(0, Fails)] + rest)), 0) && AllWorks(rest)
  {
    EndsAt(8, Fails);
    rest := FaultAfter(Sys(map[], [Starting(0)]), Oks(10) + [(0, Fails)], 0, Fails);
  }

  /** The worker is killed while its last rename is under way, the archive is found
      unpublished, the rename takes effect and FAILED is written: no command fails. */
  lemma LatePublicationContradicts() returns (rest: Run)
    ensures Both(Exec(Sys(map[], [Starting(0)]), Oks(9) + [(0, Orphans)] + ([(0, OK)] + rest)), 0) && AllWorks(rest)
  {
    EndsAt(7, Orphans);
    rest := FaultAfter(Sys(map[], [Starting(0)]), Oks(9) + [(0, Orphans)], 0, OK);
  }

  /** Only the timeout is killed, at any step of the worker before it has published:
      the archive is found unpublished, the worker publishes, and FAILED is written.
      No command fails and no worker dies. */
  lemma SurvivingWorkerContradicts(k: nat) returns (rest: Run)
    requires k < 8
    ensures Both(Exec(Sys(map[], [Starting(0)]), Oks(k + 2) + [(0, Outlives)] + ([(0, OK)] + rest)), 0) && AllWorks(rest)
  {
    EndsAt(k, Outlives);
    rest := FaultAfter(Sys(map[], [Starting(0)]), Oks(k + 2) + [(0, Outlives)], 0, OK);
  }

  /** A second hook of the same job collides with one at work, and a command of its
      claim loop fails: it writes FAILED into the directory of the first. */
  lemma FailedClaimLoopContradicts() returns (rest: Run)
    ensures Both(Exec(Sys(map[], [Starting(0), Starting(0)]), Oks(2) + [(1, OK)] + ([(1, Fails)] + rest)), 0) && AllWorks(rest)
  {
    var hooks := [Starting(0), Starting(0)];
    var s0 := Sys(map[], hooks);
    WorksUpTo(hooks, 0);
    var s := Exec(s0, Oks(2));
    assert [(1, OK)] + [] == [(1, OK)];
    ExecConcat(s0, Oks(2), [(1, OK)]);
    ExecCons(s, 1, OK, []);
    StepKeeps(s, 1, OK);
    rest := FaultAfter(s0, Oks(2) + [(1, OK)], 1, Fails);
  }

  /* ----------------------------- What a step keeps ------------------------------ */

  /** A hook leaves every directory it did not make as it is, but for a FAILED
      manifest. */
  lemma StepElsewhere(s: Sys, h: nat, o: Outcome, n: Name)
    requires SysOk(s) && n in s.jobs && s.jobs[n].owner != h
    ensures var s' := Step(s, h, o); n in s'.jobs && s'.jobs[n].(failed := s.jobs[n].failed) == s.jobs[n]
  {
    hide Effect, Spoiled, LeftBehind, Detached, Valid, WorkOk, JobOk;
    assert HookOk(s, h);
  }

  /** The hook that moves. */
  lemma StepHere(s: Sys, h: nat, o: Outcome)
    requires SysOk(s)
    ensures var s' := Step(s, h, o);
      && HookOk(s', h)
      && forall n :: n in s'.jobs && (n !in s.jobs || s.jobs[n].owner == h) ==> JobOk(s'.jobs[n])
  {
    assert HookOk(s, h);
    if IsLate(o) {
      LateHere(s, h, o);
    } else if h < |s.hooks| && s.hooks[h].Working? {
      hide Effect, Valid, Spoiled, Detached, LeftBehind, WorkOk, JobOk;
      var dir, at := s.hooks[h].dir, s.hooks[h].at;
      assert JobOk(s.jobs[dir]);
      WorkerStepOk(dir, s.jobs[dir], at, h, if o.Works? then o.counts else 0);
    } else {
      hide Effect, Spoiled, LeftBehind, Detached;
    }
  }

  lemma LateHere(s: Sys, h: nat, o: Outcome)
    requires SysOk(s) && IsLate(o)
    ensures var s' := Step(s, h, o);
      && HookOk(s', h)
      && forall n :: n in s'.jobs && (n !in s.jobs || s.jobs[n].owner == h) ==> JobOk(s'.jobs[n])
  {
    hide Effect, Valid, LeftBehind, WorkOk, JobOk;
    assert HookOk(s, h);
    if o.name in s.jobs && s.jobs[o.name].owner == h {
      assert JobOk(s.jobs[o.name]);
      LeftBehindOk(s.jobs[o.name], o);
    }
  }

  /** What is left behind keeps the directory right, and only ends in a PASS manifest
      when that was due. */
  lemma LeftBehindOk(j: Job, o: Outcome)
    requires JobOk(j) && IsLate(o)
    ensures JobOk(LeftBehind(j, o)) && LeftBehind(j, o).owner == j.owner
    ensures PassDue(LeftBehind(j, o)) ==> PassDue(j)
    ensures LeftBehind(j, o).failed ==> j.failed
    ensures j.flight.None? ==> LeftBehind(j, o) == j
    ensures forall pc, h :: WorkOk(pc, j, h) ==> WorkOk(pc, LeftBehind(j, o), h)
  {
  }

  /** What each command of the worker, done, spoiled or left behind, keeps. */
  lemma WorkerStepOk(dir: Name, j: Job, at: WorkerStep, h: nat, counts: nat)
    requires j.owner == h && JobOk(j) && WorkOk(Working(dir, at), j, h)
    ensures at == Published ==> WorkOk(Passed(dir), j, h)
    ensures var j' := Effect(j, at, h, counts);
      at != Published ==> j'.owner == h && JobOk(j') && WorkOk(Working(dir, After(at)), j', h)
    ensures var j' := Spoiled(j, at); j'.owner == h && JobOk(j') && WorkOk(Ended(dir), j', h)
    ensures forall alive :: var j' := Detached(j, at, alive); j'.owner == h && JobOk(j') && WorkOk(Ended(dir), j', h)
  {
  }

  lemma HooksStay(s: Sys, h: nat, o: Outcome)
    ensures var s' := Step(s, h, o);
      |s'.hooks| == |s.hooks| && forall g :: 0 <= g < |s.hooks| && g != h ==> s'.hooks[g] == s.hooks[g]
  {
    hide Effect, Spoiled, LeftBehind, Detached, Valid;
  }

  /** A FAILED manifest takes nothing from a directory. */
  lemma FailedMakesNoDifference(pc: Pc, j: Job, j': Job, h: nat)
    requires j'.(failed := j.failed) == j
    ensures JobOk(j) ==> JobOk(j')
    ensures WorkOk(pc, j, h) ==> WorkOk(pc, j', h)
  {
  }

  lemma StepKeeps(s: Sys, h: nat, o: Outcome)
    requires SysOk(s)
    ensures SysOk(Step(s, h, o))
  {
    hide Step, JobOk, WorkOk, Valid;
    var s' := Step(s, h, o);
    StepHere(s, h, o);
    HooksStay(s, h, o);
    forall n | n in s'.jobs ensures JobOk(s'.jobs[n]) {
      if n in s.jobs && s.jobs[n].owner != h {
        assert JobOk(s.jobs[n]);
        StepElsewhere(s, h, o, n);
        FailedMakesNoDifference(Refused, s.jobs[n], s'.jobs[n], h);
      }
    }
    forall g: nat ensures HookOk(s', g) {
      assert HookOk(s, g);
      if g != h && g < |s.hooks| && Own(s.hooks[g]).Some? {
        var n := Own(s.hooks[g]).value;
        StepElsewhere(s, h, o, n);
        FailedMakesNoDifference(s.hooks[g], s.jobs[n], s'.jobs[n], g);
      }
    }
  }

  lemma {:induction false} RunKeeps(s: Sys, run: Run)
    requires SysOk(s)
    ensures SysOk(Exec(s, run))
    decreases |run|
  {
    if run != [] {
      StepKeeps(s, run[0].0, run[0].1);
      RunKeeps(Step(s, run[0].0, run[0].1), run[1..]);
    }
  }

  lemma FreshOk(s: Sys)
    requires Fresh(s)
    ensures SysOk(s)
  {
    forall h ensures HookOk(s, h) {}
  }

  /* ---------------------------- Runs without a fault ----------------------------- */

  /** A FAILED manifest beside a PASS that is published or due. */
  predicate Clash(j: Job) {
    PassDue(j) && j.failed
  }

  /** Without a fault only the owner of a directory fails in it, and never after
      its PASS manifest is due. */
  ghost predicate Apart(s: Sys, h: nat) {
    && (h < |s.hooks| && s.hooks[h].Failing? ==>
          s.hooks[h].dir in s.jobs && s.jobs[s.hooks[h].dir].owner == h && !PassDue(s.jobs[s.hooks[h].dir]))
    && (h < |s.hooks| && Own(s.hooks[h]).Some? && Own(s.hooks[h]).value in s.jobs ==>
          !s.jobs[Own(s.hooks[h]).value].failed)
  }

  ghost predicate AllApart(s: Sys) {
    && (forall h {:trigger Apart(s, h)} :: Apart(s, h))
    && (forall n :: n in s.jobs ==> !Clash(s.jobs[n]))
  }

  lemma ApartAfter(s: Sys, h: nat, o: Outcome, g: nat)
    requires SysOk(s) && AllApart(s) && !Fault(s, h, o)
    ensures Apart(Step(s, h, o), g)
  {
    hide Effect, Spoiled, LeftBehind, Detached;
    assert HookOk(s, h) && Apart(s, h) && Apart(s, g) && HookOk(s, g);
    if IsLate(o) {
      if o.name in s.jobs { assert JobOk(s.jobs[o.name]); LeftBehindOk(s.jobs[o.name], o); }
    } else if h < |s.hooks| && s.hooks[h].Working? {
      var dir := s.hooks[h].dir;
      FailedOnlyDropped(s.jobs[dir], s.hooks[h].at, h, if o.Works? then o.counts else 0, o.Outlives?);
    }
  }

  lemma FailedOnlyDropped(j: Job, at: WorkerStep, h: nat, counts: nat, alive: bool)
    ensures Effect(j, at, h, counts).failed ==> j.failed
    ensures Effect(j, at, h, counts).owner == j.owner
    ensures Spoiled(j, at).failed == j.failed && Spoiled(j, at).owner == j.owner
    ensures Spoiled(j, at).manifest == j.manifest && Spoiled(j, at).flight == j.flight
    ensures Detached(j, at, alive).failed == j.failed && Detached(j, at, alive).owner == j.owner
  {
  }

  lemma NotBothAfter(s: Sys, h: nat, o: Outcome, n: Name)
    requires SysOk(s) && AllApart(s) && !Fault(s, h, o) && n in Step(s, h, o).jobs
    ensures !Clash(Step(s, h, o).jobs[n])
  {
    hide Effect, Spoiled, LeftBehind, Detached;
    assert HookOk(s, h) && Apart(s, h);
    if n in s.jobs { assert JobOk(s.jobs[n]) && !Clash(s.jobs[n]); }
    if IsLate(o) {
      if o.name in s.jobs { LeftBehindOk(s.jobs[o.name], o); }
    } else if h < |s.hooks| && s.hooks[h].Working? {
      var dir := s.hooks[h].dir;
      FailedOnlyDropped(s.jobs[dir], s.hooks[h].at, h, if o.Works? then o.counts else 0, o.Outlives?);
    }
  }

  lemma StepKeepsApart(s: Sys, h: nat, o: Outcome)
    requires SysOk(s) && AllApart(s) && !Fault(s, h, o)
    ensures AllApart(Step(s, h, o))
  {
    hide Step, Apart, SysOk, Clash;
    forall g: nat ensures Apart(Step(s, h, o), g) { ApartAfter(s, h, o, g); }
    forall n | n in Step(s, h, o).jobs ensures !Clash(Step(s, h, o).jobs[n]) { NotBothAfter(s, h, o, n); }
  }

  lemma {:induction false} FaultlessRunKeepsApart(s: Sys, run: Run)
    requires SysOk(s) && AllApart(s) && Faultless(s, run)
    ensures AllApart(Exec(s, run))
    decreases |run|
  {
    if run != [] {
      StepKeeps(s, run[0].0, run[0].1);
      StepKeepsApart(s, run[0].0, run[0].1);
      FaultlessRunKeepsApart(Step(s, run[0].0, run[0].1), run[1..]);
    }
  }

  /* ------------------------------ When both can stand --------------------------- */

  lemma StaysUnpublished(s: Sys, h: nat, o: Outcome, n: Name)
    requires SysOk(s) && !MayPublish(s, n)
    ensures !MayPublish(Step(s, h, o), n)
  {
    if IsLate(o) {
      hide Effect, Spoiled, LeftBehind, Detached, Valid, JobOk, WorkOk, PassDue;
      if o.name in s.jobs {
        assert JobOk(s.jobs[o.name]);
        LeftBehindOk(s.jobs[o.name], o);
      }
    } else {
      hide Effect, Spoiled, LeftBehind, Detached, Valid, JobOk, WorkOk;
      assert HookOk(s, h);
    }
  }

  lemma {:induction false} NeverPublished(s: Sys, run: Run, n: Name)
    requires SysOk(s) && !MayPublish(s, n)
    ensures !Both(Exec(s, run), n)
    decreases |run|
  {
    if run != [] {
      StepKeeps(s, run[0].0, run[0].1);
      StaysUnpublished(s, run[0].0, run[0].1, n);
      NeverPublished(Step(s, run[0].0, run[0].1), run[1..], n);
    }
  }

  lemma ExecCons(s: Sys, h: nat, o: Outcome, run: Run)
    ensures Exec(s, [(h, o)] + run) == Exec(Step(s, h, o), run)
  {
    assert ([(h, o)] + run)[1..] == run;
  }

  lemma {:induction false} ExecConcat(s: Sys, run: Run, rest: Run)
    ensures Exec(s, run + rest) == Exec(Exec(s, run), rest)
    decreases |run|
  {
    hide Step;
    if run == [] {
      assert run + rest == rest;
    } else {
      assert (run + rest)[1..] == run[1..] + rest;
      ExecConcat(Step(s, run[0].0, run[0].1), run[1..], rest);
    }
  }

  /** How many steps are left until the PASS manifest is published. */
  function Distance(s: Sys, n: Name): nat {
    if n !in s.jobs then 11
    else
      var j := s.jobs[n];
      if j.manifest.Some? then 0
      else if j.flight.Some? then 9 - Rank(j.flight.value.at)
      else if j.owner < |s.hooks| && s.hooks[j.owner].Working? then 9 - Rank(s.hooks[j.owner].at)
      else 10
  }

  /** Somebody publishes, and then hook h writes FAILED. */
  lemma {:induction false} ContradictingRun(s: Sys, h: nat, n: Name) returns (run: Run)
    requires SysOk(s) && MayPublish(s, n) && h < |s.hooks| && s.hooks[h] == Failing(n)
    ensures Both(Exec(s, run), n) && (n in s.jobs ==> AllWorks(run))
    decreases Distance(s, n)
  {
    var g, o := h, OK;
    var s1;
    if n in s.jobs && s.jobs[n].manifest.Some? {
      s1, run := Step(s, h, OK), [];
      assert Exec(s1, run) == s1;
    } else {
      g, s1 := PublishingStep(s, h, n);
      o := if n in s.jobs && s.jobs[n].flight.Some? then Lands(n, 0, true) else Works(n, 0);
      run := ContradictingRun(s1, h, n);
      if n !in s.jobs {
        ExecCons(Step(s, g, Unmade(n)), g, o, run);
        ExecCons(s, g, Unmade(n), [(g, o)] + run);
        run := [(g, Unmade(n))] + ([(g, o)] + run);
        return;
      }
    }
    ExecCons(s, g, o, run);
    run := [(g, o)] + run;
  }

  lemma FlightApproaches(j: Job, n: Name)
    requires JobOk(j) && Due(j)
    ensures var j' := LeftBehind(j, Lands(n, 0, true));
      j'.owner == j.owner && (j'.manifest.Some? || (Due(j') && Rank(j'.flight.value.at) > Rank(j.flight.value.at)))
  {
  }

  lemma WorkerApproaches(pc: Pc, j: Job, h: nat)
    requires WorkOk(pc, j, h) && j.manifest.None?
    ensures pc.Claimed? ==> j.flight.None?
    ensures pc.Working? ==>
              && j.flight.None? && pc.at != Published
              && var j' := Effect(j, pc.at, h, 0); j'.owner == j.owner && j'.flight.None? && (j'.manifest.Some? || After(pc.at) != Published)
  {
  }

  /** Whoever can publish comes closer to it. */
  lemma PublishingStep(s: Sys, h: nat, n: Name) returns (g: nat, s1: Sys)
    requires SysOk(s) && MayPublish(s, n) && h < |s.hooks| && s.hooks[h] == Failing(n)
    requires n in s.jobs ==> s.jobs[n].manifest.None?
    ensures s1 == if n !in s.jobs then Step(Step(s, g, Unmade(n)), g, Works(n, 0))
                  else Step(s, g, if s.jobs[n].flight.Some? then Lands(n, 0, true) else Works(n, 0))
    ensures SysOk(s1) && MayPublish(s1, n) && h < |s1.hooks| && s1.hooks[h] == Failing(n)
    ensures n in s1.jobs && Distance(s1, n) < Distance(s, n)
  {
    hide Effect, LeftBehind, Spoiled, Detached, WorkOk, JobOk, Valid;
    if n !in s.jobs {
      g :| 0 <= g < |s.hooks| && (s.hooks[g].Starting? || s.hooks[g].Colliding?);
      StepKeeps(s, g, Unmade(n));
      StepKeeps(Step(s, g, Unmade(n)), g, Works(n, 0));
      s1 := Step(Step(s, g, Unmade(n)), g, Works(n, 0));
    } else {
      g := s.jobs[n].owner;
      assert JobOk(s.jobs[n]) && HookOk(s, g);
      var o := if s.jobs[n].flight.Some? then Lands(n, 0, true) else Works(n, 0);
      StepKeeps(s, g, o);
      s1 := Step(s, g, o);
      if g < |s.hooks| && WorksIn(s.hooks[g], n) {
        WorkerApproaches(s.hooks[g], s.jobs[n], g);
      } else {
        FlightApproaches(s.jobs[n], n);
      }
    }
  }

  /* -------------------------------- Concrete runs ------------------------------- */

  /** The step at which a worker stands after so many commands. */
  function StepAt(k: nat): WorkerStep {
    if k == 0 then Rsync else After(StepAt(k - 1))
  }

  /** Hook 0 works undisturbed, up to a step of its worker. */
  lemma {:induction false} WorksUpTo(hooks: seq<Pc>, k: nat)
    requires |hooks| > 0 && k <= 8 && forall h :: 0 <= h < |hooks| ==> hooks[h] == Starting(0)
    ensures var s := Exec(Sys(map[], hooks), Oks(k + 2));
      && SysOk(s) && s.hooks == hooks[0 := Working(0, StepAt(k))]
      && 0 in s.jobs && s.jobs[0].owner == 0
  {
    var s0 := Sys(map[], hooks);
    FreshOk(s0);
    RunKeeps(s0, Oks(k + 2));
    if k == 0 {
      var s1 := Step(s0, 0, OK);
      assert Oks(2) == [(0, OK)] + ([(0, OK)] + []);
      ExecCons(s0, 0, OK, [(0, OK)] + []);
      ExecCons(s1, 0, OK, []);
    } else {
      WorksUpTo(hooks, k - 1);
      var s := Exec(s0, Oks(k + 1));
      assert Oks(k + 2) == Oks(k + 1) + ([(0, OK)] + []);
      ExecConcat(s0, Oks(k + 1), [(0, OK)] + []);
      ExecCons(s, 0, OK, []);
      FailedOnlyDropped(s.jobs[0], StepAt(k - 1), 0, 0, false);
      StepBefore(k - 1);
    }
  }

  lemma {:induction false} StepBefore(k: nat)
    requires k < 8
    ensures Rank(StepAt(k)) == k
  {
    if k > 0 { StepBefore(k - 1); }
  }

  /** The worker has come to a step, and its hook sees it end in this way. */
  lemma EndsAt(k: nat, o: Outcome)
    requires k <= 8 && !o.Works? && !IsLate(o)
    ensures var s := Exec(Sys(map[], [Starting(0)]), Oks(k + 2) + [(0, o)]);
      && SysOk(s) && s.hooks == [Ended(0)] && 0 in s.jobs && s.jobs[0].owner == 0
      && ((o.Outlives? && k < 8) || (o.Orphans? && k == 7) ==> Due(s.jobs[0]))
      && (k == 8 ==> Valid(s.jobs[0], 0))
  {
    var s0 := Sys(map[], [Starting(0)]);
    WorksUpTo([Starting(0)], k);
    var s := Exec(s0, Oks(k + 2));
    assert HookOk(s, 0) && JobOk(s.jobs[0]);
    ExecConcat(s0, Oks(k + 2), [(0, o)]);
    ExecCons(s, 0, o, []);
    assert [(0, o)] + [] == [(0, o)];
    StepKeeps(s, 0, o);
    if k < 8 { StepBefore(k); } else { StepBefore(7); }
    FailedOnlyDropped(s.jobs[0], StepAt(k), 0, 0, o.Outlives?);
  }

  /** From a state a run leads to, a fault of hook h goes on to both manifests. */
  lemma FaultAfter(s0: Sys, run: Run, h: nat, o: Outcome) returns (rest: Run)
    requires var s := Exec(s0, run);
      SysOk(s) && Fault(s, h, o) && s.hooks[h].dir in s.jobs && MayPublish(Step(s, h, o), s.hooks[h].dir)
    ensures Both(Exec(s0, run + ([(h, o)] + rest)), Exec(s0, run).hooks[h].dir) && AllWorks(rest)
  {
    var s := Exec(s0, run);
    StepKeeps(s, h, o);
    rest := ContradictingRun(Step(s, h, o), h, s.hooks[h].dir);
    ExecConcat(s0, run, [(h, o)] + rest);
    ExecCons(s, h, o, rest);
  }
}
