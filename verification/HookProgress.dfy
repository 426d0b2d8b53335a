/**
 * What an archive hook comes to when its own commands do what they should: a PASS, or
 * a FAILED record once its worker has failed, whatever the other hooks do meanwhile.
 */
module HookProgress {
  import opened Wrappers
  import opened ArchiveHook

  /** Every command of hook h works; the others do anything. */
  predicate OwnWorks(run: Run, h: nat) {
    forall x :: x in run && x.0 == h ==> x.1.Works?
  }

  /** How many steps hook h makes. */
  function Turns(run: Run, h: nat): nat
    decreases |run|
  {
    if run == [] then 0 else (if run[0].0 == h then 1 else 0) + Turns(run[1..], h)
  }

  lemma OwnWorksStep(run: Run, h: nat)
    requires OwnWorks(run, h) && run != []
    ensures OwnWorks(run[1..], h) && (run[0].0 == h ==> run[0].1.Works?)
  {
    assert forall x :: x in run[1..] ==> x in run;
    assert run[0] in run;
  }

  /* ---------------------------------- Passing ---------------------------------- */

  /** The hook works in its own directory, and so many steps are done. */
  predicate Along(pc: Pc, dir: Name, done: nat) {
    match pc
    case Claimed(n) => n == dir && done == 0
    case Working(n, at) => n == dir && done == 1 + Rank(at)
    case Passed(n) => n == dir && done >= 10
    case _ => false
  }

  lemma OneTurn(s: Sys, x: (nat, Outcome), h: nat, dir: Name, done: nat)
    requires SysOk(s) && h < |s.hooks| && Along(s.hooks[h], dir, done) && (x.0 == h ==> x.1.Works?)
    ensures var s1 := Step(s, x.0, x.1);
      h < |s1.hooks| && Along(s1.hooks[h], dir, if x.0 == h then done + 1 else done)
  {
    assert HookOk(s, h);
  }

  lemma {:induction false} KeepsWorking(s: Sys, run: Run, h: nat, dir: Name, done: nat)
    requires SysOk(s) && h < |s.hooks| && Along(s.hooks[h], dir, done) && OwnWorks(run, h)
    ensures h < |Exec(s, run).hooks| && Along(Exec(s, run).hooks[h], dir, done + Turns(run, h)) && SysOk(Exec(s, run))
    decreases |run|
  {
    hide SysOk, Along, Step;
    if run != [] {
      OwnWorksStep(run, h);
      OneTurn(s, run[0], h, dir, done);
      StepKeeps(s, run[0].0, run[0].1);
      KeepsWorking(Step(s, run[0].0, run[0].1), run[1..], h, dir, if run[0].0 == h then done + 1 else done);
    }
  }

  /** A hook that has claimed its directory and whose own commands all work exits 0
      after ten steps, with its archive published and valid, whatever other hooks do
      in between. */
  lemma WorkingHookPasses(s: Sys, before: Run, run: Run, h: nat, dir: Name)
    requires Fresh(s) && h < |Exec(s, before).hooks| && Exec(s, before).hooks[h] == Claimed(dir)
    requires OwnWorks(run, h) && Turns(run, h) >= 10
    ensures var e := Exec(Exec(s, before), run);
      && h < |e.hooks| && e.hooks[h] == Passed(dir)
      && dir in e.jobs && Valid(e.jobs[dir], h)
  {
    FreshOk(s);
    RunKeeps(s, before);
    var s1 := Exec(s, before);
    KeepsWorking(s1, run, h, dir, 0);
    assert HookOk(Exec(s1, run), h);
  }

  /** The hook goes along, and from its seventh step on no FAILED record is left. */
  predicate Clearing(s: Sys, h: nat, dir: Name, done: nat) {
    && h < |s.hooks| && Along(s.hooks[h], dir, done)
    && dir in s.jobs && (done >= 7 ==> !s.jobs[dir].failed)
  }

  lemma OneClear(s: Sys, o: Outcome, h: nat, dir: Name, done: nat)
    requires SysOk(s) && Clearing(s, h, dir, done) && o.Works?
    ensures Clearing(Step(s, h, o), h, dir, done + 1)
  {
    assert HookOk(s, h);
  }

  lemma {:induction false} KeepsClearing(s: Sys, run: Run, h: nat, dir: Name, done: nat)
    requires SysOk(s) && Clearing(s, h, dir, done) && forall x :: x in run ==> x.0 == h && x.1.Works?
    ensures Clearing(Exec(s, run), h, dir, done + |run|)
    decreases |run|
  {
    hide SysOk, Clearing, Step;
    if run != [] {
      assert run[0] in run && forall x :: x in run[1..] ==> x in run;
      OneClear(s, run[0].1, h, dir, done);
      StepKeeps(s, h, run[0].1);
      KeepsClearing(Step(s, h, run[0].1), run[1..], h, dir, done + 1);
    }
  }

  /** Left alone it also clears a FAILED record that stood in its directory. */
  lemma AloneHookClears(s: Sys, before: Run, run: Run, h: nat, dir: Name)
    requires Fresh(s) && h < |Exec(s, before).hooks| && Exec(s, before).hooks[h] == Claimed(dir)
    requires |run| >= 10 && forall x :: x in run ==> x.0 == h && x.1.Works?
    ensures var e := Exec(Exec(s, before), run);
      && h < |e.hooks| && e.hooks[h] == Passed(dir) && dir in e.jobs && !e.jobs[dir].failed
  {
    FreshOk(s);
    RunKeeps(s, before);
    assert HookOk(Exec(s, before), h);
    KeepsClearing(Exec(s, before), run, h, dir, 0);
  }

  /* ---------------------------------- Failing ---------------------------------- */

  /** The worker has failed before it published: so many steps of recording that are
      done, and nothing can publish in the directory any more. */
  predicate Recording(s: Sys, h: nat, dir: Name, done: nat) {
    && h < |s.hooks| && dir in s.jobs
    && s.jobs[dir].owner == h && s.jobs[dir].manifest.None? && s.jobs[dir].flight.None?
    && (match s.hooks[h]
        case Ended(n) => n == dir && done == 0
        case Failing(n) => n == dir && done == 1
        case Keeping(n) => n == dir && done == 2 && s.jobs[dir].failed
        case Refused => done >= 3 && s.jobs[dir].failed
        case _ => false)
  }

  lemma OneRecord(s: Sys, x: (nat, Outcome), h: nat, dir: Name, done: nat)
    requires SysOk(s) && Recording(s, h, dir, done) && (x.0 == h ==> x.1.Works?)
    ensures Recording(Step(s, x.0, x.1), h, dir, if x.0 == h then done + 1 else done)
  {
    if x.0 < |s.hooks| { assert HookOk(s, x.0); }
  }

  lemma {:induction false} KeepsRecording(s: Sys, run: Run, h: nat, dir: Name, done: nat)
    requires SysOk(s) && Recording(s, h, dir, done) && OwnWorks(run, h)
    ensures Recording(Exec(s, run), h, dir, done + Turns(run, h))
    decreases |run|
  {
    hide SysOk, Recording, Step;
    if run != [] {
      OwnWorksStep(run, h);
      OneRecord(s, run[0], h, dir, done);
      StepKeeps(s, run[0].0, run[0].1);
      KeepsRecording(Step(s, run[0].0, run[0].1), run[1..], h, dir, if run[0].0 == h then done + 1 else done);
    }
  }

  /** A hook whose worker fails or is killed with its command before it has published,
      and whose remaining commands work, exits 1 after three steps with FAILED on
      record and no PASS, whatever other hooks do in between. */
  lemma FailedWorkerIsRecorded(s: Sys, before: Run, run: Run, h: nat, dir: Name, at: WorkerStep)
    requires Fresh(s) && h < |Exec(s, before).hooks| && Exec(s, before).hooks[h] == Working(dir, at) && at != Published
    requires OwnWorks(run, h) && Turns(run, h) >= 3
    ensures var e := Exec(Step(Exec(s, before), h, Fails), run);
      && h < |e.hooks| && e.hooks[h] == Refused
      && dir in e.jobs && e.jobs[dir].failed && e.jobs[dir].manifest.None?
  {
    FreshOk(s);
    RunKeeps(s, before);
    var s1 := Exec(s, before);
    assert HookOk(s1, h);
    StepKeeps(s1, h, Fails);
    KeepsRecording(Step(s1, h, Fails), run, h, dir, 0);
  }

  /** A worker that is killed after it has published leaves a valid archive, and its
      hook exits 0. */
  lemma PublishedWorkerPasses(s: Sys, before: Run, h: nat, dir: Name)
    requires Fresh(s) && h < |Exec(s, before).hooks| && Exec(s, before).hooks[h] == Working(dir, Published)
    ensures var e := Step(Step(Exec(s, before), h, Fails), h, OK);
      h < |e.hooks| && e.hooks[h] == Passed(dir) && dir in e.jobs && Valid(e.jobs[dir], h)
  {
    FreshOk(s);
    RunKeeps(s, before);
    assert HookOk(Exec(s, before), h);
    assert JobOk(Exec(s, before).jobs[dir]);
  }
}
