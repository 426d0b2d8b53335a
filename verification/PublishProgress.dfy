/**
 * Publishing when no system call fails and nobody is killed: whatever the publishers
 * and their interleaving, a name that somebody publishes reads one of its records.
 */
module PublishProgress {
  import opened Wrappers
  import opened Publish

  /** The call did what it was asked to. */
  predicate Works(e: Event) {
    match e
    case Open(_, ok) => ok
    case Write(result) => result.Full?
    case Name(ok) => ok
    case Unlink(ok, synced) => ok && synced
    case Kill => false
  }

  predicate AllWork(run: seq<(nat, Event)>) {
    forall k :: 0 <= k < |run| ==> Works(run[k].1)
  }

  /** How far publisher p has come, no call having failed: it fails only as an exclusive
      publisher of a bound name, its data is whole once written, the name is bound to its
      file only if its own naming succeeded, and no temporary name outlives it. */
  ghost predicate Going(s: Sys, p: nat)
    requires p < |s.pubs|
  {
    var u := s.pubs[p];
    && (u.pc.Ready? || u.pc.Finished? ==> Tmp(p) !in s.fs.names)
    && (!u.pc.Ready? ==> u.ino.Some?)
    && (u.pc == Named(false) || u.pc == Finished(false) ==> !u.replace && Final(u.target) in s.fs.names)
    && (Won(u) ==> Final(u.target) in s.fs.names)
    && (u.pc.Wrote? || u.pc.Named? || u.pc.Finished? ==>
          u.ino.value in s.fs.data && s.fs.data[u.ino.value] == Whole(u.rec))
    && (u.ino.Some? && Final(u.target) in s.fs.names && s.fs.names[Final(u.target)] == u.ino.value ==> Won(u))
  }

  ghost predicate AllGoing(s: Sys) {
    forall p :: 0 <= p < |s.pubs| ==> Going(s, p)
  }

  lemma StepKeepsGoing(s: Sys, base: Fs, p: nat, e: Event, q: nat)
    requires SysOk(s, base) && p < |s.pubs| && q < |s.pubs| && Works(e) && Going(s, p) && Going(s, q)
    ensures |Step(s, p, e).pubs| == |s.pubs| && Going(Step(s, p, e), q)
  {
    assert PubOk(s, base, p) && PubOk(s, base, q);
  }

  lemma StepGoes(s: Sys, base: Fs, p: nat, e: Event)
    requires SysOk(s, base) && Works(e) && AllGoing(s)
    ensures |Step(s, p, e).pubs| == |s.pubs| && AllGoing(Step(s, p, e))
  {
    if p < |s.pubs| {
      forall q | 0 <= q < |s.pubs| ensures |Step(s, p, e).pubs| == |s.pubs| && Going(Step(s, p, e), q) {
        StepKeepsGoing(s, base, p, e, q);
      }
    }
  }

  lemma {:induction false} RunGoes(s: Sys, base: Fs, run: seq<(nat, Event)>)
    requires SysOk(s, base) && AllWork(run) && AllGoing(s)
    ensures AllGoing(Exec(s, run))
    decreases |run|
  {
    hide Step, SysOk, AllGoing;
    if run != [] {
      assert Works(run[0].1);
      StepGoes(s, base, run[0].0, run[0].1);
      StepKeeps(s, base, run[0].0, run[0].1);
      RunGoes(Step(s, run[0].0, run[0].1), base, run[1..]);
    }
  }

  /** With no call failing, once every publisher has finished, a name that was free and
      that some publisher was to publish reads the whole record of one that returned
      normally: an exclusive publish of a free name succeeds when nobody else publishes
      it, and replacing publishes always do. */
  lemma FreeNameIsPublished(fs: Fs, pubs: seq<Publisher>, run: seq<(nat, Event)>, p: nat)
    requires Sound(fs) && Unstarted(pubs) && p < |pubs| && AllWork(run)
    requires Final(pubs[p].target) !in fs.names && forall q :: 0 <= q < |pubs| ==> Tmp(q) !in fs.names
    requires var s := Exec(Sys(fs, pubs), run); forall q :: 0 <= q < |s.pubs| ==> s.pubs[q].pc.Finished?
    ensures var s := Exec(Sys(fs, pubs), run);
      && |s.pubs| == |pubs|
      && (exists q ::
            && 0 <= q < |pubs| && pubs[q].target == pubs[p].target && s.pubs[q].pc == Finished(true)
            && Read(s.fs, Final(pubs[p].target)) == Found(pubs[q].rec))
      && (pubs[p].replace ==> s.pubs[p].pc == Finished(true))
      && ((forall q :: 0 <= q < |pubs| && q != p ==> pubs[q].target != pubs[p].target) ==>
            s.pubs[p].pc == Finished(true) && Read(s.fs, Final(pubs[p].target)) == Found(pubs[p].rec))
  {
    var s := Exec(Sys(fs, pubs), run);
    StartOk(fs, pubs);
    RunKeeps(Sys(fs, pubs), fs, run);
    SameJobs(Sys(fs, pubs), run);
    RunGoes(Sys(fs, pubs), fs, run);
    hide Exec;
    assert Going(s, p);
    var t := pubs[p].target;
    var q := Binder(s, fs, t);
    assert Going(s, q);
    ReadsBinder(s, fs, q);
  }

  lemma Binder(s: Sys, base: Fs, t: nat) returns (q: nat)
    requires SysOk(s, base) && Final(t) in s.fs.names && Final(t) !in base.names
    ensures q < |s.pubs| && s.pubs[q].target == t && s.pubs[q].ino == Some(s.fs.names[Final(t)])
  {
    assert NameOk(s, base, Final(t));
    q :| BoundBy(s, q, Final(t));
  }

  /** A record whose publisher is bound and done is read back. */
  lemma ReadsBinder(s: Sys, base: Fs, q: nat)
    requires SysOk(s, base) && AllGoing(s) && q < |s.pubs| && forall r :: 0 <= r < |s.pubs| ==> s.pubs[r].pc.Finished?
    requires var u := s.pubs[q];
      u.ino.Some? && Final(u.target) in s.fs.names && Final(u.target) !in base.names && s.fs.names[Final(u.target)] == u.ino.value
    ensures s.pubs[q].pc == Finished(true) && Read(s.fs, Final(s.pubs[q].target)) == Found(s.pubs[q].rec)
  {
    assert Going(s, q) && PubOk(s, base, q);
    var t := Final(s.pubs[q].target);
    var i := s.pubs[q].ino.value;
    forall n | n in s.fs.names && s.fs.names[n] == i ensures n == t {
      assert NameOk(s, base, n);
      if r: nat :| BoundBy(s, r, n) { assert Going(s, r); }
    }
    assert NamesOf(s.fs, i) == {t};
  }

  /** A record whose temporary name is still there is refused, at every point of every
      run: between its link and its unlink, and for good if its publisher dies there. */
  lemma HalfPublishedIsRefused(fs: Fs, pubs: seq<Publisher>, run: seq<(nat, Event)>, p: nat)
    requires Sound(fs) && Unstarted(pubs) && p < |pubs| && |Exec(Sys(fs, pubs), run).pubs| == |pubs|
    requires var s := Exec(Sys(fs, pubs), run);
      && s.pubs[p].ino.Some? && Tmp(p) in s.fs.names
      && Final(pubs[p].target) in s.fs.names && s.fs.names[Final(pubs[p].target)] == s.pubs[p].ino.value
    ensures Read(Exec(Sys(fs, pubs), run).fs, Final(pubs[p].target)) == Unreadable
  {
    var s := Exec(Sys(fs, pubs), run);
    StartOk(fs, pubs);
    RunKeeps(Sys(fs, pubs), fs, run);
    assert PubOk(s, fs, p);
    hide Exec;
    TwoNames(NamesOf(s.fs, s.pubs[p].ino.value), Tmp(p), Final(pubs[p].target));
  }

  /** The rename of a replacing publisher took its temporary name along. */
  predicate TakenAlong(s: Sys, p: nat)
    requires p < |s.pubs|
  {
    s.pubs[p].replace && Won(s.pubs[p]) ==> Tmp(p) !in s.fs.names
  }

  lemma StepTakesAlong(s: Sys, base: Fs, q: nat, e: Event, p: nat)
    requires SysOk(s, base) && p < |s.pubs| && TakenAlong(s, p)
    ensures |Step(s, q, e).pubs| == |s.pubs| && TakenAlong(Step(s, q, e), p)
  {
    assert PubOk(s, base, p);
    if q < |s.pubs| { assert PubOk(s, base, q); }
  }

  lemma {:induction false} RunTakesAlong(s: Sys, base: Fs, run: seq<(nat, Event)>, p: nat)
    requires SysOk(s, base) && p < |s.pubs| && TakenAlong(s, p)
    ensures p < |Exec(s, run).pubs| && TakenAlong(Exec(s, run), p)
    decreases |run|
  {
    hide SysOk, Step, TakenAlong;
    if run != [] {
      StepKeeps(s, base, run[0].0, run[0].1);
      StepTakesAlong(s, base, run[0].0, run[0].1, p);
      RunTakesAlong(Step(s, run[0].0, run[0].1), base, run[1..], p);
    }
  }

  /** A replacement is readable at once: as soon as its rename has succeeded, whatever
      else runs or dies, the name reads the new record, unless its write was short. */
  lemma ReplacedReadsAtOnce(fs: Fs, pubs: seq<Publisher>, run: seq<(nat, Event)>, p: nat)
    requires Sound(fs) && Unstarted(pubs) && p < |pubs| && Undisturbed(pubs, p) && pubs[p].replace
    requires |Exec(Sys(fs, pubs), run).pubs| == |pubs| && Won(Exec(Sys(fs, pubs), run).pubs[p])
    ensures var s := Exec(Sys(fs, pubs), run);
      && s.pubs[p].ino.Some? && s.pubs[p].ino.value in s.fs.data
      && Read(s.fs, Final(pubs[p].target)) ==
           if s.fs.data[s.pubs[p].ino.value].Torn? then Unreadable else Found(pubs[p].rec)
  {
    var s := Exec(Sys(fs, pubs), run);
    StartOk(fs, pubs);
    RunKeeps(Sys(fs, pubs), fs, run);
    SameJobs(Sys(fs, pubs), run);
    LandedAlways(Sys(fs, pubs), fs, run, p);
    RunTakesAlong(Sys(fs, pubs), fs, run, p);
    assert PubOk(s, fs, p);
    hide Exec;
    var i := s.pubs[p].ino.value;
    var t := Final(pubs[p].target);
    forall n | n in s.fs.names && s.fs.names[n] == i ensures n == t {
      assert NameOk(s, fs, n);
      var q: nat :| BoundBy(s, q, n);
      assert q == p;
    }
    assert NamesOf(s.fs, i) == {t};
  }

  lemma TwoNames(names: set<Publish.Name>, a: Publish.Name, b: Publish.Name)
    requires a in names && b in names && a != b
    ensures |names| > 1
  {
    assert |names - {a}| == |names| - 1;
    assert b in names - {a};
  }
}
