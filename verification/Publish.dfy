/**
 * One record store at the level of system calls: any number of publishers run
 * at once, every call may fail, and each publisher may be killed anywhere.
 */
module Publish {
  import opened Wrappers

  type Ino = nat
  type Rec = nat    // the item a record carries

  /** Temporary names never collide with record names. */
  datatype Name = Tmp(n: nat) | Final(n: nat)

  /** A file holds a complete record or a truncated one, which does not parse. */
  datatype Content = Whole(rec: Rec) | Torn

  datatype Fs = Fs(names: map<Name, Ino>, data: map<Ino, Content>)

  datatype Reading = Missing | Found(rec: Rec) | Unreadable

  function NamesOf(fs: Fs, i: Ino): set<Name> {
    set n | n in fs.names && fs.names[n] == i
  }

  /** A record is read only under exactly one name and only if it parses. */
  function Read(fs: Fs, n: Name): Reading {
    if n !in fs.names then Missing
    else
      var i := fs.names[n];
      if |NamesOf(fs, i)| != 1 || i !in fs.data || fs.data[i].Torn? then Unreadable
      else Found(fs.data[i].rec)
  }

  datatype Pc = Ready | Opened | Wrote | Named(ok: bool) | Finished(ok: bool)

  /** `ino` is the inode of the temporary file, once it exists. */
  datatype Publisher = Publisher(target: nat, rec: Rec, replace: bool, pc: Pc, ino: Option<Ino>)

  datatype WriteResult = Full | Short | WriteFailed

  /** The next system call of one publisher, with the environment's answer. */
  datatype Event =
    | Open(ino: Ino, ok: bool)
    | Write(result: WriteResult)
    | Name(ok: bool)         // rename, or link
    | Unlink(ok: bool, synced: bool)   // and the sync of the directory that ends the call
    | Kill

  /** Publisher p draws the temporary name Tmp(p): the names are random tokens. */
  datatype Sys = Sys(fs: Fs, pubs: seq<Publisher>)

  function Step(s: Sys, p: nat, e: Event): Sys {
    if p >= |s.pubs| || s.pubs[p].pc.Finished? then s
    else
      var u := s.pubs[p];
      match e
      case Kill => s.(pubs := s.pubs[p := u.(pc := Finished(false))])
      case Open(ino, ok) =>
        if !u.pc.Ready? || ino in s.fs.data then s
        else if !ok || Tmp(p) in s.fs.names then s.(pubs := s.pubs[p := u.(pc := Finished(false))])
        else Sys(Fs(s.fs.names[Tmp(p) := ino], s.fs.data[ino := Torn]),
                 s.pubs[p := u.(pc := Opened, ino := Some(ino))])
      case Write(result) =>
        if !u.pc.Opened? || u.ino.None? then s
        else Sys(s.fs.(data := s.fs.data[u.ino.value := if result.Full? then Whole(u.rec) else Torn]),
                 s.pubs[p := u.(pc := if result.WriteFailed? then Finished(false) else Wrote)])
      case Name(ok) =>
        if !u.pc.Wrote? || u.ino.None? then s
        else if !ok || (!u.replace && Final(u.target) in s.fs.names) then s.(pubs := s.pubs[p := u.(pc := Named(false))])
        else
          var named := s.fs.names[Final(u.target) := u.ino.value];
          Sys(s.fs.(names := if u.replace then named - {Tmp(p)} else named), s.pubs[p := u.(pc := Named(true))])
      case Unlink(ok, synced) =>
        if !u.pc.Named? then s
        else if Tmp(p) !in s.fs.names then s.(pubs := s.pubs[p := u.(pc := Finished(u.pc.ok && synced))])
        else if !ok then s.(pubs := s.pubs[p := u.(pc := Finished(false))])
        else Sys(s.fs.(names := s.fs.names - {Tmp(p)}), s.pubs[p := u.(pc := Finished(u.pc.ok && synced))])
  }

  /** Any interleaving of the publishers' system calls. */
  function Exec(s: Sys, run: seq<(nat, Event)>): Sys
    decreases |run|
  {
    if run == [] then s else Exec(Step(s, run[0].0, run[0].1), run[1..])
  }

  /** A store as the library leaves it: no two records share a file. */
  ghost predicate Sound(fs: Fs) {
    && (forall n :: n in fs.names ==> fs.names[n] in fs.data)
    && (forall f, g {:trigger Final(f), Final(g)} ::
          Final(f) in fs.names && Final(g) in fs.names && fs.names[Final(f)] == fs.names[Final(g)] ==> f == g)
  }

  predicate Unstarted(pubs: seq<Publisher>) {
    forall p :: 0 <= p < |pubs| ==> pubs[p].pc.Ready? && pubs[p].ino.None?
  }

  /* -------------------------------- Invariant -------------------------------- */

  /** The names publisher p has bound: its temporary name, then its record name. */
  ghost predicate PubOk(s: Sys, base: Fs, p: nat)
    requires p < |s.pubs|
  {
    var u := s.pubs[p];
    && (u.pc.Ready? ==> u.ino.None?)
    && (u.pc.Opened? || u.pc.Wrote? || u.pc.Named? ==> u.ino.Some?)
    && (u.ino.None? ==> Tmp(p) in s.fs.names ==> Tmp(p) in base.names)
    && (u.ino.Some? ==>
          var i := u.ino.value;
          && i in s.fs.data && i !in base.data && Tmp(p) !in base.names
          && (s.fs.data[i] == Whole(u.rec) || s.fs.data[i].Torn?)
          && (Tmp(p) in s.fs.names ==> s.fs.names[Tmp(p)] == i)
          && (u.pc.Opened? || u.pc.Wrote? ==>
                && Tmp(p) in s.fs.names
                && forall f :: Final(f) in s.fs.names ==> s.fs.names[Final(f)] != i)
          && (forall f :: Final(f) in s.fs.names && s.fs.names[Final(f)] == i ==> f == u.target))
  }

  ghost predicate BoundBy(s: Sys, p: nat, n: Name) {
    && p < |s.pubs| && n in s.fs.names
    && s.pubs[p].ino == Some(s.fs.names[n])
    && (n == Tmp(p) || n == Final(s.pubs[p].target))
  }

  /** Every name is bound as at the start or by one of the publishers. */
  ghost predicate NameOk(s: Sys, base: Fs, n: Name) {
    n in s.fs.names ==>
      || (n in base.names && s.fs.names[n] == base.names[n])
      || exists p: nat :: BoundBy(s, p, n)
  }

  ghost predicate SysOk(s: Sys, base: Fs) {
    && Sound(base) && Sound(s.fs)
    && (forall i :: i in base.data ==> i in s.fs.data && s.fs.data[i] == base.data[i])
    && (forall n :: n in base.names ==> n in s.fs.names)
    && (forall n {:trigger NameOk(s, base, n)} :: NameOk(s, base, n))
    && (forall p {:trigger PubOk(s, base, p)} :: 0 <= p < |s.pubs| ==> PubOk(s, base, p))
    && (forall p, q :: 0 <= p < q < |s.pubs| && s.pubs[p].ino.Some? ==> s.pubs[p].ino != s.pubs[q].ino)
  }

  lemma StepKeepsNames(s: Sys, base: Fs, p: nat, e: Event, n: Name)
    requires SysOk(s, base)
    ensures NameOk(Step(s, p, e), base, n)
  {
    var s' := Step(s, p, e);
    if p < |s.pubs| { assert PubOk(s, base, p); }
    if n in s'.fs.names {
      if n in s.fs.names && s'.fs.names[n] == s.fs.names[n] {
        assert NameOk(s, base, n);
        if q: nat :| BoundBy(s, q, n) { assert PubOk(s, base, q); assert BoundBy(s', q, n); }
      } else {
        assert BoundBy(s', p, n);
      }
    }
  }

  lemma StepKeepsPubs(s: Sys, base: Fs, p: nat, e: Event, q: nat)
    requires SysOk(s, base) && q < |s.pubs|
    ensures PubOk(Step(s, p, e), base, q)
  {
    assert PubOk(s, base, q);
    if p < |s.pubs| { assert PubOk(s, base, p); }
  }

  lemma StepKeeps(s: Sys, base: Fs, p: nat, e: Event)
    requires SysOk(s, base)
    ensures SysOk(Step(s, p, e), base)
  {
    var s' := Step(s, p, e);
    if p < |s.pubs| { assert PubOk(s, base, p); }
    forall n ensures NameOk(s', base, n) { StepKeepsNames(s, base, p, e, n); }
    forall q | 0 <= q < |s'.pubs|
      ensures PubOk(s', base, q)
      ensures s.pubs[q].ino.Some? ==> s.pubs[q].ino.value in s.fs.data
    {
      StepKeepsPubs(s, base, p, e, q);
      assert PubOk(s, base, q);
    }
  }

  lemma {:induction false} RunKeeps(s: Sys, base: Fs, run: seq<(nat, Event)>)
    requires SysOk(s, base)
    ensures SysOk(Exec(s, run), base)
    decreases |run|
  {
    if run != [] {
      StepKeeps(s, base, run[0].0, run[0].1);
      RunKeeps(Step(s, run[0].0, run[0].1), base, run[1..]);
    }
  }

  /* ------------------------------- Main results ------------------------------ */

  lemma {:induction false} SameJobs(s: Sys, run: seq<(nat, Event)>)
    ensures |Exec(s, run).pubs| == |s.pubs|
    ensures forall p :: 0 <= p < |s.pubs| ==>
              && Exec(s, run).pubs[p].target == s.pubs[p].target
              && Exec(s, run).pubs[p].rec == s.pubs[p].rec
              && Exec(s, run).pubs[p].replace == s.pubs[p].replace
    decreases |run|
  {
    if run != [] { SameJobs(Step(s, run[0].0, run[0].1), run[1..]); }
  }

  lemma StartOk(fs: Fs, pubs: seq<Publisher>)
    requires Sound(fs) && Unstarted(pubs)
    ensures SysOk(Sys(fs, pubs), fs)
  {
    forall n ensures NameOk(Sys(fs, pubs), fs, n) {}
    forall p | 0 <= p < |pubs| ensures PubOk(Sys(fs, pubs), fs, p) {}
  }

  /** After any interleaving of any publishers, with kills and failing or short
      writes anywhere, a read gives the old result, an error, or the complete
      record of somebody who published under that name, and a record that was
      present is never absent. */
  lemma CrashAtomic(fs: Fs, pubs: seq<Publisher>, run: seq<(nat, Event)>, f: nat)
    requires Sound(fs) && Unstarted(pubs)
    ensures var fs' := Exec(Sys(fs, pubs), run).fs;
      && (Read(fs', Final(f)) == Read(fs, Final(f))
          || Read(fs', Final(f)).Unreadable?
          || exists p :: 0 <= p < |pubs| && pubs[p].target == f && Read(fs', Final(f)) == Found(pubs[p].rec))
      && (Final(f) in fs.names ==> Final(f) in fs'.names)
  {
    var s := Exec(Sys(fs, pubs), run);
    StartOk(fs, pubs);
    RunKeeps(Sys(fs, pubs), fs, run);
    SameJobs(Sys(fs, pubs), run);
    assert NameOk(s, fs, Final(f));
    if Final(f) in s.fs.names {
      if Final(f) in fs.names && s.fs.names[Final(f)] == fs.names[Final(f)] {
        SameNames(s, fs, f);
      } else {
        var p: nat :| BoundBy(s, p, Final(f));
        assert PubOk(s, fs, p);
      }
    }
  }

  /** A record that is still bound to its old file has exactly its old names. */
  lemma SameNames(s: Sys, base: Fs, f: nat)
    requires SysOk(s, base) && Final(f) in base.names && Final(f) in s.fs.names
    requires s.fs.names[Final(f)] == base.names[Final(f)]
    ensures NamesOf(s.fs, base.names[Final(f)]) == NamesOf(base, base.names[Final(f)])
  {
    var i := base.names[Final(f)];
    forall n
      ensures n in s.fs.names && s.fs.names[n] == i <==> n in base.names && base.names[n] == i
    {
      assert NameOk(s, base, n);
      if p: nat :| BoundBy(s, p, n) { assert PubOk(s, base, p); }
      if n in base.names && base.names[n] == i {
        if n.Tmp? && n.n < |s.pubs| { assert PubOk(s, base, n.n); }
        assert n.Final? ==> n == Final(f);
      }
    }
  }

  /** One step of an exclusive publisher, whoever else is at work: every bound
      record stays bound to its file, and the file's bytes stay. */
  lemma ExclusiveStep(s: Sys, base: Fs, p: nat, e: Event, f: nat)
    requires SysOk(s, base) && p < |s.pubs| && !s.pubs[p].replace && Final(f) in s.fs.names
    ensures var s' := Step(s, p, e);
      Final(f) in s'.fs.names && s'.fs.names[Final(f)] == s.fs.names[Final(f)]
      && s'.fs.data[s.fs.names[Final(f)]] == s.fs.data[s.fs.names[Final(f)]]
  {
    assert PubOk(s, base, p);
  }

  /** The step renames over f: a replacing publisher of that name. */
  predicate Replaces(s: Sys, p: nat, e: Event, f: nat) {
    p < |s.pubs| && s.pubs[p].replace && s.pubs[p].target == f && e == Name(true)
  }

  lemma BoundStep(s: Sys, base: Fs, p: nat, e: Event, f: nat)
    requires SysOk(s, base) && Final(f) in s.fs.names
    ensures var s' := Step(s, p, e);
      && Final(f) in s'.fs.names
      && (!Replaces(s, p, e, f) ==> s'.fs.names[Final(f)] == s.fs.names[Final(f)])
      && s.fs.names[Final(f)] in s'.fs.data
      && s'.fs.data[s.fs.names[Final(f)]] == s.fs.data[s.fs.names[Final(f)]]
  {
    if p < |s.pubs| { assert PubOk(s, base, p); }
  }

  lemma {:induction false} FinalStays(s: Sys, base: Fs, run: seq<(nat, Event)>, f: nat)
    requires SysOk(s, base) && Final(f) in s.fs.names
    ensures Final(f) in Exec(s, run).fs.names
    decreases |run|
  {
    if run != [] {
      BoundStep(s, base, run[0].0, run[0].1, f);
      StepKeeps(s, base, run[0].0, run[0].1);
      FinalStays(Step(s, run[0].0, run[0].1), base, run[1..], f);
    }
  }

  /** The state before the k-th step of a run. */
  function At(s: Sys, run: seq<(nat, Event)>, k: nat): Sys
    requires k <= |run|
  {
    Exec(s, run[..k])
  }

  lemma {:induction false} ExecSnoc(s: Sys, run: seq<(nat, Event)>, x: (nat, Event))
    ensures Exec(s, run + [x]) == Step(Exec(s, run), x.0, x.1)
    decreases |run|
  {
    hide Step;
    if run == [] {
      assert run + [x] == [x] && [x][1..] == [];
    } else {
      ExecSnoc(Step(s, run[0].0, run[0].1), run[1..], x);
      assert (run + [x])[1..] == run[1..] + [x];
    }
  }

  /** In any run of any publishers, replacing ones among them, no step of an
      exclusive publisher rebinds a record or changes the bytes of one. */
  lemma ExclusiveNeverOverwrites(fs: Fs, pubs: seq<Publisher>, run: seq<(nat, Event)>, k: nat, f: nat)
    requires Sound(fs) && Unstarted(pubs) && k < |run|
    requires run[k].0 < |pubs| && !pubs[run[k].0].replace && Final(f) in At(Sys(fs, pubs), run, k).fs.names
    ensures var s, s' := At(Sys(fs, pubs), run, k), At(Sys(fs, pubs), run, k + 1);
      && Final(f) in s'.fs.names && s'.fs.names[Final(f)] == s.fs.names[Final(f)]
      && s.fs.names[Final(f)] in s.fs.data && s.fs.names[Final(f)] in s'.fs.data
      && s'.fs.data[s.fs.names[Final(f)]] == s.fs.data[s.fs.names[Final(f)]]
  {
    var s := At(Sys(fs, pubs), run, k);
    StartOk(fs, pubs);
    RunKeeps(Sys(fs, pubs), fs, run[..k]);
    SameJobs(Sys(fs, pubs), run[..k]);
    assert run[..k + 1] == run[..k] + [run[k]];
    ExecSnoc(Sys(fs, pubs), run[..k], run[k]);
    ExclusiveStep(s, fs, run[k].0, run[k].1, f);
    BoundStep(s, fs, run[k].0, run[k].1, f);
  }

  /** A bound record changes hands only by a rename of a replacing publisher of its
      own name, and the bytes it was bound to never change at all. */
  lemma {:induction false} OnlyReplacersRebind(s: Sys, base: Fs, run: seq<(nat, Event)>, f: nat) returns (k: nat)
    requires SysOk(s, base) && Final(f) in s.fs.names
    ensures Final(f) in Exec(s, run).fs.names
    ensures s.fs.names[Final(f)] in s.fs.data && s.fs.names[Final(f)] in Exec(s, run).fs.data
    ensures Exec(s, run).fs.data[s.fs.names[Final(f)]] == s.fs.data[s.fs.names[Final(f)]]
    ensures Exec(s, run).fs.names[Final(f)] != s.fs.names[Final(f)] ==>
              && k < |run| && run[k].0 < |s.pubs| && s.pubs[run[k].0].replace && s.pubs[run[k].0].target == f
              && run[k].1 == Name(true)
    decreases |run|
  {
    FinalStays(s, base, run, f);
    BytesStay(s, base, run, s.fs.names[Final(f)], f);
    k := 0;
    if run != [] {
      var s1 := Step(s, run[0].0, run[0].1);
      BoundStep(s, base, run[0].0, run[0].1, f);
      StepKeeps(s, base, run[0].0, run[0].1);
      SameJobs(s, run[..1]);
      OneStep(s, run);
      if !Replaces(s, run[0].0, run[0].1, f) {
        hide Step, SysOk;
        var m := OnlyReplacersRebind(s1, base, run[1..], f);
        k := m + 1;
      }
    }
  }

  lemma OneStep(s: Sys, run: seq<(nat, Event)>)
    requires run != []
    ensures Exec(s, run[..1]) == Step(s, run[0].0, run[0].1)
  {
    hide Step;
    assert run[..1][1..] == [];
  }

  /** Bytes that were once bound to a record name are not written any more. */
  ghost predicate Sealed(s: Sys, i: Ino) {
    && i in s.fs.data
    && forall p :: 0 <= p < |s.pubs| && s.pubs[p].ino == Some(i) ==> s.pubs[p].pc.Named? || s.pubs[p].pc.Finished?
  }

  lemma {:induction false} SealedStays(s: Sys, base: Fs, run: seq<(nat, Event)>, i: Ino)
    requires SysOk(s, base) && Sealed(s, i)
    ensures i in Exec(s, run).fs.data && Exec(s, run).fs.data[i] == s.fs.data[i]
    decreases |run|
  {
    if run != [] {
      if run[0].0 < |s.pubs| { assert PubOk(s, base, run[0].0); }
      StepKeeps(s, base, run[0].0, run[0].1);
      SealedStays(Step(s, run[0].0, run[0].1), base, run[1..], i);
    }
  }

  lemma BytesStay(s: Sys, base: Fs, run: seq<(nat, Event)>, i: Ino, f: nat)
    requires SysOk(s, base) && Final(f) in s.fs.names && s.fs.names[Final(f)] == i
    ensures i in s.fs.data && i in Exec(s, run).fs.data && Exec(s, run).fs.data[i] == s.fs.data[i]
  {
    assert Sealed(s, i) by {
      forall p | 0 <= p < |s.pubs| && s.pubs[p].ino == Some(i) ensures s.pubs[p].pc.Named? || s.pubs[p].pc.Finished? {
        assert PubOk(s, base, p);
      }
    }
    SealedStays(s, base, run, i);
  }

  /** Nobody else may replace what publisher p publishes. */
  predicate Undisturbed(pubs: seq<Publisher>, p: nat)
    requires p < |pubs|
  {
    forall q :: 0 <= q < |pubs| && q != p && pubs[q].target == pubs[p].target ==> !pubs[q].replace
  }

  ghost predicate Landed(s: Sys, p: nat)
    requires p < |s.pubs|
  {
    var u := s.pubs[p];
    && (u.pc == Named(true) || u.pc == Finished(true) ==>
          u.ino.Some? && Final(u.target) in s.fs.names && s.fs.names[Final(u.target)] == u.ino.value)
    && (u.pc == Finished(true) ==> Tmp(p) !in s.fs.names)
  }

  lemma LandedStays(s: Sys, base: Fs, q: nat, e: Event, p: nat)
    requires SysOk(s, base) && p < |s.pubs| && Undisturbed(s.pubs, p) && Landed(s, p)
    ensures var s' := Step(s, q, e); |s'.pubs| == |s.pubs| && Undisturbed(s'.pubs, p) && Landed(s', p)
  {
    assert PubOk(s, base, p);
    if q < |s.pubs| { assert PubOk(s, base, q); }
  }

  lemma {:induction false} LandedAlways(s: Sys, base: Fs, run: seq<(nat, Event)>, p: nat)
    requires SysOk(s, base) && p < |s.pubs| && Undisturbed(s.pubs, p) && Landed(s, p)
    ensures p < |Exec(s, run).pubs| && Landed(Exec(s, run), p)
    decreases |run|
  {
    if run != [] {
      var q := run[0].0;
      StepKeeps(s, base, q, run[0].1);
      LandedStays(s, base, q, run[0].1, p);
      hide SysOk, Step, Landed, Undisturbed;
      LandedAlways(Step(s, q, run[0].1), base, run[1..], p);
    }
  }

  /** A publisher that returns normally, undisturbed, left its record bound under
      exactly one name: it reads back as published, unless its write was short. */
  lemma SuccessReadsBack(fs: Fs, pubs: seq<Publisher>, run: seq<(nat, Event)>, p: nat)
    requires Sound(fs) && Unstarted(pubs) && p < |pubs| && Undisturbed(pubs, p)
    requires |Exec(Sys(fs, pubs), run).pubs| == |pubs| && Exec(Sys(fs, pubs), run).pubs[p].pc == Finished(true)
    ensures var s := Exec(Sys(fs, pubs), run);
      && s.pubs[p].ino.Some? && s.pubs[p].ino.value in s.fs.data
      && Read(s.fs, Final(pubs[p].target)) ==
           if s.fs.data[s.pubs[p].ino.value].Torn? then Unreadable else Found(pubs[p].rec)
  {
    var s := Exec(Sys(fs, pubs), run);
    StartOk(fs, pubs);
    RunKeeps(Sys(fs, pubs), fs, run);
    SameJobs(Sys(fs, pubs), run);
    LandedAlways(Sys(fs, pubs), fs, run, p);
    assert PubOk(s, fs, p);
    var i := s.pubs[p].ino.value;
    var t := Final(pubs[p].target);
    forall n | n in s.fs.names && s.fs.names[n] == i ensures n == t {
      assert NameOk(s, fs, n);
      var q: nat :| BoundBy(s, q, n);
    }
    assert NamesOf(s.fs, i) == {t};
  }

  /** The publisher's own link or rename succeeded. */
  predicate Won(u: Publisher) {
    u.pc == Named(true) || u.pc == Finished(true)
  }

  /** An exclusive publisher that won found its name free, and was the only one. */
  ghost predicate OneWinner(s: Sys, p: nat, q: nat)
    requires p < |s.pubs| && q < |s.pubs|
  {
    && !(Won(s.pubs[p]) && Won(s.pubs[q]))
    && (Won(s.pubs[p]) || Won(s.pubs[q]) ==> Final(s.pubs[p].target) in s.fs.names)
  }

  lemma {:induction false} OneWinnerAlways(s: Sys, base: Fs, run: seq<(nat, Event)>, p: nat, q: nat)
    requires SysOk(s, base) && p < |s.pubs| && q < |s.pubs| && p != q
    requires !s.pubs[p].replace && !s.pubs[q].replace && s.pubs[p].target == s.pubs[q].target && OneWinner(s, p, q)
    ensures |Exec(s, run).pubs| == |s.pubs| && OneWinner(Exec(s, run), p, q)
    decreases |run|
  {
    if run != [] {
      var s1 := Step(s, run[0].0, run[0].1);
      StepKeeps(s, base, run[0].0, run[0].1);
      if Final(s.pubs[p].target) in s.fs.names { BoundStep(s, base, run[0].0, run[0].1, s.pubs[p].target); }
      assert |s1.pubs| == |s.pubs| && OneWinner(s1, p, q);
      hide Step, SysOk;
      SameJobs(s, run[..1]);
      OneStep(s, run);
      OneWinnerAlways(s1, base, run[1..], p, q);
    }
  }

  /** Of two exclusive publishers of one name at most one succeeds, however many
      replacing publishers of that name are at work at the same time. */
  lemma OneExclusiveWinner(fs: Fs, pubs: seq<Publisher>, run: seq<(nat, Event)>, p: nat, q: nat)
    requires Sound(fs) && Unstarted(pubs) && p < |pubs| && q < |pubs| && p != q
    requires !pubs[p].replace && !pubs[q].replace && pubs[p].target == pubs[q].target
    ensures var s := Exec(Sys(fs, pubs), run);
      |s.pubs| == |pubs| && !(Won(s.pubs[p]) && Won(s.pubs[q]))
  {
    StartOk(fs, pubs);
    OneWinnerAlways(Sys(fs, pubs), fs, run, p, q);
  }

  lemma {:induction false} NoWinnerAlways(s: Sys, base: Fs, run: seq<(nat, Event)>, p: nat)
    requires SysOk(s, base) && p < |s.pubs| && !s.pubs[p].replace && Final(s.pubs[p].target) in s.fs.names
    requires !Won(s.pubs[p])
    ensures p < |Exec(s, run).pubs| && !Won(Exec(s, run).pubs[p])
    decreases |run|
  {
    if run != [] {
      var s1 := Step(s, run[0].0, run[0].1);
      StepKeeps(s, base, run[0].0, run[0].1);
      BoundStep(s, base, run[0].0, run[0].1, s.pubs[p].target);
      assert p < |s1.pubs| && !Won(s1.pubs[p]);
      hide Step, SysOk;
      SameJobs(s, run[..1]);
      OneStep(s, run);
      NoWinnerAlways(s1, base, run[1..], p);
    }
  }

  /** A name that is bound at the start is never won by an exclusive publisher. */
  lemma BoundNameIsNeverWon(fs: Fs, pubs: seq<Publisher>, run: seq<(nat, Event)>, p: nat)
    requires Sound(fs) && Unstarted(pubs) && p < |pubs| && !pubs[p].replace && Final(pubs[p].target) in fs.names
    ensures var s := Exec(Sys(fs, pubs), run); p < |s.pubs| && !Won(s.pubs[p])
  {
    StartOk(fs, pubs);
    NoWinnerAlways(Sys(fs, pubs), fs, run, p);
  }
}
