/**
 * Quarantine of a local service record: the entry is renamed, never unlinked,
 * checked again under its new name, and moved back when anything looks wrong.
 * Before each system call other processes may have changed the directory.
 */
module Quarantine {
  import opened Wrappers

  datatype Name = Service | Runner | Credentials | Aside(token: nat) | Other(id: nat)

  type Ino = nat

  /** What stat shows of an inode, and what reading it gives. */
  datatype Meta = Meta(regular: bool, owned: bool, nlink: nat, writable: bool, private: bool, size: nat, mtime: nat)
  datatype Node = Node(meta: Meta, ctime: nat, content: nat)

  datatype Dir = Dir(entries: map<Name, Ino>, inodes: map<Ino, Node>)

  datatype Stat = Stat(ino: Ino, meta: Meta, ctime: nat)

  /** The line quarantine prints. */
  datatype Proof = Proof(token: nat, ino: Ino, ctime: nat)

  function StatOf(d: Dir, n: Name): Option<Stat> {
    if n in d.entries && d.entries[n] in d.inodes
    then Some(Stat(d.entries[n], d.inodes[d.entries[n]].meta, d.inodes[d.entries[n]].ctime))
    else None
  }

  /** `same`: everything but the change time. */
  predicate Same(a: Stat, b: Stat) {
    a.ino == b.ino && a.meta == b.meta
  }

  predicate SafeRecord(m: Meta) {
    m.regular && m.owned && m.nlink == 1 && !m.writable && m.size <= 160
  }

  /** A record in order: safe metadata and the expected unit name. */
  predicate Holds(d: Dir, n: Name, expected: nat) {
    StatOf(d, n).Some? && SafeRecord(StatOf(d, n).value.meta) && d.inodes[d.entries[n]].content == expected
  }

  predicate Registered(d: Dir, n: Name) {
    StatOf(d, n).Some? && var m := StatOf(d, n).value.meta; m.regular && m.owned && m.nlink == 1 && m.private
  }

  ghost predicate NoneAside(d: Dir) {
    forall t :: Aside(t) !in d.entries
  }

  ghost predicate OnlyAside(d: Dir, token: nat) {
    forall t :: Aside(t) in d.entries <==> t == token
  }

  /** renameat2 with RENAME_NOREPLACE; the moved inode's change time is renewed. */
  function Renamed(d: Dir, src: Name, dst: Name, now: nat): Option<Dir> {
    if src !in d.entries || dst in d.entries then None
    else
      var i := d.entries[src];
      Some(Dir((d.entries - {src})[dst := i],
               if i in d.inodes then d.inodes[i := d.inodes[i].(ctime := now)] else d.inodes))
  }

  /** Every entry is still there, one of them perhaps under another name, and no
      inode lost its contents. */
  ghost predicate Conserves(d: Dir, d': Dir) {
    && |d'.entries| == |d.entries|
    && (forall n :: n in d.entries ==> exists m :: m in d'.entries && d'.entries[m] == d.entries[n])
    && (forall n :: n in d.entries && n in d'.entries ==> d'.entries[n] == d.entries[n])
    && d'.inodes.Keys == d.inodes.Keys
    && (forall i :: i in d.inodes ==> d'.inodes[i].content == d.inodes[i].content && d'.inodes[i].meta == d.inodes[i].meta)
  }

  /** One rename, at some time, turns d into d'. */
  ghost predicate Renames(d: Dir, src: Name, dst: Name, d': Dir) {
    exists t: nat :: Renamed(d, src, dst, t) == Some(d')
  }

  lemma RenameConserves(d: Dir, src: Name, dst: Name, now: nat)
    requires Renamed(d, src, dst, now).Some?
    ensures Conserves(d, Renamed(d, src, dst, now).value)
  {
    var d' := Renamed(d, src, dst, now).value;
    assert d'.entries.Keys == d.entries.Keys - {src} + {dst};
    forall n | n in d.entries ensures exists m :: m in d'.entries && d'.entries[m] == d.entries[n] {
      var m := if n == src then dst else n;
      assert m in d'.entries && d'.entries[m] == d.entries[n];
    }
  }

  class Runners {
    var dir: Dir
    var tick: nat                         // system calls made so far
    const others: (nat, Dir) -> Dir       // what other processes do before each call
    const pathSame: nat -> bool           // the path still leads to the pinned directory
    ghost var moves: seq<(Dir, Dir)>      // what this process did to the directory

    constructor (dir: Dir, others: (nat, Dir) -> Dir, pathSame: nat -> bool)
      ensures this.dir == dir && moves == [] && this.others == others && this.pathSame == pathSame
    {
      this.dir, this.others, this.pathSame, tick, moves := dir, others, pathSame, 0, [];
    }

    ghost predicate Undisturbed() {
      (forall k: nat, d: Dir :: others(k, d) == d) && (forall k: nat :: pathSame(k))
    }

    /** Nothing this process ever did destroyed an entry. */
    ghost predicate Kept()
      reads this
    {
      forall k :: 0 <= k < |moves| ==> Conserves(moves[k].0, moves[k].1)
    }

    method Interfere()
      modifies this`dir, this`tick
      ensures tick == old(tick) + 1 && (Undisturbed() ==> dir == old(dir))
    {
      dir := others(tick, dir);
      tick := tick + 1;
    }

    method Look(n: Name) returns (st: Option<Stat>)
      modifies this`dir, this`tick
      ensures tick > old(tick) && (Undisturbed() ==> dir == old(dir))
      ensures st == StatOf(dir, n)
    {
      Interfere();
      st := StatOf(dir, n);
    }

    method RenameNoReplace(src: Name, dst: Name) returns (ok: bool)
      requires Kept()
      modifies this
      ensures Kept() && tick > old(tick)
      ensures ok ==> |moves| == |old(moves)| + 1 && moves[..|old(moves)|] == old(moves)
      ensures ok ==> moves[|old(moves)|].1 == dir && Renames(moves[|old(moves)|].0, src, dst, dir)
      ensures !ok ==> moves == old(moves) && !(src in dir.entries && dst !in dir.entries)
      ensures Undisturbed() ==> var d := Renamed(old(dir), src, dst, tick);
                ok == d.Some? && dir == if d.Some? then d.value else old(dir)
    {
      Interfere();
      var d := Renamed(dir, src, dst, tick);
      if d.None? { return false; }
      RenameConserves(dir, src, dst, tick);
      moves := moves + [(dir, d.value)];
      dir := d.value;
      ok := true;
    }

    /** `record`: stat, open without following links, compare, read. */
    method Record(n: Name, expected: nat) returns (st: Option<Stat>)
      requires Kept()
      modifies this`dir, this`tick
      ensures Kept() && tick > old(tick) && (Undisturbed() ==> dir == old(dir))
      ensures st.Some? ==> Holds(dir, n, expected) && st == StatOf(dir, n)
      ensures Undisturbed() ==> (st.Some? <==> Holds(dir, n, expected))
    {
      var first := Look(n);
      if first.None? || !SafeRecord(first.value.meta) { return None; }
      Interfere();
      var current := StatOf(dir, n);
      if current.None? || !Same(first.value, current.value) || dir.inodes[current.value.ino].content != expected { return None; }
      st := current;
    }

    /** Both registration files are in order; their first looks are kept. */
    method Registration() returns (state: Option<(Stat, Stat)>)
      requires Kept()
      modifies this`dir, this`tick
      ensures Kept() && tick > old(tick) && (Undisturbed() ==> dir == old(dir))
      ensures Undisturbed() ==>
                && (state.Some? <==> Registered(dir, Runner) && Registered(dir, Credentials))
                && (state.Some? ==> Some(state.value.0) == StatOf(dir, Runner) && Some(state.value.1) == StatOf(dir, Credentials))
    {
      var r := Look(Runner);
      if r.None? || !(r.value.meta.regular && r.value.meta.owned && r.value.meta.nlink == 1 && r.value.meta.private) { return None; }
      var c := Look(Credentials);
      if c.None? || !(c.value.meta.regular && c.value.meta.owned && c.value.meta.nlink == 1 && c.value.meta.private) { return None; }
      state := Some((r.value, c.value));
    }

    /** The names in use, as one listing shows them. */
    method Listing() returns (names: set<Name>)
      modifies this`dir, this`tick
      ensures tick > old(tick) && (Undisturbed() ==> dir == old(dir))
      ensures names == dir.entries.Keys
    {
      Interfere();
      names := dir.entries.Keys;
    }

    /** The checks made on the entry once it has been moved aside. */
    method CheckMoved(token: nat, expected: nat, st: Stat, reg: (Stat, Stat)) returns (moved: Option<Stat>)
      requires Kept()
      modifies this`dir, this`tick
      ensures Kept() && tick > old(tick) && (Undisturbed() ==> dir == old(dir))
      ensures moved.Some? ==> Same(st, moved.value) && moved.value.ino == st.ino && moved.value.meta == st.meta
      ensures Undisturbed() ==>
                && (moved.Some? ==> moved == StatOf(dir, Aside(token)))
                && (moved.Some? <==>
                      && Holds(dir, Aside(token), expected) && Same(st, StatOf(dir, Aside(token)).value)
                      && StatOf(dir, Service).None?
                      && StatOf(dir, Runner).Some? && Same(reg.0, StatOf(dir, Runner).value)
                      && StatOf(dir, Credentials).Some? && Same(reg.1, StatOf(dir, Credentials).value))
    {
      moved := Record(Aside(token), expected);
      if moved.None? || !Same(st, moved.value) { return None; }
      var back := Look(Service);
      if back.Some? || !pathSame(tick) { return None; }
      var r := Look(Runner);
      if r.None? || !Same(reg.0, r.value) { return None; }
      var c := Look(Credentials);
      if c.None? || !Same(reg.1, c.value) { return None; }
    }

    /** What this process did to the directory in one quarantine. It moved the record
        aside and that stands; or it moved nothing; or it moved it aside and back; or
        moving it back was impossible, because the entry is gone or the name is taken. */
    ghost predicate MovedOrBack(before: seq<(Dir, Dir)>, token: nat, done: bool)
      reads this
    {
      var n := |before|;
      && |moves| >= n && moves[..n] == before
      && (|moves| > n ==> Renames(moves[n].0, Service, Aside(token), moves[n].1))
      && (if done then |moves| == n + 1
          else
            || |moves| == n
            || (|moves| == n + 1 && (Aside(token) !in dir.entries || Service in dir.entries))
            || (|moves| == n + 2 && dir == moves[n + 1].1 && Renames(moves[n + 1].0, Aside(token), Service, dir)))
    }

    /** The move itself: aside, checked there, and back again unless the check passes. */
    method MoveAside(token: nat, expected: nat, st: Stat, reg: (Stat, Stat)) returns (proof: Option<Proof>)
      requires Kept()
      requires Undisturbed() ==>
                 && Ready(dir, token, expected) && StatOf(dir, Service) == Some(st)
                 && StatOf(dir, Runner) == Some(reg.0) && StatOf(dir, Credentials) == Some(reg.1)
      modifies this
      ensures Kept() && MovedOrBack(old(moves), token, proof.Some?)
      ensures Undisturbed() ==>
                && proof.Some? && proof.value.token == token && Verified(dir, proof.value, expected)
                && Registered(dir, Runner) && Registered(dir, Credentials)
                && dir.entries == (old(dir).entries - {Service})[Aside(token) := old(dir).entries[Service]]
    {
      hide Renames, Conserves;
      var ok := RenameNoReplace(Service, Aside(token));
      if !ok { return None; }
      var moved := CheckMoved(token, expected, st, reg);
      if moved.None? {
        var rolledBack := RenameNoReplace(Aside(token), Service);
        return None;
      }
      proof := Some(Proof(token, moved.value.ino, moved.value.ctime));
    }

    /** `run` in quarantine mode. */
    method Quarantine(token: nat, expected: nat) returns (proof: Option<Proof>)
      requires Kept()
      modifies this
      ensures Kept() && MovedOrBack(old(moves), token, proof.Some?)
      ensures Undisturbed() && proof.Some? ==>
                && proof.value.token == token && Verified(dir, proof.value, expected)
                && Registered(dir, Runner) && Registered(dir, Credentials)
                && Service in old(dir).entries
                && dir.entries == (old(dir).entries - {Service})[Aside(token) := old(dir).entries[Service]]
      ensures Undisturbed() ==> (proof.Some? <==> Ready(old(dir), token, expected))
      ensures Undisturbed() && proof.None? ==> dir == old(dir)
    {
      var names := Listing();
      if exists n :: n in names && n.Aside? { return None; }
      var reg := Registration();
      if reg.None? { return None; }
      var st := Record(Service, expected);
      if st.None? || !pathSame(tick) { return None; }
      var again := Look(Service);
      if again.None? || !Same(st.value, again.value) { return None; }
      assert Undisturbed() ==> dir == old(dir) && Ready(dir, token, expected);
      hide Verified, Renames, Conserves, Registered, Holds;
      proof := MoveAside(token, expected, st.value, reg.value);
    }

    /** `run` in verify mode. */
    method Verify(proof: Proof, expected: nat) returns (accepted: bool)
      requires Kept()
      modifies this`dir, this`tick
      ensures Kept() && (Undisturbed() ==> dir == old(dir))
      ensures Undisturbed() ==>
                (accepted <==> Verified(dir, proof, expected) && Registered(dir, Runner) && Registered(dir, Credentials))
    {
      var names := Listing();
      if !(Aside(proof.token) in names && forall n :: n in names && n.Aside? ==> n == Aside(proof.token)) { return false; }
      var reg := Registration();
      if reg.None? { return false; }
      var service := Look(Service);
      if service.Some? { return false; }
      var st := Record(Aside(proof.token), expected);
      if st.None? || st.value.ino != proof.ino || st.value.ctime != proof.ctime || !pathSame(tick) { return false; }
      accepted := true;
    }
  }

  /** What a quarantine needs of the directory. */
  ghost predicate Ready(d: Dir, token: nat, expected: nat) {
    NoneAside(d) && Registered(d, Runner) && Registered(d, Credentials) && Holds(d, Service, expected)
  }

  /** Nothing quarantined before; .runner and .credentials regular files of the runner's
      user, with one name and private; and a service record that is a regular file of that
      user, with one name, not writable by others, of at most 160 bytes, that reads as the
      expected unit. */
  lemma ReadyMeans(d: Dir, token: nat, expected: nat)
    ensures Ready(d, token, expected) <==>
      && (forall t :: Aside(t) !in d.entries)
      && (forall n :: n in {Runner, Credentials} ==>
            && n in d.entries && d.entries[n] in d.inodes
            && var m := d.inodes[d.entries[n]].meta;
               m.regular && m.owned && m.nlink == 1 && m.private)
      && Service in d.entries && d.entries[Service] in d.inodes
      && var v := d.inodes[d.entries[Service]];
         v.meta.regular && v.meta.owned && v.meta.nlink == 1 && !v.meta.writable && v.meta.size <= 160 && v.content == expected
  {
  }

  /** What verification looks at. */
  ghost predicate Verified(d: Dir, p: Proof, expected: nat) {
    && OnlyAside(d, p.token) && StatOf(d, Service).None? && Holds(d, Aside(p.token), expected)
    && d.entries[Aside(p.token)] == p.ino && d.inodes[p.ino].ctime == p.ctime
  }

  /** One entry aside, that of the proof: its inode and change time are the printed ones,
      and it is a record in order. */
  lemma VerifiedMeans(d: Dir, p: Proof, expected: nat)
    ensures Verified(d, p, expected) <==>
      && (forall t :: Aside(t) in d.entries <==> t == p.token)
      && StatOf(d, Service).None?
      && d.entries[Aside(p.token)] == p.ino && p.ino in d.inodes
      && var v := d.inodes[p.ino];
         && v.ctime == p.ctime && v.content == expected
         && v.meta.regular && v.meta.owned && v.meta.nlink == 1 && !v.meta.writable && v.meta.size <= 160
  {
  }

  /** Left alone, a record in order is quarantined, verification accepts what was
      printed, the checked inode is the one entry aside, and nothing is destroyed. */
  method QuarantineThenVerify(runners: Runners, token: nat, expected: nat) returns (accepted: bool)
    requires runners.Kept() && runners.Undisturbed()
    modifies runners
    ensures runners.Kept()
    ensures accepted <==> Ready(old(runners.dir), token, expected)
    ensures accepted ==>
              && Service in old(runners.dir).entries
              && runners.dir.entries == (old(runners.dir).entries - {Service})[Aside(token) := old(runners.dir).entries[Service]]
    ensures !accepted ==> runners.dir == old(runners.dir)
  {
    var proof := runners.Quarantine(token, expected);
    if proof.None? { return false; }
    accepted := runners.Verify(proof.value, expected);
  }
}
