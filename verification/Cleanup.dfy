/**
 * Scoped deletion of a runner directory: one pass that only checks, then one
 * that deletes. Nothing outside the pinned tree is ever touched.
 */
module Cleanup {
  import opened FileTree

  datatype Status = Fine | Unsafe | OsFailure

  /** x lies under one of the named entries of d. */
  ghost predicate UnderSome(fs: Fs, h: Ino -> nat, d: Ino, names: set<Name>, x: Ino)
    requires Consistent(fs, h)
  {
    exists n, c {:trigger Edge(fs, d, n, c)} :: n in names && Edge(fs, d, n, c) && Under(fs, h, c, x)
  }

  /** fs is fs0 after the named entries of d and everything under them are gone. */
  ghost predicate Pruned(fs0: Fs, fs: Fs, h: Ino -> nat, d: Ino, names: set<Name>)
    requires Consistent(fs0, h)
  {
    && d in fs0 && fs0[d].Dir?
    && fs.Keys == fs0.Keys
    && fs[d] == fs0[d].(entries := fs0[d].entries - names)
    && forall x {:trigger fs[x]} :: x in fs0 && x != d ==>
         fs[x] == if UnderSome(fs0, h, d, names, x) then Erased(fs0[x]) else fs0[x]
  }

  /** fs is fs0 with everything under d erased. */
  ghost predicate Emptied(fs0: Fs, fs: Fs, h: Ino -> nat, d: Ino)
    requires Consistent(fs0, h)
  {
    && fs.Keys == fs0.Keys
    && forall x {:trigger fs[x]} :: x in fs0 ==> fs[x] == if Under(fs0, h, d, x) then Erased(fs0[x]) else fs0[x]
  }

  /** Nothing outside the tree under d differs. */
  ghost predicate OutsideSame(fs0: Fs, fs: Fs, h: Ino -> nat, d: Ino)
    requires Consistent(fs0, h)
  {
    && fs.Keys == fs0.Keys
    && forall x {:trigger fs[x]} :: x in fs0 && !Under(fs0, h, d, x) ==> fs[x] == fs0[x]
  }

  /** Something in the tree under d cannot be removed because of a mount on it. */
  ghost predicate BusyUnder(fs: Fs, mounts: Mounts, h: Ino -> nat, d: Ino)
    requires Consistent(fs, h)
  {
    exists k :: k in mounts && Under(fs, h, d, k.1)
  }

  lemma {:induction false} SafeUnder(fs: Fs, mounts: Mounts, h: Ino -> nat, d: Ino, mount: nat, dev: nat, uid: nat, x: Ino)
    requires Consistent(fs, h) && SafeTree(fs, mounts, h, d, mount, dev, uid) && Under(fs, h, d, x) && x != d
    ensures x in fs && !fs[x].Special? && (fs[x].Reg? ==> fs[x].nlink == 1)
    decreases h(d)
  {
    var n, c :| Edge(fs, d, n, c) && Under(fs, h, c, x);
    assert Look(fs, mounts, mount, d, n) == Place(c, mount);
    if x != c { SafeUnder(fs, mounts, h, c, mount, dev, uid, x); }
  }

  /** Pruning some entries leaves the tree under any other entry as it was. */
  lemma PrunedLeavesSibling(fs0: Fs, fs: Fs, mounts: Mounts, h: Ino -> nat, d: Ino, names: set<Name>, n: Name, c: Ino,
                            mount: nat, dev: nat, uid: nat)
    requires Consistent(fs0, h) && Consistent(fs, h) && Pruned(fs0, fs, h, d, names)
    requires SafeTree(fs0, mounts, h, d, mount, dev, uid) && Edge(fs0, d, n, c) && n !in names
    ensures forall y :: y in fs0 && Under(fs0, h, c, y) ==> fs[y] == fs0[y]
    ensures forall y :: Under(fs, h, c, y) <==> Under(fs0, h, c, y)
    ensures c in fs && fs[c] == fs0[c] && (fs[c].Dir? ==> SafeTree(fs, mounts, h, c, mount, dev, uid))
  {
    forall y | y in fs0 && Under(fs0, h, c, y) ensures fs[y] == fs0[y] {
      UnderIsLower(fs0, h, c, y);
      if UnderSome(fs0, h, d, names, y) {
        var m, e :| m in names && Edge(fs0, d, m, e) && Under(fs0, h, e, y);
        SiblingsDisjoint(fs0, h, d, n, c, m, e, y);
        SafeUnder(fs0, mounts, h, d, mount, dev, uid, y);
      }
    }
    assert Under(fs0, h, c, c);
    forall y ensures Under(fs, h, c, y) <==> Under(fs0, h, c, y) {
      forall z ensures z in fs0 ==> (fs[z].Dir? <==> fs0[z].Dir?) {}
      UnderFrame(fs0, fs, h, c, y);
    }
    assert Look(fs0, mounts, mount, d, n) == Place(c, mount);
    SafeFrame(fs0, fs, mounts, h, c, mount, dev, uid);
  }

  lemma DetachedKeeps(fs: Fs, h: Ino -> nat, d: Ino, n: Name)
    requires Consistent(fs, h) && d in fs && fs[d].Dir? && n in fs[d].entries
    requires var x := fs[d].entries[n]; x in fs && (fs[x].Reg? ==> fs[x].nlink == 1)
    ensures Consistent(Detached(fs, d, n), h)
  {
    var fs' := Detached(fs, d, n);
    var x := fs[d].entries[n];
    assert Edge(fs, d, n, x);
    forall a, m, y ensures Edge(fs', a, m, y) <==> Edge(fs, a, m, y) && !(a == d && m == n) {}
    forall a, m, y | Edge(fs', a, m, y) && fs'[y].Reg? ensures fs'[y].nlink > 0 {
      assert Edge(fs, a, m, y);
    }
  }

  lemma PruneOneMore(fs0: Fs, fs1: Fs, fs2: Fs, h: Ino -> nat, d: Ino, names: set<Name>, n: Name, c: Ino)
    requires Consistent(fs0, h) && Pruned(fs0, fs1, h, d, names)
    requires Edge(fs0, d, n, c) && n !in names
    requires forall y :: y in fs0 && Under(fs0, h, c, y) ==> fs1[y] == fs0[y]
    requires fs2.Keys == fs0.Keys && fs2[d] == fs1[d].(entries := fs1[d].entries - {n})
    requires forall y :: y in fs0 && y != d ==>
               fs2[y] == if Under(fs0, h, c, y) then Erased(fs0[y]) else fs1[y]
    ensures Pruned(fs0, fs2, h, d, names + {n})
  {
    assert fs2[d].entries == fs0[d].entries - (names + {n});
    forall x | x in fs0 && x != d
      ensures fs2[x] == if UnderSome(fs0, h, d, names + {n}, x) then Erased(fs0[x]) else fs0[x]
    {
      if Under(fs0, h, c, x) {
        assert UnderSome(fs0, h, d, names + {n}, x);
      } else {
        if UnderSome(fs0, h, d, names + {n}, x) {
          var m, e :| m in names + {n} && Edge(fs0, d, m, e) && Under(fs0, h, e, x);
          assert m in names;
        }
        if UnderSome(fs0, h, d, names, x) {
          var m, e :| m in names && Edge(fs0, d, m, e) && Under(fs0, h, e, x);
          assert m in names + {n};
        }
      }
    }
  }

  /** An entry and everything under it have gone. */
  lemma EntryGone(fs0: Fs, fs1: Fs, fs2: Fs, h: Ino -> nat, d: Ino, names: set<Name>, n: Name, c: Ino)
    requires Consistent(fs0, h) && Consistent(fs1, h) && Pruned(fs0, fs1, h, d, names)
    requires Edge(fs0, d, n, c) && n !in names && c in fs1
    requires forall y :: y in fs0 && Under(fs0, h, c, y) ==> fs1[y] == fs0[y]
    requires forall y :: Under(fs1, h, c, y) <==> Under(fs0, h, c, y)
    requires if fs1[c].Dir? then Emptied(fs1, fs2, h, c)
             else fs2 == fs1 && !fs1[c].Special? && (fs1[c].Reg? ==> fs1[c].nlink == 1)
    ensures d in fs2 && fs2[d] == fs1[d] && n in fs2[d].entries && fs2[d].entries[n] == c
    ensures Pruned(fs0, Detached(fs2, d, n), h, d, names + {n})
  {
    assert !Under(fs0, h, c, d) by { if Under(fs0, h, c, d) { UnderIsLower(fs0, h, c, d); } }
    assert Under(fs0, h, c, c);
    PruneOneMore(fs0, fs1, Detached(fs2, d, n), h, d, names, n, c);
  }

  /** However far the deletion of an entry came, it stayed inside the tree. */
  lemma EntryHalfGone(fs0: Fs, fs1: Fs, fs2: Fs, h: Ino -> nat, d: Ino, names: set<Name>, n: Name, c: Ino)
    requires Consistent(fs0, h) && Consistent(fs1, h) && Pruned(fs0, fs1, h, d, names)
    requires Edge(fs0, d, n, c)
    requires forall y :: Under(fs1, h, c, y) <==> Under(fs0, h, c, y)
    requires OutsideSame(fs1, fs2, h, c)
    ensures OutsideSame(fs0, fs2, h, d)
  {
    PrunedOutside(fs0, fs1, h, d, names);
  }

  lemma PrunedAll(fs0: Fs, fs: Fs, h: Ino -> nat, d: Ino, names: set<Name>)
    requires Consistent(fs0, h) && Pruned(fs0, fs, h, d, names) && names == fs0[d].entries.Keys
    ensures Emptied(fs0, fs, h, d)
  {
    assert fs0[d].entries - names == map[];
    assert Under(fs0, h, d, d);
    forall x | x in fs0 ensures fs[x] == if Under(fs0, h, d, x) then Erased(fs0[x]) else fs0[x] {
      if x != d {
        if Under(fs0, h, d, x) {
          var n, c :| Edge(fs0, d, n, c) && Under(fs0, h, c, x);
          assert UnderSome(fs0, h, d, names, x);
        }
      }
    }
  }

  lemma NothingPruned(fs: Fs, h: Ino -> nat, d: Ino)
    requires Consistent(fs, h) && d in fs && fs[d].Dir?
    ensures Pruned(fs, fs, h, d, {}) && OutsideSame(fs, fs, h, d)
  {
    assert fs[d].entries - {} == fs[d].entries;
  }

  lemma PrunedOutside(fs0: Fs, fs: Fs, h: Ino -> nat, d: Ino, names: set<Name>)
    requires Consistent(fs0, h) && Pruned(fs0, fs, h, d, names)
    ensures OutsideSame(fs0, fs, h, d)
  {
    assert Under(fs0, h, d, d);
  }

  class FileSystem {
    const mounts: Mounts
    var fs: Fs
    var luck: nat      // deletions that succeed before one fails

    constructor (mounts: Mounts, fs: Fs, luck: nat)
      ensures this.mounts == mounts && this.fs == fs && this.luck == luck
    {
      this.mounts, this.fs, this.luck := mounts, fs, luck;
    }

    /** The names in a directory, in any order. */
    method ListDir(d: Ino) returns (names: seq<Name>)
      requires d in fs && fs[d].Dir?
      ensures forall n :: n in names <==> n in fs[d].entries
      ensures forall j, k :: 0 <= j < k < |names| ==> names[j] != names[k]
    {
      names := [];
      var rest := fs[d].entries.Keys;
      while rest != {}
        invariant rest <= fs[d].entries.Keys
        invariant forall n :: n in names <==> n in fs[d].entries.Keys - rest
        invariant forall j, k :: 0 <= j < k < |names| ==> names[j] != names[k]
        decreases rest
      {
        var n :| n in rest;
        assert n !in names;
        names := names + [n];
        rest := rest - {n};
      }
    }

    /** unlink or rmdir of one entry; a name something is mounted on is busy. */
    method Delete(d: Ino, n: Name) returns (ok: bool)
      requires d in fs && fs[d].Dir? && n in fs[d].entries
      modifies this
      ensures fs == if ok then Detached(old(fs), d, n) else old(fs)
      ensures ok ==> luck == old(luck) - 1
      ensures !ok && luck > 0 && !Busy(mounts, d, n) ==>
                var x := old(fs)[d].entries[n];
                x in old(fs) && old(fs)[x].Dir? && old(fs)[x].entries != map[]
    {
      var x := fs[d].entries[n];
      if luck == 0 || Busy(mounts, d, n) || (x in fs && fs[x].Dir? && fs[x].entries != map[]) { return false; }
      luck := luck - 1;
      fs := Detached(fs, d, n);
      return true;
    }

    /** The check pass: it never changes anything and passes exactly the safe trees. */
    method CheckWalk(d: Ino, mount: nat, dev: nat, uid: nat, ghost h: Ino -> nat) returns (safe: bool)
      requires Consistent(fs, h) && d in fs && fs[d].Dir?
      ensures safe <==> SafeTree(fs, mounts, h, d, mount, dev, uid)
      decreases h(d)
    {
      var names := ListDir(d);
      for k := 0 to |names|
        invariant forall j :: 0 <= j < k ==>
                    && SafeEntry(fs, Look(fs, mounts, mount, d, names[j]), mount, dev, uid)
                    && SafeTree(fs, mounts, h, fs[d].entries[names[j]], mount, dev, uid)
      {
        var e := Look(fs, mounts, mount, d, names[k]);
        assert Edge(fs, d, names[k], fs[d].entries[names[k]]);
        if !SafeEntry(fs, e, mount, dev, uid) { return false; }
        if fs[e.ino].Dir? {
          var ok := CheckWalk(e.ino, mount, dev, uid, h);
          if !ok { return false; }
        } else {
          assert SafeTree(fs, mounts, h, e.ino, mount, dev, uid);
        }
      }
      forall n, c | Edge(fs, d, n, c)
        ensures SafeEntry(fs, Look(fs, mounts, mount, d, n), mount, dev, uid) && SafeTree(fs, mounts, h, c, mount, dev, uid)
      {
        assert n in names;
      }
      return true;
    }

    /** One entry of the deleting pass: its tree, then the entry itself. */
    method DeleteEntry(d: Ino, n: Name, mount: nat, dev: nat, uid: nat,
                       ghost h: Ino -> nat, ghost fs0: Fs, ghost done: set<Name>) returns (st: Status)
      requires Consistent(fs0, h) && Consistent(fs, h) && Pruned(fs0, fs, h, d, done)
      requires SafeTree(fs0, mounts, h, d, mount, dev, uid)
      requires n in fs0[d].entries && n !in done
      modifies this
      ensures Consistent(fs, h) && OutsideSame(fs0, fs, h, d)
      ensures st in {Fine, OsFailure}
      ensures st.Fine? ==> Pruned(fs0, fs, h, d, done + {n})
      ensures st.OsFailure? ==> luck == 0 || BusyUnder(fs0, mounts, h, d)
      decreases h(d), 0
    {
      var e := Look(fs, mounts, mount, d, n);
      ghost var stored := fs[d].entries[n];
      assert Edge(fs0, d, n, stored);
      assert SafeEntry(fs0, Look(fs0, mounts, mount, d, n), mount, dev, uid);
      var c := e.ino;
      assert c == stored;
      ghost var fs1 := fs;
      PrunedLeavesSibling(fs0, fs, mounts, h, d, done, n, c, mount, dev, uid);
      if !SafeEntry(fs, e, mount, dev, uid) { return Unsafe; }
      if fs[c].Dir? {
        st := DeleteWalk(c, mount, dev, uid, h);
        EntryHalfGone(fs0, fs1, fs, h, d, done, n, c);
        if !st.Fine? { return; }
      } else {
        PrunedOutside(fs0, fs, h, d, done);
      }
      EntryGone(fs0, fs1, fs, h, d, done, n, c);
      DetachedKeeps(fs, h, d, n);
      assert fs[c].Dir? ==> fs[c] == Erased(fs1[c]) by { assert Under(fs1, h, c, c); }
      var ok := Delete(d, n);
      if !ok {
        assert Under(fs0, h, d, d);
        return OsFailure;
      }
      PrunedOutside(fs0, fs, h, d, done + {n});
      st := Fine;
    }

    /** The deleting pass over a checked tree. It only fails when a deletion
        fails, and even then nothing outside the tree has changed. */
    method DeleteWalk(d: Ino, mount: nat, dev: nat, uid: nat, ghost h: Ino -> nat) returns (st: Status)
      requires Consistent(fs, h) && d in fs && fs[d].Dir? && SafeTree(fs, mounts, h, d, mount, dev, uid)
      modifies this
      ensures Consistent(fs, h) && OutsideSame(old(fs), fs, h, d)
      ensures st in {Fine, OsFailure}
      ensures st.Fine? ==> Emptied(old(fs), fs, h, d)
      ensures st.OsFailure? ==> luck == 0 || BusyUnder(old(fs), mounts, h, d)
      decreases h(d), 1
    {
      ghost var fs0 := fs;
      var names := ListDir(d);
      ghost var done: set<Name> := {};
      NothingPruned(fs, h, d);
      hide Pruned, OutsideSame, Emptied, BusyUnder, Consistent, SafeTree;
      for k := 0 to |names|
        invariant Consistent(fs, h) && Pruned(fs0, fs, h, d, done)
        invariant forall n :: n in done <==> n in names[..k]
      {
        assert names[..k + 1] == names[..k] + [names[k]];
        st := DeleteEntry(d, names[k], mount, dev, uid, h, fs0, done);
        if !st.Fine? { return; }
        done := done + {names[k]};
      }
      assert names[..|names|] == names;
      assert done == fs0[d].entries.Keys;
      PrunedAll(fs0, fs, h, d, done);
      PrunedOutside(fs0, fs, h, d, done);
      st := Fine;
    }

    /** Removes the directory `name` of `base` if it is the pinned one and every
        entry in it passes the checks; `scoped` is the check of the path against
        the repository, `trusted` the mode check of the directory. */
    method Cleanup(base: Ino, name: Name, baseMount: nat, uid: nat, device: nat, inode: Ino,
                   scoped: bool, trusted: bool, ghost h: Ino -> nat) returns (r: Outcome)
      requires Consistent(fs, h) && base in fs && fs[base].Dir?
      modifies this
      ensures r.Rejected? <==> !(scoped && trusted && Admitted(old(fs), mounts, h, base, name, baseMount, uid, device, inode))
      ensures r.Rejected? ==> fs == old(fs)
      ensures r.Removed? ==> Pruned(old(fs), fs, h, base, {name})
      ensures r.Failed? ==> OutsideSame(old(fs), fs, h, inode)
      ensures r.Failed? ==> luck == 0 || Busy(mounts, base, name) || BusyUnder(old(fs), mounts, h, inode)
    {
      ghost var fs0 := fs;
      if !scoped || name !in fs[base].entries { return Rejected; }
      var e := Look(fs, mounts, baseMount, base, name);
      var target := e.ino;
      assert Edge(fs, base, name, fs[base].entries[name]);
      if target !in fs { return Rejected; }
      if !fs[target].Dir? || fs[target].owner != uid || !trusted { return Rejected; }
      if fs[target].dev != device || target != inode { return Rejected; }
      if fs[target].dev != fs[base].dev || e.mount != baseMount { return Rejected; }
      var dev := fs[target].dev;
      var safe := CheckWalk(target, e.mount, dev, uid, h);
      if !safe { return Rejected; }
      assert fs[base].entries - {} == fs[base].entries;
      assert Pruned(fs0, fs, h, base, {});
      var st := DeleteWalk(target, e.mount, dev, uid, h);
      if !st.Fine? { return Failed; }
      EntryGone(fs0, fs0, fs, h, base, {}, name, target);
      assert fs[target] == Erased(fs0[target]) by { assert Under(fs0, h, target, target); }
      assert {} + {name} == {name};
      var ok := Delete(base, name);
      r := if ok then Removed else Failed;
    }
  }

  datatype Outcome = Rejected | Failed | Removed

  /** The pinned directory is where the caller says and its tree is safe. */
  ghost predicate Admitted(fs: Fs, mounts: Mounts, h: Ino -> nat, base: Ino, name: Name, baseMount: nat, uid: nat, device: nat, inode: Ino)
    requires Consistent(fs, h) && base in fs && fs[base].Dir?
  {
    && Edge(fs, base, name, inode) && inode in fs
    && Look(fs, mounts, baseMount, base, name) == Place(inode, baseMount)
    && fs[inode].Dir? && fs[inode].owner == uid
    && fs[inode].dev == device == fs[base].dev
    && SafeTree(fs, mounts, h, inode, baseMount, device, uid)
  }

  /** What may be removed: a symbolic link, whoever owns it and wherever it leads; a
      directory of the runner's user; a file of that user with one name. */
  predicate Removable(fs: Fs, e: Place, mount: nat, dev: nat, uid: nat) {
    && e.mount == mount && e.ino in fs && fs[e.ino].dev == dev
    && match fs[e.ino]
       case Sym(_) => true
       case Dir(_, owner, _) => owner == uid
       case Reg(_, owner, nlink) => owner == uid && nlink == 1
       case Special(_) => false
  }

  /** A tree is admitted exactly when everything any name in it leads to is removable. */
  lemma {:induction false} TreeIsRemovable(fs: Fs, mounts: Mounts, h: Ino -> nat, d: Ino, mount: nat, dev: nat, uid: nat)
    requires Consistent(fs, h)
    ensures SafeTree(fs, mounts, h, d, mount, dev, uid) <==>
      forall p, n :: Under(fs, h, d, p) && p in fs && fs[p].Dir? && n in fs[p].entries ==>
        Removable(fs, Look(fs, mounts, mount, p, n), mount, dev, uid)
    decreases h(d)
  {
    if SafeTree(fs, mounts, h, d, mount, dev, uid) {
      forall p, n | Under(fs, h, d, p) && p in fs && fs[p].Dir? && n in fs[p].entries
        ensures Removable(fs, Look(fs, mounts, mount, p, n), mount, dev, uid)
      {
        if p == d {
          assert Edge(fs, d, n, fs[d].entries[n]);
        } else {
          var m, c :| Edge(fs, d, m, c) && Under(fs, h, c, p);
          TreeIsRemovable(fs, mounts, h, c, mount, dev, uid);
        }
      }
    }
    if forall p, n :: Under(fs, h, d, p) && p in fs && fs[p].Dir? && n in fs[p].entries ==>
         Removable(fs, Look(fs, mounts, mount, p, n), mount, dev, uid)
    {
      forall n, c | Edge(fs, d, n, c)
        ensures SafeEntry(fs, Look(fs, mounts, mount, d, n), mount, dev, uid) && SafeTree(fs, mounts, h, c, mount, dev, uid)
      {
        assert Under(fs, h, d, d);
        assert Removable(fs, Look(fs, mounts, mount, d, n), mount, dev, uid);
        forall p | Under(fs, h, c, p) ensures Under(fs, h, d, p) {}
        TreeIsRemovable(fs, mounts, h, c, mount, dev, uid);
      }
    }
  }

  /** A name anywhere in the tree that leads to a hard-linked file, to a special
      file, to another device or owner, or into another mount, of the same device
      or not, makes the whole cleanup inadmissible. */
  lemma {:induction false} LinkedFilesAreSpared(fs: Fs, mounts: Mounts, h: Ino -> nat, d: Ino, mount: nat, dev: nat, uid: nat, p: Ino, n: Name)
    requires Consistent(fs, h) && Under(fs, h, d, p) && p in fs && fs[p].Dir? && n in fs[p].entries
    requires var e := Look(fs, mounts, mount, p, n);
      e.mount != mount ||
      (e.ino in fs &&
        (fs[e.ino].Special? || fs[e.ino].dev != dev || (fs[e.ino].Reg? && fs[e.ino].nlink != 1)
         || (!fs[e.ino].Sym? && !fs[e.ino].Special? && fs[e.ino].owner != uid)))
    ensures !SafeTree(fs, mounts, h, d, mount, dev, uid)
    decreases h(d)
  {
    if p == d {
      assert Edge(fs, d, n, fs[d].entries[n]);
    } else {
      var m, c :| Edge(fs, d, m, c) && Under(fs, h, c, p);
      LinkedFilesAreSpared(fs, mounts, h, c, mount, dev, uid, p, n);
    }
  }

  /** A mount on any name in the tree, or on the runner directory itself, whatever
      it shows: the directory, one of its ancestors, anything on the same device.
      The cleanup rejects, and so changes nothing. */
  lemma MountsReject(fs: Fs, mounts: Mounts, h: Ino -> nat, base: Ino, name: Name, baseMount: nat, uid: nat,
                     device: nat, inode: Ino, p: Ino, n: Name)
    requires Consistent(fs, h) && base in fs && fs[base].Dir? && (baseMount, p, n) in mounts
    requires (p == base && n == name) || (Under(fs, h, inode, p) && p in fs && fs[p].Dir? && n in fs[p].entries)
    ensures !Admitted(fs, mounts, h, base, name, baseMount, uid, device, inode)
  {
    if Under(fs, h, inode, p) && p in fs && fs[p].Dir? && n in fs[p].entries {
      LinkedFilesAreSpared(fs, mounts, h, inode, baseMount, device, uid, p, n);
    }
  }

  /** An admitted tree is one mount: every name in it leads where it is stored. */
  lemma AdmittedIsOneMount(fs: Fs, mounts: Mounts, h: Ino -> nat, base: Ino, name: Name, baseMount: nat, uid: nat,
                           device: nat, inode: Ino, p: Ino, n: Name)
    requires Consistent(fs, h) && base in fs && fs[base].Dir?
    requires Admitted(fs, mounts, h, base, name, baseMount, uid, device, inode)
    requires Under(fs, h, inode, p) && p in fs && fs[p].Dir? && n in fs[p].entries
    ensures Look(fs, mounts, baseMount, p, n) == Place(fs[p].entries[n], baseMount)
  {
    if (baseMount, p, n) in mounts {
      MountsReject(fs, mounts, h, base, name, baseMount, uid, device, inode, p, n);
    }
  }

  /** A runner directory mounted inside itself: one directory is reached through two
      names, in two mounts, and without end. The kernel's guarantees hold, and the
      cleanup rejects. */
  lemma SelfMountRejects(h: Ino -> nat)
    requires h(0) == 2 && h(1) == 1 && h(2) == 0
    ensures var fs: Fs := map[0 := Dir(0, 0, map[0 := 1]), 1 := Dir(0, 0, map[0 := 2]), 2 := Dir(0, 0, map[])];
      var mounts: Mounts := map[(0, 1, 0) := Place(1, 1)];
      && Consistent(fs, h)
      && Look(fs, mounts, 0, 0, 0) == Place(1, 0) && Look(fs, mounts, 0, 1, 0) == Place(1, 1)
      && !Admitted(fs, mounts, h, 0, 0, 0, 0, 0, 1)
  {
    var fs: Fs := map[0 := Dir(0, 0, map[0 := 1]), 1 := Dir(0, 0, map[0 := 2]), 2 := Dir(0, 0, map[])];
    var mounts: Mounts := map[(0, 1, 0) := Place(1, 1)];
    assert (0, 1, 0) in mounts;
    hide SafeTree, Admitted;
    assert Under(fs, h, 1, 1);
    MountsReject(fs, mounts, h, 0, 0, 0, 0, 0, 1, 1, 0);
  }
}
