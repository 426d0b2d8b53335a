/** A file system of inodes, directory entries, links and mounts. */
module FileTree {
  type Ino = nat
  type Name = nat

  datatype Node =
    | Reg(dev: nat, owner: nat, nlink: nat)
    | Dir(dev: nat, owner: nat, entries: map<Name, Ino>)
    | Sym(dev: nat)
    | Special(dev: nat)

  type Fs = map<Ino, Node>

  /** Where one arrives: an inode, in a mount. */
  datatype Place = Place(ino: Ino, mount: nat)

  /** What is mounted where: on the name of a directory, as seen in one mount, lies
      the root of another mount. The root may be any inode, of the same device or
      not, and lie anywhere: mounted twice, above the directory, or inside itself. */
  type Mounts = m: map<(nat, Ino, Name), Place> | forall k :: k in m ==> m[k].mount != k.0 witness map[]

  /** The name n leads from directory d to x. */
  predicate Edge(fs: Fs, d: Ino, n: Name, x: Ino) {
    d in fs && fs[d].Dir? && n in fs[d].entries && fs[d].entries[n] == x
  }

  /** Opening the name n in directory d, which was itself opened in the given mount. */
  function Look(fs: Fs, mounts: Mounts, mount: nat, d: Ino, n: Name): Place
    requires d in fs && fs[d].Dir? && n in fs[d].entries
  {
    if (mount, d, n) in mounts then mounts[(mount, d, n)] else Place(fs[d].entries[n], mount)
  }

  /** Something is mounted on the name in some mount, so it cannot be removed. */
  predicate Busy(mounts: Mounts, d: Ino, n: Name) {
    exists k :: k in mounts && k.1 == d && k.2 == n
  }

  /** A node that at most one entry refers to. */
  predicate Single(fs: Fs, x: Ino) {
    x in fs && (fs[x].Dir? || (fs[x].Reg? && fs[x].nlink <= 1))
  }

  /** What a kernel guarantees of the entries stored on its devices, whatever is
      mounted on them: they lead to existing inodes, directories form a tree (h is
      any measure that falls along entries), and a link count of one means one
      entry. */
  ghost predicate Consistent(fs: Fs, h: Ino -> nat) {
    && (forall d, n, x {:trigger Edge(fs, d, n, x)} :: Edge(fs, d, n, x) ==> x in fs && h(x) < h(d))
    && (forall d, n, e, m, x {:trigger Edge(fs, d, n, x), Edge(fs, e, m, x)} ::
          Edge(fs, d, n, x) && Edge(fs, e, m, x) && Single(fs, x) ==> d == e && n == m)
    && (forall d, n, x {:trigger Edge(fs, d, n, x)} :: Edge(fs, d, n, x) && fs[x].Reg? ==> fs[x].nlink > 0)
  }

  /** x is stored in the tree under d, d included. */
  ghost predicate Under(fs: Fs, h: Ino -> nat, d: Ino, x: Ino)
    requires Consistent(fs, h)
    decreases h(d)
  {
    x == d || exists n, c {:trigger Edge(fs, d, n, c)} :: Edge(fs, d, n, c) && Under(fs, h, c, x)
  }

  /** The checks on one entry. */
  predicate SafeEntry(fs: Fs, e: Place, mount: nat, dev: nat, uid: nat) {
    && e.ino in fs
    && fs[e.ino].dev == dev && e.mount == mount
    && !fs[e.ino].Special?
    && (fs[e.ino].Reg? ==> fs[e.ino].nlink == 1)
    && (!fs[e.ino].Sym? ==> fs[e.ino].owner == uid)
  }

  /** Every name in the tree under d, opened in the mount of d, passes the checks. */
  ghost predicate SafeTree(fs: Fs, mounts: Mounts, h: Ino -> nat, d: Ino, mount: nat, dev: nat, uid: nat)
    requires Consistent(fs, h)
    decreases h(d)
  {
    forall n, c {:trigger Edge(fs, d, n, c)} :: Edge(fs, d, n, c) ==>
      SafeEntry(fs, Look(fs, mounts, mount, d, n), mount, dev, uid) && SafeTree(fs, mounts, h, c, mount, dev, uid)
  }

  /** What remains of a node once no entry leads to or from it. */
  function Erased(v: Node): Node {
    match v
    case Reg(dev, owner, _) => Reg(dev, owner, 0)
    case Dir(dev, owner, _) => Dir(dev, owner, map[])
    case Sym(dev) => Sym(dev)
    case Special(dev) => Special(dev)
  }

  /** The file system without the entry n of directory d. */
  function Detached(fs: Fs, d: Ino, n: Name): Fs
    requires d in fs && fs[d].Dir? && n in fs[d].entries
  {
    var x := fs[d].entries[n];
    var fs1 := fs[d := fs[d].(entries := fs[d].entries - {n})];
    if x in fs1 && fs1[x].Reg? && fs1[x].nlink > 0 then fs1[x := fs1[x].(nlink := fs1[x].nlink - 1)] else fs1
  }

  /* ------------------------------- Tree lemmas ------------------------------- */

  lemma {:induction false} UnderIsLower(fs: Fs, h: Ino -> nat, d: Ino, x: Ino)
    requires Consistent(fs, h) && Under(fs, h, d, x)
    ensures h(x) <= h(d)
    ensures x != d ==> h(x) < h(d)
    decreases h(d)
  {
    if x != d {
      var n, c :| Edge(fs, d, n, c) && Under(fs, h, c, x);
      UnderIsLower(fs, h, c, x);
    }
  }

  /** Below d, everything but d has a parent below d. */
  lemma {:induction false} ParentUnder(fs: Fs, h: Ino -> nat, d: Ino, x: Ino) returns (p: Ino, n: Name)
    requires Consistent(fs, h) && Under(fs, h, d, x) && x != d
    ensures Edge(fs, p, n, x) && Under(fs, h, d, p)
    decreases h(d)
  {
    var m, c :| Edge(fs, d, m, c) && Under(fs, h, c, x);
    if x == c {
      p, n := d, m;
    } else {
      p, n := ParentUnder(fs, h, c, x);
    }
  }

  /** Trees under two different entries of a directory share no single node. */
  lemma {:induction false} SiblingsDisjoint(fs: Fs, h: Ino -> nat, d: Ino, n: Name, c: Ino, m: Name, e: Ino, x: Ino)
    requires Consistent(fs, h) && Edge(fs, d, n, c) && Edge(fs, d, m, e) && n != m
    requires Under(fs, h, c, x) && Under(fs, h, e, x)
    ensures !Single(fs, x)
    decreases h(d) - h(x)
  {
    UnderIsLower(fs, h, c, x);
    UnderIsLower(fs, h, e, x);
    if Single(fs, x) {
      if x != c && x != e {
        var p, a := ParentUnder(fs, h, c, x);
        var q, b := ParentUnder(fs, h, e, x);
        assert p == q;
        SiblingsDisjoint(fs, h, d, n, c, m, e, p);
      } else if x != e {
        var q, b := ParentUnder(fs, h, e, x);
        assert q == d;
        UnderIsLower(fs, h, e, d);
      } else if x != c {
        var p, a := ParentUnder(fs, h, c, x);
        assert p == d;
        UnderIsLower(fs, h, c, d);
      }
    }
  }

  /** A tree only depends on the nodes in it. */
  lemma {:induction false} UnderFrame(fs: Fs, fs': Fs, h: Ino -> nat, d: Ino, x: Ino)
    requires Consistent(fs, h) && Consistent(fs', h)
    requires forall y :: Under(fs, h, d, y) && y in fs && fs[y].Dir? ==> y in fs' && fs'[y] == fs[y]
    requires d in fs && d in fs' && (fs[d].Dir? <==> fs'[d].Dir?)
    requires forall y :: y in fs <==> y in fs'
    requires forall y :: y in fs ==> (fs[y].Dir? <==> fs'[y].Dir?)
    ensures Under(fs, h, d, x) <==> Under(fs', h, d, x)
    decreases h(d)
  {
    forall n, c ensures Edge(fs, d, n, c) <==> Edge(fs', d, n, c) {
      assert Under(fs, h, d, d);
    }
    forall n, c | Edge(fs, d, n, c) ensures Under(fs, h, c, x) <==> Under(fs', h, c, x) {
      forall y | Under(fs, h, c, y) ensures Under(fs, h, d, y) {}
      UnderFrame(fs, fs', h, c, x);
    }
    if Under(fs', h, d, x) && x != d {
      var n, c :| Edge(fs', d, n, c) && Under(fs', h, c, x);
      assert Edge(fs, d, n, c);
    }
    if Under(fs, h, d, x) && x != d {
      var n, c :| Edge(fs, d, n, c) && Under(fs, h, c, x);
      assert Edge(fs', d, n, c);
    }
  }

  lemma {:induction false} SafeFrame(fs: Fs, fs': Fs, mounts: Mounts, h: Ino -> nat, d: Ino, mount: nat, dev: nat, uid: nat)
    requires Consistent(fs, h) && Consistent(fs', h) && SafeTree(fs, mounts, h, d, mount, dev, uid)
    requires forall y :: Under(fs, h, d, y) && y in fs ==> y in fs' && fs'[y] == fs[y]
    requires d in fs
    ensures SafeTree(fs', mounts, h, d, mount, dev, uid)
    decreases h(d)
  {
    forall n, c | Edge(fs', d, n, c)
      ensures SafeEntry(fs', Look(fs', mounts, mount, d, n), mount, dev, uid) && SafeTree(fs', mounts, h, c, mount, dev, uid)
    {
      assert Under(fs, h, d, d);
      assert Edge(fs, d, n, c);
      assert Under(fs, h, c, c) && Under(fs, h, d, c);
      forall y | Under(fs, h, c, y) ensures Under(fs, h, d, y) {}
      assert Look(fs, mounts, mount, d, n) == Place(c, mount);
      SafeFrame(fs, fs', mounts, h, c, mount, dev, uid);
    }
  }
}
