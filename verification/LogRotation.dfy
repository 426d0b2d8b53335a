/** Rotated log files: their order, retention and eviction. */
module LogRotation {
  import opened LogFiles
  import opened Octets

  const RETENTION: nat := 14 * 86400 * 1000000   // microseconds

  /** A rotated file; its name holds the stamp and a random token. */
  datatype Rotated = Rotated(stamp: nat, token: nat, lines: seq<Bytes>)

  /** The order of `sorted(closed)`. */
  predicate Before(a: Rotated, b: Rotated) {
    a.stamp < b.stamp || (a.stamp == b.stamp && a.token <= b.token)
  }

  predicate Sorted(fs: seq<Rotated>) {
    forall j, k :: 0 <= j < k < |fs| ==> Before(fs[j], fs[k])
  }

  predicate Chronological(fs: seq<Rotated>) {
    forall j, k :: 0 <= j < k < |fs| ==> fs[j].stamp < fs[k].stamp
  }

  function Lines(fs: seq<Rotated>): seq<Bytes>
    decreases |fs|
  {
    if fs == [] then [] else fs[0].lines + Lines(fs[1..])
  }

  function Total(fs: seq<Rotated>): nat
    decreases |fs|
  {
    if fs == [] then 0 else Size(fs[0].lines) + Total(fs[1..])
  }

  lemma {:induction false} LinesSnoc(fs: seq<Rotated>, f: Rotated)
    ensures Lines(fs + [f]) == Lines(fs) + f.lines
    ensures Total(fs + [f]) == Total(fs) + Size(f.lines)
    decreases |fs|
  {
    if fs == [] {
      assert fs + [f] == [f];
      assert Lines([f]) == f.lines + Lines([]);
    } else {
      LinesSnoc(fs[1..], f);
      assert (fs + [f])[1..] == fs[1..] + [f];
    }
  }

  /** s is what remains of t when a prefix is dropped. */
  ghost predicate Suffix<T>(s: seq<T>, t: seq<T>) {
    |s| <= |t| && s == t[|t| - |s|..]
  }

  lemma SuffixRefl<T>(s: seq<T>)
    ensures Suffix(s, s)
  {
    assert s[|s| - |s|..] == s;
  }

  lemma SuffixTrans<T>(a: seq<T>, b: seq<T>, c: seq<T>)
    requires Suffix(a, b) && Suffix(b, c)
    ensures Suffix(a, c)
  {
  }

  lemma SuffixAppend<T>(a: seq<T>, b: seq<T>, x: seq<T>)
    requires Suffix(a, b)
    ensures Suffix(a + x, b + x)
  {
  }

  lemma {:induction false} LinesSuffix(fs: seq<Rotated>, k: nat)
    requires k <= |fs|
    ensures Suffix(Lines(fs[k..]), Lines(fs))
    decreases k
  {
    if k == 0 {
      assert fs[0..] == fs;
    } else {
      LinesSuffix(fs[1..], k - 1);
      assert fs[1..][k-1..] == fs[k..];
    }
  }

  /* ------------------------- Retention and eviction -------------------------- */

  /** The files that survive retention. */
  function Retained(fs: seq<Rotated>, now: nat): seq<Rotated>
    decreases |fs|
  {
    if fs == [] then []
    else if now > fs[0].stamp + RETENTION then Retained(fs[1..], now)
    else [fs[0]] + Retained(fs[1..], now)
  }

  /** The files that survive eviction, `others` being the bytes outside them. */
  function Fitting(fs: seq<Rotated>, others: nat): seq<Rotated>
    decreases |fs|
  {
    if fs == [] || others + Total(fs) <= MAX_TOTAL then fs else Fitting(fs[1..], others)
  }

  /** Retention over chronological files drops exactly the expired ones, and they
      come first. */
  lemma {:induction false} RetainedIsSuffix(fs: seq<Rotated>, now: nat) returns (k: nat)
    requires Chronological(fs)
    ensures k <= |fs| && Retained(fs, now) == fs[k..]
    ensures forall j :: 0 <= j < |fs| ==> (j < k <==> now > fs[j].stamp + 14 * 86400 * 1000000)
    decreases |fs|
  {
    if fs == [] {
      k := 0;
      return;
    }
    var rest := fs[1..];
    assert forall j {:trigger fs[j]} :: 0 < j < |fs| ==> fs[j] == rest[j - 1];
    assert Chronological(rest);
    var m := RetainedIsSuffix(rest, now);
    assert Retained(fs, now) == if now > fs[0].stamp + RETENTION then Retained(rest, now) else [fs[0]] + Retained(rest, now);
    hide Retained;
    if now > fs[0].stamp + RETENTION {
      k := m + 1;
      assert rest[m..] == fs[k..];
    } else {
      k := 0;
      assert m == 0 by {
        if rest != [] { assert fs[0].stamp < fs[1].stamp; }
      }
      assert fs == [fs[0]] + rest[0..];
    }
  }

  /** Eviction keeps the longest suffix that fits: it drops no more than it must,
      and when it keeps nothing that fits there was nothing left to drop. */
  lemma {:induction false} FittingIsLongest(fs: seq<Rotated>, others: nat) returns (k: nat)
    ensures k <= |fs| && Fitting(fs, others) == fs[k..]
    ensures others + Total(fs[k..]) <= 100 * 1024 * 1024 || k == |fs|
    ensures forall j :: 0 <= j < k ==> others + Total(fs[j..]) > 100 * 1024 * 1024
    decreases |fs|
  {
    if fs == [] || others + Total(fs) <= MAX_TOTAL {
      k := 0;
      assert fs[0..] == fs;
    } else {
      var m := FittingIsLongest(fs[1..], others);
      k := m + 1;
      assert fs[1..][m..] == fs[k..];
      forall j | 0 <= j < k ensures others + Total(fs[j..]) > MAX_TOTAL {
        if j == 0 { assert fs[0..] == fs; } else { assert fs[1..][j - 1..] == fs[j..]; }
      }
    }
  }

  /* ------------------------------- Listing order ----------------------------- */

  lemma HeadIsLeast(a: seq<Rotated>, b: seq<Rotated>)
    requires Chronological(a) && Sorted(b) && multiset(a) == multiset(b) && a != []
    ensures b != [] && b[0] == a[0]
  {
    assert a[0] in multiset(b);
    assert b != [];
    assert b[0] in multiset(a);
    var j :| 0 <= j < |b| && b[j] == a[0];
    var k :| 0 <= k < |a| && a[k] == b[0];
  }

  lemma TailMultiset(a: seq<Rotated>)
    requires a != []
    ensures multiset(a) == multiset{a[0]} + multiset(a[1..])
  {
    assert a == [a[0]] + a[1..];
  }

  lemma Cancel(f: Rotated, m: multiset<Rotated>, n: multiset<Rotated>)
    requires multiset{f} + m == multiset{f} + n
    ensures m == n
  {
    forall g ensures m[g] == n[g] {
      assert (multiset{f} + m)[g] == (multiset{f} + n)[g];
    }
  }

  /** Sorting a directory listing gives back the order in which files were rotated. */
  lemma {:induction false} SortedListingIsChronological(a: seq<Rotated>, b: seq<Rotated>)
    requires Chronological(a) && Sorted(b) && multiset(a) == multiset(b)
    ensures a == b
    decreases |a|
  {
    if a == [] {
      assert |b| == |multiset(b)|;
    } else {
      HeadIsLeast(a, b);
      TailMultiset(a);
      TailMultiset(b);
      Cancel(a[0], multiset(a[1..]), multiset(b[1..]));
      SortedListingIsChronological(a[1..], b[1..]);
      assert a == [a[0]] + a[1..] && b == [b[0]] + b[1..];
    }
  }

  method Insert(f: Rotated, fs: seq<Rotated>) returns (r: seq<Rotated>)
    requires Sorted(fs)
    ensures Sorted(r) && multiset(r) == multiset(fs) + multiset{f}
  {
    var k := 0;
    while k < |fs| && Before(fs[k], f)
      invariant 0 <= k <= |fs|
      invariant forall j :: 0 <= j < k ==> Before(fs[j], f)
    {
      k := k + 1;
    }
    r := fs[..k] + [f] + fs[k..];
    hide Sorted, Before;
    assert fs == fs[..k] + fs[k..];
  }

  method Sort(fs: seq<Rotated>) returns (r: seq<Rotated>)
    ensures Sorted(r) && multiset(r) == multiset(fs)
  {
    r := [];
    for k := 0 to |fs|
      invariant Sorted(r) && multiset(r) == multiset(fs[..k])
    {
      assert fs[..k + 1] == fs[..k] + [fs[k]];
      r := Insert(fs[k], r);
    }
    assert fs[..|fs|] == fs;
  }

  /** Unlinking one file of the directory. */
  function Without(fs: seq<Rotated>, f: Rotated): seq<Rotated>
    decreases |fs|
  {
    if fs == [] then [] else if fs[0] == f then fs[1..] else [fs[0]] + Without(fs[1..], f)
  }
}
