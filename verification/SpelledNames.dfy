/**
 * What sanitising a component means, spelled out: which characters stay, which
 * become a dash, and what is cut off; and the names of concrete repositories.
 */
module SpelledNames {
  import opened Wrappers
  import opened Names

  /** The characters a sanitised component is made of. */
  const KEPT: set<char> := {
    'a', 'b', 'c', 'd', 'e', 'f', 'g', 'h', 'i', 'j', 'k', 'l', 'm', 'n', 'o', 'p', 'q', 'r', 's', 't', 'u',
    'v', 'w', 'x', 'y', 'z', '0', '1', '2', '3', '4', '5', '6', '7', '8', '9', '.', '_', '-'}

  const LOWERED: map<char, char> := map[
    'A' := 'a', 'B' := 'b', 'C' := 'c', 'D' := 'd', 'E' := 'e', 'F' := 'f', 'G' := 'g', 'H' := 'h', 'I' := 'i',
    'J' := 'j', 'K' := 'k', 'L' := 'l', 'M' := 'm', 'N' := 'n', 'O' := 'o', 'P' := 'p', 'Q' := 'q', 'R' := 'r',
    'S' := 's', 'T' := 't', 'U' := 'u', 'V' := 'v', 'W' := 'w', 'X' := 'x', 'Y' := 'y', 'Z' := 'z']

  /** The characters of an owner or a project: those and the capitals. */
  predicate Named(c: char) {
    c in LOWERED || c in KEPT
  }

  function InLower(c: char): char {
    if c in LOWERED then LOWERED[c] else c
  }

  /** A stretch of characters that stay, or a maximal one of others. */
  datatype Piece = Stays(s: string) | Goes(s: string)

  predicate PieceOk(p: Piece) {
    && p.s != ""
    && forall k :: 0 <= k < |p.s| ==> (InLower(p.s[k]) in KEPT <==> p.Stays?)
  }

  /** A component cut into its stretches. */
  predicate Cut(ps: seq<Piece>) {
    && (forall k :: 0 <= k < |ps| ==> PieceOk(ps[k]))
    && (forall k :: 0 <= k < |ps| - 1 ==> (ps[k].Stays? <==> ps[k + 1].Goes?))
  }

  function Text(ps: seq<Piece>): string
    decreases |ps|
  {
    if ps == [] then "" else ps[0].s + Text(ps[1..])
  }

  /** What stays, in lower case, with one dash for each other stretch. */
  function PieceImage(p: Piece): string {
    if p.Goes? then "-" else seq(|p.s|, i requires 0 <= i < |p.s| => InLower(p.s[i]))
  }

  function Image(ps: seq<Piece>): string
    decreases |ps|
  {
    if ps == [] then "" else PieceImage(ps[0]) + Image(ps[1..])
  }

  predicate Dashes(s: string) {
    forall k :: 0 <= k < |s| ==> s[k] == '-'
  }

  /** t is what is left of s without the dashes at its ends. */
  ghost predicate TrimmedTo(s: string, t: string) {
    && (exists a, b :: Dashes(a) && Dashes(b) && s == a + t + b)
    && (t != "" ==> t[0] != '-' && t[|t| - 1] != '-')
  }

  lemma CharsAreSpelled(c: char)
    ensures Good(c) <==> c in KEPT
    ensures LowerChar(c) == InLower(c)
  {
  }

  lemma NamedIsSpelled(c: char)
    ensures RepoChar(c) <==> Named(c)
  {
  }

  predicate SpelledWord(s: string) {
    s != "" && forall k :: 0 <= k < |s| ==> Named(s[k])
  }

  lemma WordIsSpelled(s: string)
    ensures RepoWord(s) <==> SpelledWord(s)
  {
    forall k | 0 <= k < |s| ensures RepoChar(s[k]) <==> Named(s[k]) { NamedIsSpelled(s[k]); }
    hide RepoChar, Named;
  }

  predicate SplitAs(repository: string, o: string, r: string) {
    repository == o + "/" + r && SpelledWord(o) && SpelledWord(r)
  }

  /** OWNER/REPO: two non-empty texts of the listed characters around one slash. */
  lemma RepositoryIsSpelled(repository: string)
    ensures RepoForm(repository) <==> exists o, r :: SplitAs(repository, o, r)
  {
    if RepoForm(repository) {
      var o, r := Owner(repository), Project(repository);
      WordIsSpelled(o);
      WordIsSpelled(r);
      hide RepoWord, SpelledWord;
      assert repository == o + "/" + r;
      assert SplitAs(repository, o, r);
    } else {
      forall o, r | SplitAs(repository, o, r) ensures false { SplitIsRepository(repository, o, r); }
    }
  }

  lemma SplitIsRepository(repository: string, o: string, r: string)
    requires SplitAs(repository, o, r)
    ensures RepoForm(repository)
  {
    WordIsSpelled(o);
    WordIsSpelled(r);
    hide RepoWord, SpelledWord;
    SplitPair(o, r);
  }

  lemma {:induction false} StripLeftDashes(s: string)
    ensures exists a :: Dashes(a) && s == a + StripLeft(s)
    ensures StripLeft(s) != "" ==> StripLeft(s)[0] != '-'
    decreases |s|
  {
    if s != "" && s[0] == '-' {
      StripLeftDashes(s[1..]);
      var a :| Dashes(a) && s[1..] == a + StripLeft(s[1..]);
      assert Dashes("-" + a) && s == ("-" + a) + StripLeft(s);
    } else {
      assert Dashes("") && s == "" + s;
    }
  }

  lemma {:induction false} StripRightDashes(s: string)
    ensures exists b :: Dashes(b) && s == StripRight(s) + b
    ensures StripRight(s) != "" ==> StripRight(s)[|StripRight(s)| - 1] != '-' && StripRight(s)[0] == s[0]
    decreases |s|
  {
    if s != "" && s[|s| - 1] == '-' {
      var t := s[..|s| - 1];
      StripRightDashes(t);
      var b :| Dashes(b) && t == StripRight(t) + b;
      assert Dashes(b + "-") && s == StripRight(s) + (b + "-");
    } else {
      assert Dashes("") && s == s + "";
    }
  }

  lemma StripIsTrim(s: string)
    ensures TrimmedTo(s, StripRight(StripLeft(s)))
  {
    StripLeftDashes(s);
    var m := StripLeft(s);
    StripRightDashes(m);
    var a :| Dashes(a) && s == a + m;
    var b :| Dashes(b) && m == StripRight(m) + b;
    assert s == a + StripRight(m) + b;
  }

  lemma {:induction false} CollapseKept(s: string, rest: string, inRun: bool)
    requires s != "" && AllGood(s)
    ensures Collapse(s + rest, inRun) == s + Collapse(rest, false)
    decreases |s|
  {
    assert (s + rest)[1..] == s[1..] + rest;
    if |s| == 1 {
      assert s + rest == [s[0]] + rest && s[1..] + rest == rest;
    } else {
      CollapseKept(s[1..], rest, false);
      assert s == [s[0]] + s[1..];
    }
  }

  lemma {:induction false} CollapseOther(s: string, rest: string, inRun: bool)
    requires s != "" && forall k :: 0 <= k < |s| ==> !Good(s[k])
    ensures Collapse(s + rest, inRun) == (if inRun then "" else "-") + Collapse(rest, true)
    decreases |s|
  {
    assert (s + rest)[1..] == s[1..] + rest;
    if |s| == 1 {
      assert s[1..] + rest == rest;
    } else {
      CollapseOther(s[1..], rest, true);
    }
  }

  lemma LowerConcat(a: string, b: string)
    ensures Lower(a + b) == Lower(a) + Lower(b)
  {
    assert forall k :: 0 <= k < |a + b| ==> Lower(a + b)[k] == (Lower(a) + Lower(b))[k];
  }

  lemma LowerOfPiece(p: Piece)
    requires PieceOk(p)
    ensures |Lower(p.s)| == |p.s|
    ensures forall k :: 0 <= k < |p.s| ==> Lower(p.s)[k] == InLower(p.s[k]) && (Good(Lower(p.s)[k]) <==> p.Stays?)
  {
    forall k | 0 <= k < |p.s| ensures Lower(p.s)[k] == InLower(p.s[k]) && (Good(Lower(p.s)[k]) <==> p.Stays?) {
      CharsAreSpelled(p.s[k]);
      CharsAreSpelled(InLower(p.s[k]));
    }
  }

  lemma CollapseOfPiece(p: Piece, rest: string, inRun: bool)
    requires PieceOk(p) && (inRun ==> p.Stays?)
    ensures Collapse(Lower(p.s) + rest, inRun) == PieceImage(p) + Collapse(rest, p.Goes?)
  {
    hide Collapse, Good, InLower;
    LowerOfPiece(p);
    if p.Stays? {
      CollapseKept(Lower(p.s), rest, inRun);
      assert Lower(p.s) == PieceImage(p);
    } else {
      CollapseOther(Lower(p.s), rest, inRun);
    }
  }

  lemma {:induction false} CollapseOfPieces(ps: seq<Piece>, inRun: bool)
    requires Cut(ps) && (inRun && ps != [] ==> ps[0].Stays?)
    ensures Collapse(Lower(Text(ps)), inRun) == Image(ps)
    decreases |ps|
  {
    hide Good, InLower, PieceOk, PieceImage;
    if ps != [] {
      var rest := Text(ps[1..]);
      CollapseOfPieces(ps[1..], ps[0].Goes?);
      LowerConcat(ps[0].s, rest);
      hide Collapse, Lower;
      CollapseOfPiece(ps[0], Lower(rest), inRun);
    }
  }

  /** Sanitising a component: however long it is, cut into its stretches, the
      characters that stay survive in order and in lower case, every other stretch
      is one dash, and the dashes at both ends are gone. */
  lemma SanitisedText(ps: seq<Piece>)
    requires Cut(ps)
    ensures TrimmedTo(Image(ps), Part(Text(ps)))
  {
    CollapseOfPieces(ps, false);
    StripIsTrim(Image(ps));
  }

  /** Every component can be cut in that way. */
  lemma {:induction false} EveryTextIsCut(v: string) returns (ps: seq<Piece>)
    ensures Cut(ps) && Text(ps) == v
    decreases |v|
  {
    if v == "" {
      ps := [];
    } else {
      var rest := EveryTextIsCut(v[1..]);
      ps := Cons(v[0], rest);
      assert v == [v[0]] + v[1..];
    }
  }

  lemma Cons(c: char, rest: seq<Piece>) returns (ps: seq<Piece>)
    requires Cut(rest)
    ensures Cut(ps) && Text(ps) == [c] + Text(rest)
  {
    hide InLower;
    var stays := InLower(c) in KEPT;
    if rest != [] && rest[0].Stays? == stays {
      var s := [c] + rest[0].s;
      var p := if stays then Stays(s) else Goes(s);
      assert PieceOk(rest[0]);
      assert PieceOk(p);
      ps := [p] + rest[1..];
      assert ps[1..] == rest[1..];
      assert s + Text(rest[1..]) == [c] + (rest[0].s + Text(rest[1..]));
    } else {
      var p := if stays then Stays([c]) else Goes([c]);
      assert PieceOk(p);
      ps := [p] + rest;
      assert ps[1..] == rest;
    }
  }

  /** A text of the listed characters without a dash at either end stays as it is. */
  lemma TrimmedTextStays(t: string)
    requires t != "" && t[0] != '-' && t[|t| - 1] != '-' && forall k :: 0 <= k < |t| ==> t[k] in KEPT
    ensures Part(t) == t
  {
    forall k | 0 <= k < |t| ensures Good(t[k]) { CharsAreSpelled(t[k]); }
    TrimmedFixed(t);
  }

  lemma PartOfLower(v: string, t: string)
    requires Lower(v) == t && Trimmed(t)
    ensures Part(v) == t
  {
    TrimmedFixed(t);
  }

  lemma LowerTo(v: string, t: string)
    requires |v| == |t| && (forall k :: 0 <= k < |v| ==> LowerChar(v[k]) == t[k]) && Trimmed(t)
    ensures Part(v) == t
  {
    assert Lower(v) == t;
    PartOfLower(v, t);
  }

  lemma IdOfParts(sha: Sha, owner: string, repo: string)
    requires Hex(sha) && Part(owner) != "" && Part(repo) != "" && |Part(owner)| + |Part(repo)| <= 62
    ensures LocalId(sha, owner, repo) == Some(Part(owner) + "--" + Part(repo))
  {
    hide Part;
  }

  /** The id of a concrete repository: the dot and the underscore stay, capitals are
      lowered. */
  lemma DottedId(sha: Sha)
    requires Hex(sha)
    ensures LocalId(sha, "A_b", "C.d9") == Some("a_b" + "--" + "c.d9")
  {
    LowerTo("A_b", "a_b");
    LowerTo("C.d9", "c.d9");
    hide Part, LocalId;
    IdOfParts(sha, "A_b", "C.d9");
  }

  /** The service of a concrete runner, and two ways not to have one. */
  lemma ConcreteService()
    ensures CanonicalService("A_b" + "/" + "C.d", "my-runner")
         == Some("actions.runner." + ("A_b" + "-" + "C.d") + "." + "my-runner" + ".service")
    ensures CanonicalService("A_b" + "/" + "C.d", "a/b").None?
    ensures CanonicalService("A_b", "x").None?
  {
    var o, r := "A_b", "C.d";
    assert RepoWord(o) && RepoWord(r);
    SplitPair(o, r);
    ScopeOfRepository(o, r);
    hide RepoWord, Scope, Owner, Project;
    assert "a/b"[1] == '/';
    NoProject("A_b");
  }

  lemma NoProject(o: string)
    requires '/' !in o
    ensures !RepoForm(o)
  {
  }
}
