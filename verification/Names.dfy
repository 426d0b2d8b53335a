/**
 * Names derived from OWNER/REPO: the local id of a runner directory, its
 * independent copies, the service name, and the way back from a directory.
 */
module Names {
  import opened Wrappers

  /** SHA-256 as hexadecimal text. Only its length matters here. */
  type Sha = string -> string

  ghost predicate Hex(sha: Sha) {
    forall s: string :: |sha(s)| == 64
  }

  function LowerChar(c: char): char {
    if 'A' <= c <= 'Z' then (c as int + 32) as char else c
  }

  function Lower(s: string): string {
    seq(|s|, i requires 0 <= i < |s| => LowerChar(s[i]))
  }

  predicate Good(c: char) {
    'a' <= c <= 'z' || '0' <= c <= '9' || c == '.' || c == '_' || c == '-'
  }

  predicate AllGood(s: string) {
    forall k :: 0 <= k < |s| ==> Good(s[k])
  }

  /** Every maximal run of other characters becomes one dash. */
  function Collapse(s: string, inRun: bool): string {
    if s == "" then ""
    else if Good(s[0]) then [s[0]] + Collapse(s[1..], false)
    else (if inRun then "" else "-") + Collapse(s[1..], true)
  }

  function StripLeft(s: string): string {
    if s != "" && s[0] == '-' then StripLeft(s[1..]) else s
  }

  function StripRight(s: string): string {
    if s != "" && s[|s| - 1] == '-' then StripRight(s[..|s| - 1]) else s
  }

  function Part(v: string): string {
    StripRight(StripLeft(Collapse(Lower(v), false)))
  }

  function Sanitize(v: string): Option<string> {
    var t := Part(v);
    if t == "" then None else Some(t)
  }

  predicate Trimmed(s: string) {
    s != "" && AllGood(s) && s[0] != '-' && s[|s| - 1] != '-'
  }

  lemma {:induction false} CollapseGood(s: string, inRun: bool)
    ensures AllGood(Collapse(s, inRun))
    decreases |s|
  {
    if s == "" {
    } else {
      CollapseGood(s[1..], false);
      CollapseGood(s[1..], true);
    }
  }

  lemma {:induction false} CollapseFixed(s: string, inRun: bool)
    requires AllGood(s)
    ensures Collapse(s, inRun) == s
    decreases |s|
  {
    if s == "" {
    } else {
      CollapseFixed(s[1..], false);
    }
  }

  lemma {:induction false} StripLeftShape(s: string)
    ensures var t := StripLeft(s);
      && |t| <= |s| && t == s[|s| - |t|..] && (t != "" ==> t[0] != '-')
    decreases |s|
  {
    if s != "" && s[0] == '-' {
      StripLeftShape(s[1..]);
    }
  }

  lemma {:induction false} StripRightShape(s: string)
    ensures var t := StripRight(s);
      && t <= s && (t != "" ==> t[|t| - 1] != '-')
    decreases |s|
  {
    if s != "" && s[|s| - 1] == '-' {
      StripRightShape(s[..|s| - 1]);
    }
  }

  /** A sanitised component is trimmed, and sanitising it again changes nothing. */
  lemma SanitizeTrims(v: string)
    ensures var t := Part(v); t != "" ==> Trimmed(t) && Lower(t) == t && Part(t) == t
  {
    var c := Collapse(Lower(v), false);
    CollapseGood(Lower(v), false);
    StripLeftShape(c);
    StripRightShape(StripLeft(c));
    var t := Part(v);
    if t != "" { TrimmedFixed(t); }
  }

  lemma TrimmedFixed(t: string)
    requires Trimmed(t)
    ensures Lower(t) == t && Part(t) == t
  {
    assert forall k :: 0 <= k < |t| ==> LowerChar(t[k]) == t[k];
    assert Lower(t) == t;
    CollapseFixed(t, false);
  }

  /* -------------------------------- Local ids -------------------------------- */

  function Min(a: int, b: int): int { if a <= b then a else b }

  function Max(a: int, b: int): int { if a <= b then b else a }

  /** The number of characters the first of two parts keeps out of `available`:
      its half, plus whatever the second part leaves unused. */
  function Share(available: nat, o: nat, r: nat): int {
    Max(Min(o, available / 2), available - r)
  }

  predicate Fits(owner: string, repo: string, maxLen: nat) {
    |Part(owner)| + 2 + |Part(repo)| <= maxLen
  }

  /** The id text for any two components, empty ones included. */
  function IdText(sha: Sha, owner: string, repo: string): string
    requires Hex(sha)
  {
    var o, r := Part(owner), Part(repo);
    if Fits(owner, repo, 64) then o + "--" + r
    else
      var ol := Share(52, |o|, |r|);
      o[..ol] + "--" + r[..52 - ol] + "--" + sha(Lower(owner) + "/" + Lower(repo))[..8]
  }

  /** `make_local_id`: no id when a component has nothing left. */
  function LocalId(sha: Sha, owner: string, repo: string): Option<string>
    requires Hex(sha)
  {
    if Part(owner) == "" || Part(repo) == "" then None else Some(IdText(sha, owner, repo))
  }

  /** The lengths of `make_local_id`: nothing of the room is wasted, both parts
      keep a character, and a part is cut only to half the room or more. */
  lemma SharesRoom(available: nat, o: nat, r: nat)
    requires 2 <= available && 1 <= o && 1 <= r && available + 10 <= o + r
    ensures var ol := Share(available, o, r);
      && 1 <= ol <= o && 1 <= available - ol <= r
      && (ol < o ==> ol >= available / 2) && (available - ol < r ==> available - ol >= available / 2)
  {
  }

  lemma LocalIdBounded(sha: Sha, owner: string, repo: string)
    requires Hex(sha) && Part(owner) != "" && Part(repo) != ""
    ensures var id := LocalId(sha, owner, repo);
      && id.Some? && 4 <= |id.value| <= 64
      && (!Fits(owner, repo, 64) ==> |id.value| == 64)
      && exists ol, rl, rest ::
           && 1 <= ol <= |Part(owner)| && 1 <= rl <= |Part(repo)|
           && id.value == Part(owner)[..ol] + "--" + Part(repo)[..rl] + rest
           && (Fits(owner, repo, 64) <==> ol == |Part(owner)| && rl == |Part(repo)| && rest == "")
           && (!Fits(owner, repo, 64) ==>
                 && rest == "--" + sha(Lower(owner + "/" + repo))[..8]
                 && ol + rl == 52 && (ol < |Part(owner)| ==> ol >= 26) && (rl < |Part(repo)| ==> rl >= 26))
  {
    var o, r := Part(owner), Part(repo);
    var id := LocalId(sha, owner, repo).value;
    if Fits(owner, repo, 64) {
      assert o[..|o|] == o && r[..|r|] == r;
      assert id == o[..|o|] + "--" + r[..|r|] + "";
    } else {
      SharesRoom(52, |o|, |r|);
      var ol := Share(52, |o|, |r|);
      var tail := "--" + sha(Lower(owner) + "/" + Lower(repo))[..8];
      LowerPair(owner, repo);
      assert id == o[..ol] + "--" + r[..52 - ol] + tail;
    }
  }

  /** The Python `make_local_id`, for any limits. Its result fills the limit when
      it truncates, except when the room is odd and the repository part has
      exactly half of it, rounded down: then one character stays unused. With the
      limits every caller uses, 64 and 8, the room is 52. */
  method MakeLocalId(sha: Sha, owner: string, repo: string, maxLen: nat := 64, hashLen: nat := 8)
    returns (id: Option<string>)
    requires Hex(sha)
    ensures maxLen == 64 && hashLen == 8 ==> id == LocalId(sha, owner, repo)
    ensures id.Some? ==> |id.value| <= maxLen
    ensures id.Some? && !Fits(owner, repo, maxLen) && hashLen <= 64 ==>
      var available := maxLen - 4 - hashLen;
      (|id.value| < maxLen <==> available % 2 == 1 && |Part(repo)| == available / 2)
    ensures id.None? <==> Part(owner) == "" || Part(repo) == "" || (!Fits(owner, repo, maxLen) && maxLen < hashLen + 6)
  {
    hide Part, Lower;
    var safeOwner, safeRepo := Sanitize(owner), Sanitize(repo);
    if safeOwner.None? || safeRepo.None? { return None; }
    var o, r := safeOwner.value, safeRepo.value;
    var direct := o + "--" + r;
    assert |direct| == |o| + 2 + |r|;
    if |direct| <= maxLen { return Some(direct); }
    var digest := sha(Lower(owner) + "/" + Lower(repo));
    if hashLen < |digest| { digest := digest[..hashLen]; }
    var available := maxLen - 2 - 2 - hashLen;
    if available < 2 { return None; }
    var baseEach := available / 2;
    var ownerLen, repoLen := |o|, |r|;
    if ownerLen < baseEach {
      repoLen := Min(available - ownerLen, |r|);
      ownerLen := available - repoLen;
    } else if repoLen < baseEach {
      ownerLen := Min(available - repoLen, |o|);
      repoLen := available - ownerLen;
    } else {
      ownerLen := baseEach;
      repoLen := available - ownerLen;
    }
    assert available == 52 ==> ownerLen == Share(52, |o|, |r|);
    assert ownerLen <= |o| && (repoLen > |r| <==> available % 2 == 1 && |r| == baseEach);
    if ownerLen < 1 || repoLen < 1 { return None; }
    var end := Min(repoLen, |r|);   // a slice ends where the text does
    id := Some(o[..ownerLen] + "--" + r[..end] + "--" + digest);
  }

  /** The shell copies in register-runner.sh, remove-runner.sh and status-runners.sh. */
  method MakeLocalIdShell(sha: Sha, owner: string, repo: string) returns (id: Option<string>)
    requires Hex(sha)
    ensures id == LocalId(sha, owner, repo)
  {
    var safeOwner, safeRepo := Sanitize(owner), Sanitize(repo);
    if safeOwner.None? || safeRepo.None? { return None; }
    var o, r := safeOwner.value, safeRepo.value;
    var direct := o + "--" + r;
    if |direct| <= 64 { return Some(direct); }
    var normalized := Lower(owner + "/" + repo);
    LowerPair(owner, repo);
    var hash := sha(normalized)[..8];
    var available := 64 - 2 - 2 - 8;
    var baseEach := available / 2;
    var ownerLen, repoLen := |o|, |r|;
    if ownerLen < baseEach {
      repoLen := available - ownerLen;
      if repoLen > |r| { repoLen := |r|; }
      ownerLen := available - repoLen;
    } else if repoLen < baseEach {
      ownerLen := available - repoLen;
      if ownerLen > |o| { ownerLen := |o|; }
      repoLen := available - ownerLen;
    } else {
      ownerLen := baseEach;
      repoLen := available - ownerLen;
    }
    assert ownerLen == Share(52, |o|, |r|);
    if !(ownerLen >= 1 && repoLen >= 1) { return None; }
    id := Some(o[..ownerLen] + "--" + r[..repoLen] + "--" + hash);
  }

  lemma LowerPair(owner: string, repo: string)
    ensures Lower(owner + "/" + repo) == Lower(owner) + "/" + Lower(repo)
  {
    assert forall k :: 0 <= k < |owner + "/" + repo| ==>
      Lower(owner + "/" + repo)[k] == (Lower(owner) + "/" + Lower(repo))[k];
  }

  /* -------------------------------- Repositories ------------------------------- */

  predicate RepoChar(c: char) {
    'A' <= c <= 'Z' || 'a' <= c <= 'z' || '0' <= c <= '9' || c == '_' || c == '.' || c == '-'
  }

  predicate RepoWord(s: string) {
    s != "" && forall k :: 0 <= k < |s| ==> RepoChar(s[k])
  }

  /** The index of the first c, or |s|. */
  function Find(s: string, c: char): (k: nat)
    ensures k <= |s| && (k < |s| ==> s[k] == c)
    ensures forall j :: 0 <= j < k ==> s[j] != c
  {
    if s == "" || s[0] == c then 0 else 1 + Find(s[1..], c)
  }

  function Owner(repository: string): string { repository[..Find(repository, '/')] }

  function Project(repository: string): string {
    var k := Find(repository, '/');
    if k < |repository| then repository[k + 1..] else ""
  }

  /** The OWNER/REPO pattern. */
  predicate RepoForm(repository: string) {
    RepoWord(Owner(repository)) && RepoWord(Project(repository))
  }

  predicate ValidRepository(repository: string) {
    |repository| <= 200 && RepoForm(repository)
  }

  lemma {:induction false} SplitPair(owner: string, repo: string)
    requires RepoWord(owner)
    ensures Owner(owner + "/" + repo) == owner && Project(owner + "/" + repo) == repo
  {
    var s := owner + "/" + repo;
    assert s[|owner|] == '/';
    assert forall j :: 0 <= j < |owner| ==> s[j] == owner[j] && RepoChar(s[j]);
    assert Find(s, '/') == |owner|;
  }

  const PREFIX := "actions-runner-"

  /** `_safe_repo_path` of the cleanup script. */
  method SafeRepoPath(sha: Sha, repository: string, basename: string) returns (ok: bool)
    requires Hex(sha)
    ensures ok <==> RepoForm(repository) && CleanupName(sha, Owner(repository), Project(repository), basename)
  {
    hide Part, Lower;
    if !RepoForm(repository) { return false; }
    var owner, project := Owner(repository), Project(repository);
    var o, p := Part(owner), Part(project);
    var localId := o + "--" + p;
    assert |localId| <= 64 <==> Fits(owner, project, 64);
    if |localId| <= 64 {
      return basename == PREFIX + localId || basename == PREFIX + p;
    }
    assert Lower(repository) == Lower(owner) + "/" + Lower(project) by {
      LowerPair(owner, project);
      assert repository == owner + "/" + project;
    }
    var digest := sha(Lower(repository))[..8];
    var available := 52;
    var ol, pl := |o|, |p|;
    if ol < available / 2 {
      pl := Min(available - ol, pl);
      ol := available - pl;
    } else if pl < available / 2 {
      ol := Min(available - pl, ol);
      pl := available - ol;
    } else {
      ol := available / 2;
      pl := available - ol;
    }
    assert ol == Share(52, |o|, |p|);
    localId := o[..ol] + "--" + p[..pl] + "--" + digest;
    assert localId == IdText(sha, owner, project);
    ok := basename == PREFIX + localId;
  }

  /** The runner directory names the cleanup script accepts. */
  predicate CleanupName(sha: Sha, owner: string, repo: string, basename: string)
    requires Hex(sha)
  {
    basename == PREFIX + IdText(sha, owner, repo)
    || (Fits(owner, repo, 64) && basename == PREFIX + Part(repo))
  }

  /** The runner directory names the service-record script accepts. */
  method RecordNames(sha: Sha, repository: string) returns (names: set<string>)
    requires Hex(sha) && RepoForm(repository)
    ensures forall basename :: basename in names <==> RecordName(sha, Owner(repository), Project(repository), basename)
  {
    hide Part, Lower;
    var owner, project := Owner(repository), Project(repository);
    var so, sr := Part(owner), Part(project);
    var direct := so + "--" + sr;
    if |direct| > 64 {
      LowerPair(owner, project);
      assert repository == owner + "/" + project;
      var digest := sha(Lower(repository))[..8];
      var available := 64 - 2 - 2 - 8;
      var ol, rl := |so|, |sr|;
      if ol < available / 2 {
        rl := Min(available - ol, rl);
        ol := available - rl;
      } else if rl < available / 2 {
        ol := Min(available - rl, ol);
        rl := available - ol;
      } else {
        ol := available / 2;
        rl := available - ol;
      }
      assert ol == Share(52, |so|, |sr|);
      direct := so[..ol] + "--" + sr[..rl] + "--" + digest;
    }
    names := {PREFIX + direct, PREFIX + sr};
  }

  predicate RecordName(sha: Sha, owner: string, repo: string, basename: string)
    requires Hex(sha)
  {
    basename == PREFIX + IdText(sha, owner, repo) || basename == PREFIX + Part(repo)
  }

  /** The directory `make_local_id` names, when it names one at all, or the legacy name. */
  predicate Intended(sha: Sha, owner: string, repo: string, basename: string, legacy: bool)
    requires Hex(sha)
  {
    var id := LocalId(sha, owner, repo);
    id.Some? && (basename == PREFIX + id.value || (legacy && basename == PREFIX + Part(repo)))
  }

  ghost predicate CleanupIntends(sha: Sha, owner: string, repo: string)
    requires Hex(sha)
  {
    forall basename ::
      CleanupName(sha, owner, repo, basename) <==> Intended(sha, owner, repo, basename, Fits(owner, repo, 64))
  }

  ghost predicate RecordIntends(sha: Sha, owner: string, repo: string)
    requires Hex(sha)
  {
    forall basename :: RecordName(sha, owner, repo, basename) <==> Intended(sha, owner, repo, basename, true)
  }

  /** Both copies accept exactly the directory `make_local_id` names and the legacy
      name, of all directory names there are, if and only if neither component is
      empty once sanitised. Otherwise `make_local_id` names none, and they still
      accept one. */
  lemma CopiesAgree(sha: Sha, owner: string, repo: string)
    requires Hex(sha)
    ensures CleanupIntends(sha, owner, repo) <==> Part(owner) != "" && Part(repo) != ""
    ensures RecordIntends(sha, owner, repo) <==> Part(owner) != "" && Part(repo) != ""
  {
    hide Part, IdText;
    var basename := PREFIX + IdText(sha, owner, repo);
    assert CleanupName(sha, owner, repo, basename) && RecordName(sha, owner, repo, basename);
    if LocalId(sha, owner, repo).None? {
      assert !Intended(sha, owner, repo, basename, true);
      assert !Intended(sha, owner, repo, basename, Fits(owner, repo, 64));
    }
  }

  /** A repository both scripts accept a directory for, and `make_local_id` refuses. */
  lemma DashOwnerAccepted(sha: Sha)
    requires Hex(sha)
    ensures RepoForm("-/x") && Owner("-/x") == "-" && Project("-/x") == "x"
    ensures LocalId(sha, "-", "x").None?
    ensures CleanupName(sha, "-", "x", "actions-runner---x")
    ensures RecordName(sha, "-", "x", "actions-runner---x")
  {
    SplitPair("-", "x");
    assert "-" + "/" + "x" == "-/x";
    assert Lower("-") == "-" && Lower("x") == "x";
    CollapseFixed("-", false);
    CollapseFixed("x", false);
    assert StripLeft("-") == StripLeft("-"[1..]) == "";
    assert Part("-") == "";
    assert StripLeft("x") == "x" && StripRight("x") == "x";
    assert Part("x") == "x";
    assert IdText(sha, "-", "x") == "--x";
  }

  /* -------------------------------- Service names ------------------------------ */

  predicate ScopeChar(c: char) {
    '0' <= c <= '9' || 'A' <= c <= 'Z' || 'a' <= c <= 'z' || c == '.' || c == '_' || c == '-'
  }

  function Scope(owner: string, repo: string): string {
    var s := owner + "-" + repo;
    seq(|s|, i requires 0 <= i < |s| => if ScopeChar(s[i]) then s[i] else '-')
  }

  const SERVICE_HEAD := "actions.runner."
  const SERVICE_TAIL := ".service"

  function CanonicalService(repository: string, runner: string): Option<string> {
    if runner == "" || '\r' in runner || '\n' in runner || '/' in runner || !ValidRepository(repository) then None
    else
      var name := SERVICE_HEAD + Scope(Owner(repository), Project(repository)) + "." + runner + SERVICE_TAIL;
      if |name| > 150 then None else Some(name)
  }

  lemma ScopeOfRepository(owner: string, repo: string)
    requires RepoWord(owner) && RepoWord(repo)
    ensures Scope(owner, repo) == owner + "-" + repo
  {
  }

  /* --------------------------- Back from a directory --------------------------- */

  predicate PairAt(s: string, j: nat) {
    j + 1 < |s| && s[j] == '-' && s[j + 1] == '-'
  }

  /** The index of the first "--", or |s|. */
  function FindPair(s: string): (k: nat)
    ensures k <= |s| && (k < |s| ==> PairAt(s, k))
    ensures forall j :: 0 <= j < k ==> !PairAt(s, j)
  {
    if s == "" || PairAt(s, 0) then 0
    else
      var k := FindPair(s[1..]);
      assert forall j :: 1 <= j < |s| ==> (PairAt(s, j) <==> PairAt(s[1..], j - 1));
      1 + k
  }

  predicate NoPair(s: string) { FindPair(s) == |s| }

  /** The only OWNER/REPO a directory name can be read back as. */
  function RepoFromDir(sha: Sha, basename: string): (pair: Option<(string, string)>)
    requires Hex(sha)
    ensures pair.Some? ==> PREFIX <= basename && LocalId(sha, pair.value.0, pair.value.1) == Some(basename[|PREFIX|..])
  {
    if !(PREFIX <= basename) then None
    else
      var id := basename[|PREFIX|..];
      var k := FindPair(id);
      if k == |id| || !NoPair(id[k + 2..]) then None
      else
        var owner, repo := id[..k], id[k + 2..];
        if owner != "" && repo != "" && LocalId(sha, owner, repo) == Some(id) then Some((owner, repo)) else None
  }

  lemma FirstPair(a: string, b: string)
    requires a != "" && a[|a| - 1] != '-'
    ensures var s := a + "--" + b;
      FindPair(s) == if NoPair(a) then |a| else FindPair(a)
  {
    var s := a + "--" + b;
    assert PairAt(s, |a|);
    assert forall j :: 0 <= j < |a| ==> (PairAt(s, j) <==> PairAt(a, j));
  }

  /** A pair that lies at or after the first one leaves a pair behind it. */
  lemma PairLeft(s: string, j: nat)
    requires PairAt(s, j) && FindPair(s) + 2 <= j
    ensures !NoPair(s[FindPair(s) + 2..])
  {
    var k := FindPair(s);
    assert PairAt(s[k + 2..], j - k - 2);
  }

  /** Reading a directory name back only looks at the id in it. */
  lemma ReadId(sha: Sha, id: string)
    requires Hex(sha)
    ensures var k := FindPair(id);
      RepoFromDir(sha, PREFIX + id)
        == if k == |id| || !NoPair(id[k + 2..]) || id[..k] == "" || id[k + 2..] == "" || LocalId(sha, id[..k], id[k + 2..]) != Some(id)
           then None else Some((id[..k], id[k + 2..]))
  {
    hide FindPair, NoPair, LocalId;
    assert (PREFIX + id)[|PREFIX|..] == id;
  }

  lemma FittingParts(sha: Sha, owner: string, repo: string)
    requires Hex(sha) && LocalId(sha, owner, repo).Some? && Fits(owner, repo, 64)
    ensures var o, r := Part(owner), Part(repo);
      && LocalId(sha, owner, repo) == Some(o + "--" + r) == LocalId(sha, o, r)
      && o != "" && r != "" && o[|o| - 1] != '-'
  {
    SanitizeTrims(owner);
    SanitizeTrims(repo);
    hide Part;
  }

  lemma FittingReadsBack(sha: Sha, owner: string, repo: string)
    requires Hex(sha) && LocalId(sha, owner, repo).Some? && Fits(owner, repo, 64)
    ensures RepoFromDir(sha, PREFIX + LocalId(sha, owner, repo).value)
         == if NoPair(Part(owner)) && NoPair(Part(repo)) then Some((Part(owner), Part(repo))) else None
  {
    hide Part, RepoFromDir, LocalId, FindPair, Fits;
    var o, r := Part(owner), Part(repo);
    var id := o + "--" + r;
    FittingParts(sha, owner, repo);
    FirstPair(o, r);
    ReadId(sha, id);
    if NoPair(o) {
      assert id[..|o|] == o;
      assert id[|o| + 2..] == r;
    } else {
      assert PairAt(id, |o|);
      PairLeft(id, |o|);
    }
  }

  /** Reading a created directory back gives the sanitised pair, exactly when the
      id was not truncated and neither component contains a double dash. */
  lemma DirectoryReadsBack(sha: Sha, owner: string, repo: string)
    requires Hex(sha) && LocalId(sha, owner, repo).Some?
    ensures RepoFromDir(sha, PREFIX + LocalId(sha, owner, repo).value)
         == if Fits(owner, repo, 64) && NoPair(Part(owner)) && NoPair(Part(repo))
            then Some((Part(owner), Part(repo))) else None
  {
    hide RepoFromDir, LocalId, Part, NoPair, FindPair;
    if Fits(owner, repo, 64) {
      FittingReadsBack(sha, owner, repo);
    } else {
      TruncatedHasTwoPairs(sha, owner, repo);
      ReadId(sha, LocalId(sha, owner, repo).value);
    }
  }

  lemma TruncatedHasTwoPairs(sha: Sha, owner: string, repo: string)
    requires Hex(sha) && LocalId(sha, owner, repo).Some? && !Fits(owner, repo, 64)
    ensures var id := LocalId(sha, owner, repo).value;
      FindPair(id) < |id| && !NoPair(id[FindPair(id) + 2..])
  {
    var o, r := Part(owner), Part(repo);
    var id := LocalId(sha, owner, repo).value;
    SharesRoom(52, |o|, |r|);
    var ol := Share(52, |o|, |r|);
    assert PairAt(id, ol);
    assert PairAt(id, ol + 2 + (52 - ol));
    PairLeft(id, 54);
  }

  /** `repo_from_new_dir_residue`, given the directory and its `.service` line. */
  method RepoFromResidue(sha: Sha, basename: string, service: Option<string>) returns (repository: Option<string>)
    requires Hex(sha)
    ensures repository == Residue(sha, basename, service)
  {
    if !(PREFIX <= basename) { return None; }
    var id := basename[|PREFIX|..];
    var k := FindPair(id);
    if k == |id| { return None; }
    if FindPair(id[k + 2..]) < |id[k + 2..]| { return None; }
    var owner, repo := id[..k], id[k + 2..];
    if owner == "" || repo == "" { return None; }
    var local := MakeLocalIdShell(sha, owner, repo);
    if local != Some(id) || service.None? { return None; }
    var lowerService := Lower(service.value);
    var head := SERVICE_HEAD + Lower(Scope(owner, repo)) + ".";
    if !Wraps(head, lowerService) || lowerService[|head|..] == SERVICE_TAIL { return None; }
    repository := Some(owner + "/" + repo);
  }

  predicate Wraps(head: string, s: string) {
    head <= s && |head| + |SERVICE_TAIL| <= |s| && s[|s| - |SERVICE_TAIL|..] == SERVICE_TAIL
  }

  function Residue(sha: Sha, basename: string, service: Option<string>): Option<string>
    requires Hex(sha)
  {
    var pair := RepoFromDir(sha, basename);
    if pair.None? || service.None? then None
    else
      var (owner, repo) := pair.value;
      var head := SERVICE_HEAD + Lower(Scope(owner, repo)) + ".";
      if Wraps(head, Lower(service.value)) && Lower(service.value)[|head|..] != SERVICE_TAIL
      then Some(owner + "/" + repo) else None
  }

  lemma LowerConcat(a: string, b: string)
    ensures Lower(a + b) == Lower(a) + Lower(b)
  {
    assert |Lower(a + b)| == |Lower(a) + Lower(b)|;
    assert forall k :: 0 <= k < |a + b| ==> Lower(a + b)[k] == (Lower(a) + Lower(b))[k];
  }

  lemma LowerService(scope: string, runner: string)
    ensures Lower(SERVICE_HEAD + scope + "." + runner + SERVICE_TAIL)
         == SERVICE_HEAD + Lower(scope) + "." + (Lower(runner) + SERVICE_TAIL)
  {
    LowerConcat(SERVICE_HEAD + scope + "." + runner, SERVICE_TAIL);
    LowerConcat(SERVICE_HEAD + scope + ".", runner);
    LowerConcat(SERVICE_HEAD + scope, ".");
    LowerConcat(SERVICE_HEAD, scope);
    assert Lower(SERVICE_HEAD) == SERVICE_HEAD && Lower(SERVICE_TAIL) == SERVICE_TAIL && Lower(".") == ".";
  }

  lemma IdExists(sha: Sha, owner: string, repo: string)
    requires Hex(sha) && Part(owner) != "" && Part(repo) != ""
    ensures LocalId(sha, owner, repo).Some?
  {
  }

  /** The residue of a created runner names its repository in lower case, when no
      dash is lost at the ends of a component, nothing is truncated and nothing
      is ambiguous. */
  lemma ResidueNamesCreator(sha: Sha, repository: string, runner: string)
    requires Hex(sha) && CanonicalService(repository, runner).Some?
    requires var o, r := Owner(repository), Project(repository);
      Part(o) == Lower(o) && Part(r) == Lower(r) && Fits(o, r, 64) && NoPair(Part(o)) && NoPair(Part(r))
    ensures var o, r := Owner(repository), Project(repository);
      && LocalId(sha, o, r).Some?
      && Residue(sha, PREFIX + LocalId(sha, o, r).value, CanonicalService(repository, runner)) == Some(Lower(repository))
  {
    hide RepoFromDir, LocalId, Part, NoPair, Fits, Scope;
    var o, r := Owner(repository), Project(repository);
    var lo, lr := Lower(o), Lower(r);
    var service := CanonicalService(repository, runner).value;
    var head := SERVICE_HEAD + Lower(Scope(lo, lr)) + ".";
    assert Lower(service) == head + (Lower(runner) + SERVICE_TAIL) by {
      ScopeOfRepository(o, r);
      ScopeOfLower(o, r);
      LowerService(o + "-" + r, runner);
    }
    assert Lower(repository) == lo + "/" + lr by {
      LowerPair(o, r);
      assert repository == o + "/" + r;
    }
    IdExists(sha, o, r);
    DirectoryReadsBack(sha, o, r);
    assert Lower(service)[|head|..] == Lower(runner) + SERVICE_TAIL;
  }

  lemma ScopeOfLower(owner: string, repo: string)
    requires RepoWord(owner) && RepoWord(repo)
    ensures Lower(Scope(Lower(owner), Lower(repo))) == Lower(owner + "-" + repo)
  {
    var a, b := Scope(Lower(owner), Lower(repo)), owner + "-" + repo;
    assert |a| == |b|;
    assert forall k :: 0 <= k < |b| ==> LowerChar(a[k]) == LowerChar(b[k]);
  }
}
