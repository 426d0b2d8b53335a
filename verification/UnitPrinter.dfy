/** The Unit the installer prints, and when the validator accepts it. */
module UnitPrinter {
  import opened Wrappers
  import opened Names
  import opened UnitFile

  /** The line boundaries of str.splitlines. */
  predicate IsBreak(c: char) {
    '\n' <= c <= '\r' || '\U{001C}' <= c <= '\U{001E}' || c == '\U{0085}' || c == '\U{2028}' || c == '\U{2029}'
  }

  predicate OneLine(s: string) {
    forall k :: 0 <= k < |s| ==> !IsBreak(s[k])
  }

  function BreakAt(s: string): (k: nat)
    ensures k <= |s| && (k < |s| ==> IsBreak(s[k])) && forall j :: 0 <= j < k ==> !IsBreak(s[j])
  {
    if s == "" || IsBreak(s[0]) then 0 else 1 + BreakAt(s[1..])
  }

  function SplitLines(s: string): Lines
    decreases |s|
  {
    if s == "" then []
    else
      var k := BreakAt(s);
      if k == |s| then [s]
      else if s[k] == '\r' && k + 1 < |s| && s[k + 1] == '\n' then [s[..k]] + SplitLines(s[k + 2..])
      else [s[..k]] + SplitLines(s[k + 1..])
  }

  function Unlines(lines: Lines): string
    decreases |lines|
  {
    if lines == [] then "" else lines[0] + "\n" + Unlines(lines[1..])
  }

  lemma {:induction false} SplitOfUnlines(lines: Lines)
    requires forall k :: 0 <= k < |lines| ==> OneLine(lines[k])
    ensures SplitLines(Unlines(lines)) == lines
    decreases |lines|
  {
    hide BreakAt, IsBreak;
    if lines != [] {
      var s := Unlines(lines);
      var l := lines[0];
      NewlineBreaks();
      assert s[|l|] == '\n' && forall j :: 0 <= j < |l| ==> s[j] == l[j];
      assert BreakAt(s) == |l|;
      assert s[..|l|] == l && s[|l| + 1..] == Unlines(lines[1..]);
      SplitOfUnlines(lines[1..]);
    }
  }

  lemma NewlineBreaks()
    ensures IsBreak('\n')
  {
  }

  lemma HeadIsOneLine(s: string)
    ensures OneLine(s[..BreakAt(s)])
  {
    hide BreakAt;
  }

  /** The first line of a text, and what comes after its break. */
  lemma SplitStep(s: string) returns (rest: string)
    requires s != ""
    ensures OneLine(s[..BreakAt(s)])
    ensures BreakAt(s) == |s| ==> SplitLines(s) == [s[..BreakAt(s)]]
    ensures BreakAt(s) < |s| ==> |rest| < |s| && SplitLines(s) == [s[..BreakAt(s)]] + SplitLines(rest)
  {
    hide IsBreak, BreakAt, OneLine;
    HeadIsOneLine(s);
    var b := BreakAt(s);
    rest := "";
    if b == |s| {
      assert s[..b] == s;
    } else if s[b] == '\r' && b + 1 < |s| && s[b + 1] == '\n' {
      rest := s[b + 2..];
      assert SplitLines(s) == [s[..b]] + SplitLines(rest);
    } else {
      rest := s[b + 1..];
      assert SplitLines(s) == [s[..b]] + SplitLines(rest);
    }
  }

  lemma {:induction false} SplitIsOneLine(s: string, k: nat)
    requires k < |SplitLines(s)|
    ensures OneLine(SplitLines(s)[k])
    decreases |s|
  {
    if s != "" {
      var rest := SplitStep(s);
      hide IsBreak, BreakAt, OneLine, SplitLines;
      if k > 0 { SplitIsOneLine(rest, k - 1); }
    }
  }

  /* ----------------------------------- Printing --------------------------------- */

  predicate UserChar(c: char) {
    'A' <= c <= 'Z' || 'a' <= c <= 'z' || '0' <= c <= '9' || c == '_' || c == '-'
  }

  /** Account names of letters, digits, underscores and dashes, not only of the last two. */
  predicate UserForm(user: string) {
    (forall k :: 0 <= k < |user| ==> UserChar(user[k])) && exists k :: 0 <= k < |user| && user[k] != '_' && user[k] != '-'
  }

  function Entry(key: string, value: string): string { key + "=" + value }

  function UnitLines(repository: string, dir: string, user: string): Lines {
    [UNIT,
     Entry("Description", "GitHub Actions Runner (" + repository + ")"),
     Entry("After", "network-online.target"),
     Entry("Wants", "network-online.target"),
     "",
     SERVICE,
     Entry("Type", "simple"),
     Entry("User", user),
     Entry("WorkingDirectory", dir),
     Entry("ExecStart", dir + "/runsvc.sh"),
     Entry("KillMode", "process"),
     Entry("KillSignal", "SIGTERM"),
     Entry("TimeoutStopSec", "5min"),
     "",
     INSTALL,
     Entry("WantedBy", "multi-user.target")]
  }

  /** `unit_bytes` */
  function UnitText(repository: string, runner: string, dir: string, user: string): Option<string> {
    if !ValidRepository(repository) || !UserForm(user) then None
    else if runner == "" || '/' in runner || '\n' in runner || '\r' in runner then None
    else if !("/" <= dir) || '\0' in dir || '\n' in dir then None
    else Some(Unlines(UnitLines(repository, dir, user)))
  }

  /* ---------------------------------- Acceptance -------------------------------- */

  lemma EntryParts(key: string, value: string)
    requires key != "" && '=' !in key && key[0] != '['
    ensures var e := Entry(key, value);
      && KeyOf(e) == key && ValueOf(e) == value && Directive(e) && e[0] != '[' && '=' in e
  {
    var e := Entry(key, value);
    assert e[|key|] == '=' && forall j :: 0 <= j < |key| ==> e[j] == key[j];
    assert Find(e, '=') == |key|;
  }

  /** The keys of the printed lines; a header or a blank line has none. */
  function KeyAt(j: nat): string {
    ["", "Description", "After", "Wants", "", "", "Type", "User", "WorkingDirectory", "ExecStart", "KillMode", "KillSignal",
     "TimeoutStopSec", "", "", "WantedBy"][if j < 16 then j else 0]
  }

  lemma PrintedSections(l: Lines, j: nat)
    requires |l| == 16 && l[0] == UNIT && l[5] == SERVICE && l[14] == INSTALL && j <= 16
    requires forall k :: 0 <= k < 16 && k !in {0, 5, 14} ==> !Header(l[k])
    ensures SectionAt(l, j) == if j == 0 then None else if j <= 5 then Some(UNIT) else if j <= 14 then Some(SERVICE) else Some(INSTALL)
    decreases j
  {
    if j > 0 { PrintedSections(l, j - 1); }
  }

  function ValueAt(repository: string, dir: string, user: string, j: nat): string {
    ["", "GitHub Actions Runner (" + repository + ")", "network-online.target", "network-online.target", "", "", "simple", user,
     dir, dir + "/runsvc.sh", "process", "SIGTERM", "5min", "", "", "multi-user.target"][if j < 16 then j else 0]
  }

  lemma PrintedEntries(repository: string, dir: string, user: string, j: nat)
    requires j < 16
    ensures var l := UnitLines(repository, dir, user);
      if KeyAt(j) == "" then !Directive(l[j]) && (Header(l[j]) <==> j in {0, 5, 14})
      else
        && l[j] == Entry(KeyAt(j), ValueAt(repository, dir, user, j))
        && KeyOf(l[j]) == KeyAt(j) && ValueOf(l[j]) == ValueAt(repository, dir, user, j)
        && Directive(l[j]) && l[j][0] != '[' && '=' in l[j]
  {
    hide Entry, KeyOf, ValueOf;
    if KeyAt(j) != "" {
      hide Directive, Header;
      EntryParts(KeyAt(j), ValueAt(repository, dir, user, j));
    }
  }

  predicate LineShape(line: string, repository: string, dir: string, user: string, j: nat) {
    if KeyAt(j) == "" then !Directive(line) && (Header(line) <==> j in {0, 5, 14})
    else
      && KeyOf(line) == KeyAt(j) && ValueOf(line) == ValueAt(repository, dir, user, j)
      && Directive(line) && line[0] != '[' && '=' in line
  }

  /** What is known of the printed lines, without their text. */
  ghost predicate Shape(l: Lines, repository: string, dir: string, user: string) {
    && |l| == 16
    && (forall j :: 0 <= j < 16 ==> LineShape(l[j], repository, dir, user, j))
    && l[0] == UNIT && l[5] == SERVICE && l[14] == INSTALL && l[6] == TYPE_SIMPLE
  }

  lemma PrintedShape(repository: string, dir: string, user: string)
    ensures Shape(UnitLines(repository, dir, user), repository, dir, user)
  {
    hide KeyOf, ValueOf, Directive, Header;
    var l := UnitLines(repository, dir, user);
    forall j | 0 <= j < 16
      ensures LineShape(l[j], repository, dir, user, j)
    {
      PrintedEntries(repository, dir, user, j);
    }
    assert Entry("Type", "simple") == TYPE_SIMPLE;
  }

  function SectionOf(j: nat): string {
    if j <= 5 then UNIT else if j <= 14 then SERVICE else INSTALL
  }

  lemma ShapeSections(l: Lines, repository: string, dir: string, user: string, j: nat)
    requires Shape(l, repository, dir, user) && 0 < j < 16
    ensures SectionAt(l, j) == Some(SectionOf(j))
  {
    hide KeyOf, ValueOf, Header, Directive, SectionAt;
    assert forall k :: 0 <= k < 16 && k !in {0, 5, 14} ==> !Header(l[k]) by {
      forall k | 0 <= k < 16 && k !in {0, 5, 14} ensures !Header(l[k]) {
        if KeyAt(k) != "" { DirectiveIsNoHeader(l[k]); }
      }
    }
    PrintedSections(l, j);
  }

  lemma DirectiveIsNoHeader(line: string)
    requires Directive(line)
    ensures !Header(line)
  {
  }

  /** Keys are not repeated within a section. */
  lemma KeysDiffer(i: nat, j: nat)
    requires i < j < 16 && KeyAt(i) != "" && KeyAt(j) != "" && SectionOf(i) == SectionOf(j)
    ensures KeyAt(i) != KeyAt(j)
  {
  }

  lemma KeyIsAllowed(dir: string, user: string, j: nat)
    requires j < 16 && KeyAt(j) != ""
    ensures Allowed(SectionOf(j), KeyAt(j), true, user, dir)
  {
  }

  lemma ShapeOrderly(l: Lines, repository: string, dir: string, user: string)
    requires Shape(l, repository, dir, user)
    ensures Orderly(l, 16, user, dir)
  {
    hide KeyOf, ValueOf, KeyAt, SectionAt, SectionOf, Allowed, ValueAt;
    assert l[6] in l;
    forall j | 0 <= j < 16 ensures LineOk(l, j, user, dir) {
      if KeyAt(j) != "" {
        ShapeSections(l, repository, dir, user, j);
        KeyIsAllowed(dir, user, j);
      }
    }
    forall i, j | 0 <= i < j < 16 ensures !Clash(l, i, j) {
      ShapePair(l, repository, dir, user, i, j);
    }
  }

  lemma ShapePair(l: Lines, repository: string, dir: string, user: string, i: nat, j: nat)
    requires Shape(l, repository, dir, user) && i < j < 16
    ensures !Clash(l, i, j)
  {
    if KeyAt(i) != "" && KeyAt(j) != "" {
      hide KeyOf, ValueOf, SectionAt, ValueAt, KeyAt;
      assert i > 0;
      ShapeSections(l, repository, dir, user, i);
      ShapeSections(l, repository, dir, user, j);
      if SectionOf(i) == SectionOf(j) { KeysDiffer(i, j); }
      DirectiveIsNoHeader(l[i]);
    } else {
      hide KeyOf, ValueOf, SectionAt, ValueAt, KeyAt;
    }
  }

  /** Which printed line carries an expected key. */
  function LineFor(section: string, key: string): nat {
    if section == UNIT then (if key == "After" then 2 else 3)
    else if section == SERVICE then
      if key == "Type" then 6 else if key == "User" then 7 else if key == "WorkingDirectory" then 8
      else if key == "ExecStart" then 9 else if key == "KillMode" then 10 else if key == "KillSignal" then 11 else 12
    else 15
  }

  lemma ExpectedIsPrinted(repository: string, dir: string, user: string, s: string, key: string)
    requires Header(s) && key in Expected(s, true, user, dir)
    ensures var j := LineFor(s, key);
      0 < j < 16 && KeyAt(j) == key && SectionOf(j) == s && ValueAt(repository, dir, user, j) == Expected(s, true, user, dir)[key]
  {
  }

  /** The canonical Unit is official when the description is short enough. */
  lemma ShapeOfficial(l: Lines, repository: string, dir: string, user: string)
    requires Shape(l, repository, dir, user) && |repository| <= 176
    ensures Official(l, user, dir)
  {
    hide KeyOf, ValueOf, KeyAt, SectionAt, SectionOf, Allowed, ValueAt, Orderly, Expected, LineFor;
    assert l[6] in l && l[0] in l && l[5] in l && l[14] in l;
    ShapeOrderly(l, repository, dir, user);
    forall s, key | Header(s) && key in Expected(s, true, user, dir) ensures Present(l, s, key, Expected(s, true, user, dir)[key]) {
      ExpectedIsPrinted(repository, dir, user, s, key);
      var j := LineFor(s, key);
      KeyNonEmpty(s, key, user, dir);
      ShapeSections(l, repository, dir, user, j);
      assert Sets(l, j, s, key);
    }
    assert Described(l) by {
      DescriptionLine(repository, dir, user);
      ShapeSections(l, repository, dir, user, 1);
      assert Sets(l, 1, UNIT, DESCRIPTION);
    }
  }

  lemma KeyNonEmpty(s: string, key: string, user: string, dir: string)
    requires key in Expected(s, true, user, dir)
    ensures key != ""
  {
  }

  lemma DescriptionLine(repository: string, dir: string, user: string)
    requires |repository| <= 176
    ensures KeyAt(1) == DESCRIPTION && SectionOf(1) == UNIT
    ensures DESCRIPTION_HEAD <= ValueAt(repository, dir, user, 1) && |ValueAt(repository, dir, user, 1)| <= 200
  {
    var v := "GitHub Actions Runner (" + repository + ")";
    assert |v| == 24 + |repository|;
    assert v[..21] == DESCRIPTION_HEAD;
  }

  lemma RepositoryIsOneLine(repository: string)
    requires RepoForm(repository)
    ensures OneLine(repository)
  {
    hide Find;
    assert repository == Owner(repository) + "/" + Project(repository);
  }

  lemma PrintedIsOneLine(repository: string, dir: string, user: string, j: nat)
    requires j < 16 && RepoForm(repository) && UserForm(user) && OneLine(dir)
    ensures OneLine(UnitLines(repository, dir, user)[j])
  {
    hide KeyOf, ValueOf, RepoForm, Directive;
    RepositoryIsOneLine(repository);
    PrintedEntries(repository, dir, user, j);
    hide UnitLines, Header;
    ValueIsOneLine(repository, dir, user, j);
    KeyIsOneLine(j);
  }

  lemma ValueIsOneLine(repository: string, dir: string, user: string, j: nat)
    requires j < 16 && OneLine(repository) && UserForm(user) && OneLine(dir)
    ensures OneLine(ValueAt(repository, dir, user, j))
  {
    assert OneLine(user);
    hide IsBreak;
    if j == 1 {
      PrintableIsOneLine("GitHub Actions Runner (");
      PrintableIsOneLine(")");
    } else if j == 9 {
      PrintableIsOneLine("/runsvc.sh");
    } else if j != 7 && j != 8 {
      assert Printable(ValueAt(repository, dir, user, j));
      PrintableIsOneLine(ValueAt(repository, dir, user, j));
    }
  }

  predicate Printable(s: string) {
    forall k :: 0 <= k < |s| ==> ' ' <= s[k] <= '~'
  }

  lemma PrintableIsOneLine(s: string)
    requires Printable(s)
    ensures OneLine(s)
  {
  }

  lemma KeyIsOneLine(j: nat)
    requires j < 16
    ensures OneLine(KeyAt(j)) && OneLine("=")
  {
    hide IsBreak;
    assert Printable(KeyAt(j));
    PrintableIsOneLine(KeyAt(j));
    PrintableIsOneLine("=");
  }

  lemma NameBoundsRepository(repository: string, runner: string)
    requires CanonicalService(repository, runner).Some?
    ensures |repository| <= 125 && RepoForm(repository)
  {
    hide Find;
    assert repository == Owner(repository) + "/" + Project(repository);
    assert |Scope(Owner(repository), Project(repository))| == |repository|;
  }

  /** Printer and validator agree: whenever the service has a canonical name and the
      installer prints a Unit at all, the validator accepts the printed text if and
      only if the directory contains no line boundary. The printer only refuses a
      newline; the validator also splits at the nine other boundaries. */
  lemma PrinterMeetsValidator(repository: string, runner: string, dir: string, user: string)
    requires CanonicalService(repository, runner).Some? && UnitText(repository, runner, dir, user).Some?
    ensures Official(SplitLines(UnitText(repository, runner, dir, user).value), user, dir) <==> OneLine(dir)
  {
    hide CanonicalService, Official, SplitLines, Unlines, UnitLines;
    var text := UnitText(repository, runner, dir, user).value;
    NameBoundsRepository(repository, runner);
    if OneLine(dir) {
      hide RepoForm;
      var l := UnitLines(repository, dir, user);
      PrintedShape(repository, dir, user);
      forall k | 0 <= k < |l| ensures OneLine(l[k]) { PrintedIsOneLine(repository, dir, user, k); }
      SplitOfUnlines(l);
      ShapeOfficial(l, repository, dir, user);
    } else {
      NotOfficialWithBreak(SplitLines(text), user, dir, text);
    }
  }

  lemma NotOfficialWithBreak(lines: Lines, user: string, dir: string, text: string)
    requires lines == SplitLines(text) && !OneLine(dir)
    ensures !Official(lines, user, dir)
  {
    hide SplitLines, Orderly, Described, SectionAt, Find;
    if Present(lines, SERVICE, "WorkingDirectory", dir) {
      var j :| 0 <= j < |lines| && Sets(lines, j, SERVICE, "WorkingDirectory") && ValueOf(lines[j]) == dir;
      SplitIsOneLine(text, j);
    }
    var keys := Expected(SERVICE, TYPE_SIMPLE in lines, user, dir);
    assert Header(SERVICE) && "WorkingDirectory" in keys && keys["WorkingDirectory"] == dir;
  }

  /** A repository and runner that have a canonical service. */
  lemma SmallService()
    ensures CanonicalService("o/r", "x").Some? && ValidRepository("o/r")
  {
    assert RepoWord("o") && RepoWord("r");
    SplitPair("o", "r");
    assert "o" + "/" + "r" == "o/r";
    assert |Scope("o", "r")| == 3;
  }

  /** A Unit that is printed and refused: its directory contains a carriage return. */
  lemma CarriageReturnIsRefused()
    ensures var text := UnitText("o/r", "x", "/a\rb", "u");
      && CanonicalService("o/r", "x").Some? && text.Some?
      && !Official(SplitLines(text.value), "u", "/a\rb")
  {
    hide SplitLines, Official, Unlines, UnitLines, CanonicalService, ValidRepository;
    SmallService();
    assert UserForm("u") by { assert "u"[0] != '_' && "u"[0] != '-'; }
    assert IsBreak("/a\rb"[2]);
    PrinterMeetsValidator("o/r", "x", "/a\rb", "u");
  }
}
