/**
 * The accepted Units line by line: the texts that each section of an official Unit
 * holds, each once, and that exactly such Units are accepted.
 */
module UnitTexts {
  import opened Wrappers
  import opened Names
  import opened UnitFile
  import opened UnitPrinter

  /** The lines a section holds, in the template that is printed and in the other. */
  function TextsOf(section: string, simple: bool, user: string, dir: string): set<string> {
    if section == "[Unit]" then
      if simple then {"After=network-online.target", "Wants=network-online.target"} else {"After=network.target"}
    else if section == "[Service]" then
      {"ExecStart=" + dir + "/runsvc.sh", "User=" + user, "WorkingDirectory=" + dir,
       "KillMode=process", "KillSignal=SIGTERM", "TimeoutStopSec=5min"} + (if simple then {"Type=simple"} else {})
    else {"WantedBy=multi-user.target"}
  }

  predicate Describes(line: string) {
    "Description=GitHub Actions Runner" <= line && |line| <= 212
  }

  /** Line j is one of the lines its section holds. */
  predicate Belongs(lines: Lines, j: nat, user: string, dir: string)
    requires j < |lines|
  {
    && SectionAt(lines, j).Some?
    && var s := SectionAt(lines, j).value;
       lines[j] in TextsOf(s, "Type=simple" in lines, user, dir) || (s == "[Unit]" && Describes(lines[j]))
  }

  ghost predicate Holds(lines: Lines, s: string, text: string) {
    exists j :: 0 <= j < |lines| && lines[j] == text && SectionAt(lines, j) == Some(s)
  }

  /** A Unit of three sections that hold their lines, each once, and one description. */
  ghost predicate Spelled(lines: Lines, user: string, dir: string) {
    && (forall s :: s in {"[Unit]", "[Service]", "[Install]"} ==>
          s in lines && forall text :: text in TextsOf(s, "Type=simple" in lines, user, dir) ==> Holds(lines, s, text))
    && (exists j :: 0 <= j < |lines| && Describes(lines[j]) && SectionAt(lines, j) == Some("[Unit]"))
    && (forall j :: 0 <= j < |lines| ==> lines[j] in {"", "[Unit]", "[Service]", "[Install]"} || Belongs(lines, j, user, dir))
    && (forall i, j :: 0 <= i < j < |lines| && lines[i] != "" ==>
          lines[i] != lines[j] && !(Describes(lines[i]) && Describes(lines[j])))
  }

  /* ------------------------------- Texts and keys ------------------------------ */

  predicate PlainKey(key: string) {
    key != "" && '=' !in key && key[0] != '['
  }

  lemma ExpectedKeys(s: string, simple: bool, user: string, dir: string, key: string)
    requires Header(s) && key in Expected(s, simple, user, dir)
    ensures PlainKey(key) && key != "Description"
  {
  }

  lemma ServiceTexts(simple: bool, user: string, dir: string)
    ensures var m := Expected("[Service]", simple, user, dir);
      && Entry("ExecStart", dir + "/runsvc.sh") == "ExecStart=" + dir + "/runsvc.sh"
      && Entry("User", user) == "User=" + user && Entry("WorkingDirectory", dir) == "WorkingDirectory=" + dir
      && Entry("KillMode", "process") == "KillMode=process" && Entry("KillSignal", "SIGTERM") == "KillSignal=SIGTERM"
      && Entry("TimeoutStopSec", "5min") == "TimeoutStopSec=5min" && Entry("Type", "simple") == "Type=simple"
  {
  }

  lemma OnlineTexts()
    ensures Entry("After", "network-online.target") == "After=network-online.target"
    ensures Entry("Wants", "network-online.target") == "Wants=network-online.target"
  {
    var tail := "network-online.target";
    assert "After" + "=" == "After=" && "Wants" + "=" == "Wants=";
    assert "After=" + tail == "After=network-online.target";
    assert "Wants=" + tail == "Wants=network-online.target";
  }

  lemma NetworkText()
    ensures Entry("After", "network.target") == "After=network.target"
  {
  }

  lemma InstallText()
    ensures Entry("WantedBy", "multi-user.target") == "WantedBy=multi-user.target"
  {
  }

  lemma OtherTexts()
    ensures Entry("After", "network-online.target") == "After=network-online.target"
    ensures Entry("Wants", "network-online.target") == "Wants=network-online.target"
    ensures Entry("After", "network.target") == "After=network.target"
    ensures Entry("WantedBy", "multi-user.target") == "WantedBy=multi-user.target"
  {
    hide Entry;
    OnlineTexts();
    NetworkText();
    InstallText();
  }

  /** The texts are the expected keys with their values. */
  lemma KeyHasText(s: string, simple: bool, user: string, dir: string, key: string)
    requires Header(s) && key in Expected(s, simple, user, dir)
    ensures Entry(key, Expected(s, simple, user, dir)[key]) in TextsOf(s, simple, user, dir)
  {
    hide Entry;
    ServiceTexts(simple, user, dir);
    OtherTexts();
  }

  lemma TextHasKey(s: string, simple: bool, user: string, dir: string, text: string) returns (key: string)
    requires Header(s) && text in TextsOf(s, simple, user, dir)
    ensures key in Expected(s, simple, user, dir) && text == Entry(key, Expected(s, simple, user, dir)[key])
  {
    hide Entry;
    ServiceTexts(simple, user, dir);
    OtherTexts();
    if s == "[Service]" {
      key := if text == "User=" + user then "User" else if text == "WorkingDirectory=" + dir then "WorkingDirectory"
        else if text == "ExecStart=" + dir + "/runsvc.sh" then "ExecStart" else if text == "KillMode=process" then "KillMode"
        else if text == "KillSignal=SIGTERM" then "KillSignal" else if text == "TimeoutStopSec=5min" then "TimeoutStopSec" else "Type";
    } else if s == "[Unit]" {
      key := if text == "Wants=network-online.target" then "Wants" else "After";
    } else {
      key := "WantedBy";
    }
  }

  /** A directive is its key and its value. */
  lemma LineIsEntry(line: string)
    requires '=' in line
    ensures line == Entry(KeyOf(line), ValueOf(line))
  {
    var k := Find(line, '=');
    assert line == line[..k] + "=" + line[k + 1..];
  }

  lemma EntryOf(key: string, value: string, text: string)
    requires PlainKey(key) && text == Entry(key, value)
    ensures KeyOf(text) == key && ValueOf(text) == value && Directive(text) && text[0] != '[' && '=' in text
  {
    EntryParts(key, value);
  }

  const DESCRIPTION_LINE := "Description=GitHub Actions Runner"

  lemma DescriptionStart()
    ensures DESCRIPTION_LINE == Entry("Description", DESCRIPTION_HEAD)
  {
  }

  lemma EntryPrefix(key: string, head: string, value: string)
    ensures Entry(key, head) <= Entry(key, value) <==> head <= value
  {
    var e, f := Entry(key, head), Entry(key, value);
    assert e[|key| + 1..] == head && f[|key| + 1..] == value;
    if e <= f { assert f[..|e|][|key| + 1..] == value[..|head|]; }
  }

  lemma StartIsEntry(line: string)
    requires DESCRIPTION_LINE <= line
    ensures '=' in line && KeyOf(line) == "Description"
  {
    hide Find;
    assert line[11] == '=';
    assert line[..12] == DESCRIPTION_LINE[..12];
    assert line[..11] == "Description";
    var v := line[12..];
    assert line == Entry("Description", v);
    EntryParts("Description", v);
  }

  lemma DescribesIs(line: string)
    ensures Describes(line) <==>
      '=' in line && KeyOf(line) == "Description" && DESCRIPTION_HEAD <= ValueOf(line) && |ValueOf(line)| <= 200
  {
    hide KeyOf, ValueOf;
    DescriptionStart();
    if DESCRIPTION_LINE <= line { StartIsEntry(line); }
    if '=' in line && KeyOf(line) == "Description" {
      LineIsEntry(line);
      EntryPrefix("Description", DESCRIPTION_HEAD, ValueOf(line));
    }
  }

  /* ----------------------------- Accepted is spelled ---------------------------- */

  lemma KeyTellsSection(s: string, t: string, simple: bool, user: string, dir: string, key: string)
    requires Header(s) && Header(t) && Allowed(s, key, simple, user, dir) && Allowed(t, key, simple, user, dir)
    ensures s == t
  {
  }

  /** A directive of an official Unit is one of the lines of its section. */
  lemma OfficialBelongs(lines: Lines, user: string, dir: string, j: nat)
    requires Official(lines, user, dir) && j < |lines| && Directive(lines[j])
    ensures Belongs(lines, j, user, dir)
    ensures '=' in lines[j] && (Describes(lines[j]) <==> KeyOf(lines[j]) == "Description")
  {
    hide Orderly, Find, KeyOf, ValueOf, Expected, Directive, Describes, SectionAt, TextsOf, Clash;
    var simple := TYPE_SIMPLE in lines;
    OfficialKeysOnly(lines, user, dir, j);
    DirectiveHasEquals(lines, user, dir, j);
    var s, key := SectionAt(lines, j).value, KeyOf(lines[j]);
    DescribesIs(lines[j]);
    if key in Expected(s, simple, user, dir) {
      ExpectedKeys(s, simple, user, dir, key);
      var i :| 0 <= i < |lines| && Sets(lines, i, s, key) && ValueOf(lines[i]) == Expected(s, simple, user, dir)[key];
      SameKeySameLine(lines, i, j, user, dir);
      LineIsEntry(lines[j]);
      KeyHasText(s, simple, user, dir, key);
    } else {
      var i :| 0 <= i < |lines| && Sets(lines, i, UNIT, DESCRIPTION) && DESCRIPTION_HEAD <= ValueOf(lines[i]) && |ValueOf(lines[i])| <= 200;
      SameKeySameLine(lines, i, j, user, dir);
    }
  }

  lemma DirectiveHasEquals(lines: Lines, user: string, dir: string, j: nat)
    requires Official(lines, user, dir) && j < |lines| && Directive(lines[j])
    ensures '=' in lines[j]
  {
    hide Clash, Present, Described, Expected, Allowed, Directive;
    assert LineOk(lines, j, user, dir);
  }

  lemma OfficialHolds(lines: Lines, user: string, dir: string, s: string, text: string)
    requires Official(lines, user, dir) && Header(s) && text in TextsOf(s, TYPE_SIMPLE in lines, user, dir)
    ensures Holds(lines, s, text)
  {
    hide Orderly, Find, KeyOf, ValueOf, Expected, Directive, Header, SectionAt, TextsOf, Described;
    var simple := TYPE_SIMPLE in lines;
    var key := TextHasKey(s, simple, user, dir, text);
    assert Present(lines, s, key, Expected(s, simple, user, dir)[key]);
    var j :| 0 <= j < |lines| && Sets(lines, j, s, key) && ValueOf(lines[j]) == Expected(s, simple, user, dir)[key];
    DirectiveHasEquals(lines, user, dir, j);
    LineIsEntry(lines[j]);
  }

  lemma OfficialOnce(lines: Lines, user: string, dir: string, i: nat, j: nat)
    requires Official(lines, user, dir) && i < j < |lines| && lines[i] != ""
    ensures lines[i] != lines[j] && !(Describes(lines[i]) && Describes(lines[j]))
  {
    hide Find, KeyOf, ValueOf, Expected, SectionAt, TextsOf, LineOk, Present, Described, Allowed, Describes;
    assert !Clash(lines, i, j);
    DescribesIs(lines[i]);
    DescribesIs(lines[j]);
    DescribesIsNoHeader(lines[i]);
    DescribesIsNoHeader(lines[j]);
    if Directive(lines[i]) && Directive(lines[j]) {
      OfficialKeysOnly(lines, user, dir, i);
      OfficialKeysOnly(lines, user, dir, j);
      if KeyOf(lines[i]) == KeyOf(lines[j]) {
        KeyTellsSection(SectionAt(lines, i).value, SectionAt(lines, j).value, TYPE_SIMPLE in lines, user, dir, KeyOf(lines[i]));
      }
    }
  }

  lemma DescribesIsNoHeader(line: string)
    ensures Describes(line) ==> Directive(line)
  {
  }

  lemma OfficialIsDescribed(lines: Lines, user: string, dir: string)
    requires Official(lines, user, dir)
    ensures exists j :: 0 <= j < |lines| && Describes(lines[j]) && SectionAt(lines, j) == Some("[Unit]")
  {
    hide Orderly, Find, KeyOf, ValueOf, Expected, SectionAt, Present, Allowed, Describes;
    var j :| 0 <= j < |lines| && Sets(lines, j, UNIT, DESCRIPTION) && DESCRIPTION_HEAD <= ValueOf(lines[j]) && |ValueOf(lines[j])| <= 200;
    DirectiveHasEquals(lines, user, dir, j);
    DescribesIs(lines[j]);
  }

  lemma OfficialHoldsAll(lines: Lines, user: string, dir: string)
    requires Official(lines, user, dir)
    ensures forall s :: s in {"[Unit]", "[Service]", "[Install]"} ==>
      s in lines && forall text :: text in TextsOf(s, "Type=simple" in lines, user, dir) ==> Holds(lines, s, text)
  {
    hide Orderly, SectionAt, TextsOf, Holds, Describes, Present, Described, Expected;
    forall s | s in {"[Unit]", "[Service]", "[Install]"}
      ensures s in lines && forall text :: text in TextsOf(s, "Type=simple" in lines, user, dir) ==> Holds(lines, s, text)
    {
      assert Header(s);
      forall text | text in TextsOf(s, TYPE_SIMPLE in lines, user, dir) ensures Holds(lines, s, text) {
        OfficialHolds(lines, user, dir, s, text);
      }
    }
  }

  lemma OfficialBelongsAll(lines: Lines, user: string, dir: string)
    requires Official(lines, user, dir)
    ensures forall j :: 0 <= j < |lines| ==> lines[j] in {"", "[Unit]", "[Service]", "[Install]"} || Belongs(lines, j, user, dir)
  {
    hide Official, SectionAt, Belongs, Describes;
    forall j | 0 <= j < |lines| && lines[j] !in {"", "[Unit]", "[Service]", "[Install]"} ensures Belongs(lines, j, user, dir) {
      OfficialBelongs(lines, user, dir, j);
    }
  }

  lemma OfficialOnceAll(lines: Lines, user: string, dir: string)
    requires Official(lines, user, dir)
    ensures forall i, j :: 0 <= i < j < |lines| && lines[i] != "" ==>
      lines[i] != lines[j] && !(Describes(lines[i]) && Describes(lines[j]))
  {
    hide Official, Describes;
    forall i, j | 0 <= i < j < |lines| && lines[i] != ""
      ensures lines[i] != lines[j] && !(Describes(lines[i]) && Describes(lines[j]))
    {
      OfficialOnce(lines, user, dir, i, j);
    }
  }

  lemma OfficialIsSpelled(lines: Lines, user: string, dir: string)
    requires Official(lines, user, dir)
    ensures Spelled(lines, user, dir)
  {
    hide Official, SectionAt, TextsOf, Holds, Describes, Belongs;
    OfficialHoldsAll(lines, user, dir);
    OfficialIsDescribed(lines, user, dir);
    OfficialBelongsAll(lines, user, dir);
    OfficialOnceAll(lines, user, dir);
  }

  /* ----------------------------- Spelled is accepted ---------------------------- */

  /** The key of a line that belongs where it stands, and its value. */
  lemma BelongingKey(lines: Lines, user: string, dir: string, j: nat)
    requires j < |lines| && Belongs(lines, j, user, dir)
    ensures LineOk(lines, j, user, dir)
    ensures var m := Expected(SectionAt(lines, j).value, TYPE_SIMPLE in lines, user, dir);
      Describes(lines[j]) || (KeyOf(lines[j]) in m && lines[j] == Entry(KeyOf(lines[j]), m[KeyOf(lines[j])]))
  {
    hide Expected, TextsOf, KeyOf, ValueOf, Find, Describes, Entry;
    SectionIsHeader(lines, j);
    var s, simple := SectionAt(lines, j).value, TYPE_SIMPLE in lines;
    hide SectionAt, Header;
    if lines[j] in TextsOf(s, simple, user, dir) {
      var key := TextHasKey(s, simple, user, dir, lines[j]);
      ExpectedKeys(s, simple, user, dir, key);
      EntryOf(key, Expected(s, simple, user, dir)[key], lines[j]);
    } else {
      DescribesIs(lines[j]);
      DescriptionOpens(lines[j]);
    }
  }

  lemma DescriptionOpens(line: string)
    requires Describes(line)
    ensures line[0] != '['
  {
  }

  lemma SpelledOrderly(lines: Lines, user: string, dir: string)
    requires Spelled(lines, user, dir)
    ensures Orderly(lines, |lines|, user, dir)
  {
    hide Expected, TextsOf, KeyOf, ValueOf, Find, Describes, Entry, Holds, SectionAt, Belongs, LineOk;
    forall j | 0 <= j < |lines| ensures LineOk(lines, j, user, dir) {
      if Directive(lines[j]) { BelongingKey(lines, user, dir, j); } else { NoDirectiveOk(lines, user, dir, j); }
    }
    forall i, j | 0 <= i < j < |lines| ensures !Clash(lines, i, j) {
      if Directive(lines[i]) && Directive(lines[j]) {
        BelongingKey(lines, user, dir, i);
        BelongingKey(lines, user, dir, j);
        DescribesIs(lines[i]);
        DescribesIs(lines[j]);
        DescriptionIsNotExpected(lines, user, dir, i);
        DescriptionIsNotExpected(lines, user, dir, j);
      }
    }
  }

  lemma NoDirectiveOk(lines: Lines, user: string, dir: string, j: nat)
    requires j < |lines| && !Directive(lines[j])
    ensures LineOk(lines, j, user, dir)
  {
  }

  lemma DescriptionIsNotExpected(lines: Lines, user: string, dir: string, j: nat)
    requires j < |lines| && Belongs(lines, j, user, dir)
    ensures "Description" !in Expected(SectionAt(lines, j).value, TYPE_SIMPLE in lines, user, dir)
  {
    SectionIsHeader(lines, j);
  }

  lemma SpelledPresent(lines: Lines, user: string, dir: string, s: string, key: string)
    requires Spelled(lines, user, dir) && Header(s) && key in Expected(s, TYPE_SIMPLE in lines, user, dir)
    ensures Present(lines, s, key, Expected(s, TYPE_SIMPLE in lines, user, dir)[key])
  {
    hide Expected, TextsOf, KeyOf, ValueOf, Find, Describes, Entry, SectionAt, Belongs;
    var simple := TYPE_SIMPLE in lines;
    KeyHasText(s, simple, user, dir, key);
    var text := Entry(key, Expected(s, simple, user, dir)[key]);
    assert Holds(lines, s, text);
    var j :| 0 <= j < |lines| && lines[j] == text && SectionAt(lines, j) == Some(s);
    ExpectedKeys(s, simple, user, dir, key);
    EntryOf(key, Expected(s, simple, user, dir)[key], text);
    assert Sets(lines, j, s, key);
  }

  lemma SpelledIsDescribed(lines: Lines, user: string, dir: string)
    requires Spelled(lines, user, dir)
    ensures Described(lines)
  {
    hide KeyOf, ValueOf, Find, TextsOf, Holds, SectionAt, Belongs, Describes;
    var j :| 0 <= j < |lines| && Describes(lines[j]) && SectionAt(lines, j) == Some("[Unit]");
    DescribesIs(lines[j]);
    DescribesIsNoHeader(lines[j]);
    assert Sets(lines, j, UNIT, DESCRIPTION);
  }

  /** A Unit is official exactly when it is three sections that hold these lines, each
      once, and one description: no line more, none less, none elsewhere. */
  lemma OfficialTexts(lines: Lines, user: string, dir: string)
    ensures Official(lines, user, dir) <==> Spelled(lines, user, dir)
  {
    if Official(lines, user, dir) { OfficialIsSpelled(lines, user, dir); }
    hide Orderly, Expected, Present, Described, TextsOf, Holds, SectionAt, Belongs, Describes;
    if Spelled(lines, user, dir) {
      SpelledOrderly(lines, user, dir);
      SpelledIsDescribed(lines, user, dir);
      forall s, key | Header(s) && key in Expected(s, TYPE_SIMPLE in lines, user, dir)
        ensures Present(lines, s, key, Expected(s, TYPE_SIMPLE in lines, user, dir)[key])
      {
        SpelledPresent(lines, user, dir, s, key);
      }
    }
  }
}
