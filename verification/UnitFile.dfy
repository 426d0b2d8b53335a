/**
 * The canonical systemd Unit: what the installer prints and what the authority's
 * validator accepts.
 */
module UnitFile {
  import opened Wrappers
  import opened Names

  const UNIT := "[Unit]"
  const SERVICE := "[Service]"
  const INSTALL := "[Install]"

  type Lines = seq<string>

  predicate Header(line: string) {
    line == UNIT || line == SERVICE || line == INSTALL
  }

  /** A line that is neither blank nor one of the three headers. */
  predicate Directive(line: string) {
    line != "" && !Header(line)
  }

  function KeyOf(line: string): string { line[..Find(line, '=')] }

  function ValueOf(line: string): string {
    var k := Find(line, '=');
    if k < |line| then line[k + 1..] else ""
  }

  /** The last header before line k. */
  function SectionAt(lines: Lines, k: nat): Option<string>
    requires k <= |lines|
  {
    if k == 0 then None
    else if Header(lines[k - 1]) then Some(lines[k - 1])
    else SectionAt(lines, k - 1)
  }

  /** The keys a section must hold, with their values. */
  function Expected(section: string, simple: bool, user: string, dir: string): map<string, string> {
    if section == UNIT then
      if simple then map["After" := "network-online.target", "Wants" := "network-online.target"]
      else map["After" := "network.target"]
    else if section == SERVICE then
      var common := map["ExecStart" := dir + "/runsvc.sh", "User" := user, "WorkingDirectory" := dir,
                        "KillMode" := "process", "KillSignal" := "SIGTERM", "TimeoutStopSec" := "5min"];
      if simple then common["Type" := "simple"] else common
    else map["WantedBy" := "multi-user.target"]
  }

  const TYPE_SIMPLE := "Type=simple"
  const DESCRIPTION := "Description"
  const DESCRIPTION_HEAD := "GitHub Actions Runner"

  predicate Allowed(section: string, key: string, simple: bool, user: string, dir: string) {
    key in Expected(section, simple, user, dir) || (section == UNIT && key == DESCRIPTION)
  }

  /** Line j is a directive for this key in this section. */
  predicate Sets(lines: Lines, j: nat, section: string, key: string)
    requires j < |lines|
  {
    Directive(lines[j]) && SectionAt(lines, j) == Some(section) && KeyOf(lines[j]) == key
  }

  /** Line j may stand where it stands. */
  predicate LineOk(lines: Lines, j: nat, user: string, dir: string)
    requires j < |lines|
  {
    Directive(lines[j]) ==>
      && lines[j][0] != '[' && '=' in lines[j]
      && SectionAt(lines, j).Some?
      && Allowed(SectionAt(lines, j).value, KeyOf(lines[j]), TYPE_SIMPLE in lines, user, dir)
  }

  /** Neither a header nor a key of one section is repeated. */
  predicate Clash(lines: Lines, i: nat, j: nat)
    requires i < |lines| && j < |lines|
  {
    || (Header(lines[i]) && lines[j] == lines[i])
    || (Directive(lines[i]) && Directive(lines[j])
        && SectionAt(lines, i) == SectionAt(lines, j) && KeyOf(lines[i]) == KeyOf(lines[j]))
  }

  /** The lines before k are in order among themselves. */
  ghost predicate Orderly(lines: Lines, k: nat, user: string, dir: string)
    requires k <= |lines|
  {
    && (forall j :: 0 <= j < k ==> LineOk(lines, j, user, dir))
    && (forall i, j :: 0 <= i < j < k ==> !Clash(lines, i, j))
  }

  ghost predicate Present(lines: Lines, section: string, key: string, value: string) {
    exists j :: 0 <= j < |lines| && Sets(lines, j, section, key) && ValueOf(lines[j]) == value
  }

  ghost predicate Described(lines: Lines) {
    exists j :: 0 <= j < |lines| && Sets(lines, j, UNIT, DESCRIPTION)
      && DESCRIPTION_HEAD <= ValueOf(lines[j]) && |ValueOf(lines[j])| <= 200
  }

  /** The schema: three sections, each once; in each exactly the expected keys,
      each once and with its value; and a short description of the right kind. */
  ghost predicate Official(lines: Lines, user: string, dir: string) {
    var simple := TYPE_SIMPLE in lines;
    && Orderly(lines, |lines|, user, dir)
    && (forall s :: Header(s) ==> s in lines)
    && (forall s, key :: Header(s) && key in Expected(s, simple, user, dir) ==>
          Present(lines, s, key, Expected(s, simple, user, dir)[key]))
    && Described(lines)
  }

  type Parsed = map<string, map<string, string>>

  /** What the parser holds after k lines. */
  ghost predicate Tracks(parsed: Parsed, section: Option<string>, lines: Lines, k: nat)
    requires k <= |lines|
  {
    && section == SectionAt(lines, k)
    && (forall s :: s in parsed <==> Header(s) && s in lines[..k])
    && (forall s, key :: s in parsed && key in parsed[s] ==>
          exists j :: 0 <= j < k && Sets(lines, j, s, key) && ValueOf(lines[j]) == parsed[s][key])
    && (forall j :: 0 <= j < k && Directive(lines[j]) && SectionAt(lines, j).Some? ==>
          SectionAt(lines, j).value in parsed && KeyOf(lines[j]) in parsed[SectionAt(lines, j).value])
  }

  lemma SectionIsHeader(lines: Lines, k: nat)
    requires k <= |lines|
    ensures SectionAt(lines, k).Some? ==> Header(SectionAt(lines, k).value) && SectionAt(lines, k).value in lines[..k]
  {
    if k > 0 {
      SectionIsHeader(lines, k - 1);
      assert lines[k - 1] in lines[..k];
      assert forall s :: s in lines[..k - 1] ==> s in lines[..k];
    }
  }

  lemma SectionStep(lines: Lines, k: nat)
    requires k < |lines|
    ensures SectionAt(lines, k + 1) == if Header(lines[k]) then Some(lines[k]) else SectionAt(lines, k)
  {
  }

  /** `validate_official_unit`: it accepts exactly the official Units. */
  method Validate(lines: Lines, user: string, dir: string) returns (ok: bool)
    ensures ok <==> Official(lines, user, dir)
  {
    hide Expected, KeyOf, ValueOf, SectionAt, Header, Tracks, Allowed, Official;
    var simple := TYPE_SIMPLE in lines;
    var parsed: Parsed := map[];
    var section: Option<string> := None;
    TrackStart(lines);
    for k := 0 to |lines|
      invariant Tracks(parsed, section, lines, k)
      invariant Orderly(lines, k, user, dir)
    {
      var line := lines[k];
      ghost var before := parsed;
      TrackSection(parsed, section, lines, k);
      if line == "" {
        BlankIsNoHeader();
        TrackBlank(parsed, section, lines, k);
        continue;
      }
      if Header(line) {
        if line in parsed {
          TrackedHeader(parsed, section, lines, k);
          Repeated(lines, k, user, dir);
          return false;
        }
        NewHeader(parsed, section, lines, k);
        TrackHeader(parsed, section, lines, k);
        parsed := parsed[line := map[]];
        section := Some(line);
        continue;
      }
      if line[0] == '[' || section.None? || '=' !in line {
        BadLine(lines, k, user, dir);
        return false;
      }
      var key, value := KeyOf(line), ValueOf(line);
      if key in parsed[section.value] {
        TrackedKey(parsed, section, lines, k, user, dir);
        return false;
      }
      if !Allowed(section.value, key, simple, user, dir) {
        BadLine(lines, k, user, dir);
        return false;
      }
      NewKey(parsed, section, lines, k);
      TrackDirective(parsed, section, lines, k);
      parsed := parsed[section.value := parsed[section.value][key := value]];
    }
    ok := Complete(parsed, section, lines, user, dir);
  }

  lemma TrackStart(lines: Lines)
    ensures Tracks(map[], None, lines, 0)
  {
  }

  lemma TrackSection(parsed: Parsed, section: Option<string>, lines: Lines, k: nat)
    requires k < |lines| && Tracks(parsed, section, lines, k)
    ensures section == SectionAt(lines, k) && (section.Some? ==> section.value in parsed)
  {
    hide KeyOf, ValueOf;
    SectionIsHeader(lines, k);
  }

  lemma BlankIsNoHeader()
    ensures !Header("")
  {
  }

  lemma TrackBlank(parsed: Parsed, section: Option<string>, lines: Lines, k: nat)
    requires k < |lines| && Tracks(parsed, section, lines, k) && lines[k] == "" && !Header(lines[k])
    ensures Tracks(parsed, section, lines, k + 1)
  {
    hide KeyOf, ValueOf, SectionAt, Header;
    SectionStep(lines, k);
    assert lines[..k + 1] == lines[..k] + [lines[k]];
  }

  lemma TrackHeader(parsed: Parsed, section: Option<string>, lines: Lines, k: nat)
    requires k < |lines| && Tracks(parsed, section, lines, k) && Header(lines[k]) && lines[k] !in parsed
    ensures Tracks(parsed[lines[k] := map[]], Some(lines[k]), lines, k + 1)
  {
    hide KeyOf, ValueOf, SectionAt, Header;
    SectionStep(lines, k);
    assert lines[..k + 1] == lines[..k] + [lines[k]];
  }

  lemma TrackDirective(parsed: Parsed, section: Option<string>, lines: Lines, k: nat)
    requires k < |lines| && Tracks(parsed, section, lines, k) && Directive(lines[k]) && section.Some? && section.value in parsed
    requires KeyOf(lines[k]) !in parsed[section.value]
    ensures Tracks(parsed[section.value := parsed[section.value][KeyOf(lines[k]) := ValueOf(lines[k])]], section, lines, k + 1)
  {
    hide KeyOf, ValueOf, SectionAt, Header;
    SectionStep(lines, k);
    assert lines[..k + 1] == lines[..k] + [lines[k]];
    var parsed' := parsed[section.value := parsed[section.value][KeyOf(lines[k]) := ValueOf(lines[k])]];
    assert Sets(lines, k, section.value, KeyOf(lines[k]));
    forall s, key | s in parsed' && key in parsed'[s]
      ensures exists j :: 0 <= j < k + 1 && Sets(lines, j, s, key) && ValueOf(lines[j]) == parsed'[s][key]
    {
      if s != section.value || key != KeyOf(lines[k]) {
        var j :| 0 <= j < k && Sets(lines, j, s, key) && ValueOf(lines[j]) == parsed[s][key];
      }
    }
  }

  lemma TrackedHeader(parsed: Parsed, section: Option<string>, lines: Lines, k: nat)
    requires k < |lines| && Tracks(parsed, section, lines, k) && lines[k] in parsed
    ensures lines[k] in lines[..k]
  {
    hide KeyOf, ValueOf, SectionAt, Header;
  }

  /** A header that was not there before clashes with nothing. */
  lemma NewHeader(parsed: Parsed, section: Option<string>, lines: Lines, k: nat)
    requires k < |lines| && Tracks(parsed, section, lines, k) && Header(lines[k]) && lines[k] !in parsed
    ensures forall i :: 0 <= i < k ==> !Clash(lines, i, k)
  {
    hide KeyOf, ValueOf, SectionAt, Header;
    assert forall i :: 0 <= i < k ==> lines[i] in lines[..k];
  }

  lemma NewKey(parsed: Parsed, section: Option<string>, lines: Lines, k: nat)
    requires k < |lines| && Tracks(parsed, section, lines, k) && Directive(lines[k]) && section.Some? && section.value in parsed
    requires KeyOf(lines[k]) !in parsed[section.value]
    ensures forall i :: 0 <= i < k ==> !Clash(lines, i, k)
  {
    hide KeyOf, ValueOf, SectionAt, Header;
  }

  lemma TrackedKey(parsed: Parsed, section: Option<string>, lines: Lines, k: nat, user: string, dir: string)
    requires k < |lines| && Tracks(parsed, section, lines, k) && Directive(lines[k]) && section.Some? && section.value in parsed
    requires KeyOf(lines[k]) in parsed[section.value]
    ensures !Official(lines, user, dir)
  {
    hide KeyOf, ValueOf, SectionAt, Header, LineOk, Present, Described;
    var j :| 0 <= j < k && Sets(lines, j, section.value, KeyOf(lines[k]));
    assert Clash(lines, j, k);
  }

  lemma BadLine(lines: Lines, k: nat, user: string, dir: string)
    requires k < |lines| && !LineOk(lines, k, user, dir)
    ensures !Official(lines, user, dir)
  {
    hide LineOk, Clash, Present, Described;
  }

  lemma Repeated(lines: Lines, k: nat, user: string, dir: string)
    requires k < |lines| && Header(lines[k]) && lines[k] in lines[..k]
    ensures !Official(lines, user, dir)
  {
    var j :| 0 <= j < k && lines[..k][j] == lines[k];
    assert Clash(lines, j, k);
  }

  /** The checks after the last line. */
  method Complete(parsed: Parsed, ghost section: Option<string>, lines: Lines, user: string, dir: string) returns (ok: bool)
    requires Tracks(parsed, section, lines, |lines|) && Orderly(lines, |lines|, user, dir)
    ensures ok <==> Official(lines, user, dir)
  {
    hide Expected, KeyOf, ValueOf, SectionAt, Header, Orderly, Filled;
    if parsed.Keys != {UNIT, SERVICE, INSTALL} {
      Headers(parsed, section, lines, user, dir);
      return false;
    }
    Headers(parsed, section, lines, user, dir);
    var sections := [UNIT, SERVICE, INSTALL];
    for i := 0 to 3
      invariant forall j :: 0 <= j < i ==> Filled(parsed, sections[j], lines, user, dir)
    {
      var filled := CheckSection(parsed, section, sections[i], lines, user, dir);
      if !filled { return false; }
    }
    assert Filled(parsed, sections[0], lines, user, dir);
    assert Filled(parsed, sections[1], lines, user, dir);
    assert Filled(parsed, sections[2], lines, user, dir);
    DescriptionHeld(parsed, lines, user, dir);
    var description := parsed[UNIT][DESCRIPTION];
    ok := DESCRIPTION_HEAD <= description && |description| <= 200;
    Decided(parsed, section, lines, user, dir, description);
  }

  lemma DescriptionHeld(parsed: Parsed, lines: Lines, user: string, dir: string)
    requires Filled(parsed, UNIT, lines, user, dir)
    ensures UNIT in parsed && DESCRIPTION in parsed[UNIT]
  {
  }

  lemma Headers(parsed: Parsed, section: Option<string>, lines: Lines, user: string, dir: string)
    requires Tracks(parsed, section, lines, |lines|)
    ensures parsed.Keys != {UNIT, SERVICE, INSTALL} ==> !Official(lines, user, dir)
    ensures parsed.Keys == {UNIT, SERVICE, INSTALL} ==> Header(UNIT) && Header(SERVICE) && Header(INSTALL)
  {
    hide Expected, Orderly, SectionAt, KeyOf, ValueOf, Described;
    assert lines[..|lines|] == lines;
    assert forall s :: s in parsed ==> s in {UNIT, SERVICE, INSTALL};
    if parsed.Keys != {UNIT, SERVICE, INSTALL} {
      assert UNIT !in parsed || SERVICE !in parsed || INSTALL !in parsed;
    }
  }

  /** The two checks of one section. */
  method CheckSection(parsed: Parsed, ghost section: Option<string>, s: string, lines: Lines, user: string, dir: string)
    returns (ok: bool)
    requires Tracks(parsed, section, lines, |lines|) && Orderly(lines, |lines|, user, dir) && Header(s) && s in parsed
    ensures ok <==> Filled(parsed, s, lines, user, dir)
    ensures !ok ==> !Official(lines, user, dir)
  {
    hide Expected, KeyOf, ValueOf, SectionAt, Header, Orderly, Present, Described;
    var keys := Expected(s, TYPE_SIMPLE in lines, user, dir);
    if !(forall key :: key in keys ==> key in parsed[s] && parsed[s][key] == keys[key]) {
      NotFilled(parsed, section, s, lines, user, dir);
      return false;
    }
    if parsed[s].Keys != keys.Keys + (if s == UNIT then {DESCRIPTION} else {}) {
      NotDescribed(parsed, section, s, lines, user, dir);
      return false;
    }
    ok := true;
  }

  ghost predicate Filled(parsed: Parsed, s: string, lines: Lines, user: string, dir: string) {
    var keys := Expected(s, TYPE_SIMPLE in lines, user, dir);
    && s in parsed
    && (forall key :: key in keys ==> key in parsed[s] && parsed[s][key] == keys[key])
    && parsed[s].Keys == keys.Keys + (if s == UNIT then {DESCRIPTION} else {})
  }

  /** A value the parser holds is the value of the only line that sets its key. */
  lemma OneSetter(parsed: Parsed, section: Option<string>, s: string, key: string, lines: Lines, user: string, dir: string, j: nat)
    requires Tracks(parsed, section, lines, |lines|) && Orderly(lines, |lines|, user, dir)
    requires j < |lines| && Sets(lines, j, s, key)
    ensures s in parsed && key in parsed[s] && parsed[s][key] == ValueOf(lines[j])
  {
    hide Expected, KeyOf, ValueOf, SectionAt, Header, LineOk;
    var i :| 0 <= i < |lines| && Sets(lines, i, s, key) && ValueOf(lines[i]) == parsed[s][key];
    assert i < j ==> !Clash(lines, i, j);
    assert j < i ==> !Clash(lines, j, i);
  }

  lemma NotFilled(parsed: Parsed, section: Option<string>, s: string, lines: Lines, user: string, dir: string)
    requires Tracks(parsed, section, lines, |lines|) && Orderly(lines, |lines|, user, dir) && Header(s) && s in parsed
    requires var keys := Expected(s, TYPE_SIMPLE in lines, user, dir);
      !(forall key :: key in keys ==> key in parsed[s] && parsed[s][key] == keys[key])
    ensures !Official(lines, user, dir)
  {
    hide Expected, Clash, LineOk;
    var keys := Expected(s, TYPE_SIMPLE in lines, user, dir);
    var key :| key in keys && !(key in parsed[s] && parsed[s][key] == keys[key]);
    if Present(lines, s, key, keys[key]) {
      var j :| 0 <= j < |lines| && Sets(lines, j, s, key) && ValueOf(lines[j]) == keys[key];
      OneSetter(parsed, section, s, key, lines, user, dir, j);
    }
  }

  lemma NotDescribed(parsed: Parsed, section: Option<string>, s: string, lines: Lines, user: string, dir: string)
    requires Tracks(parsed, section, lines, |lines|) && Orderly(lines, |lines|, user, dir) && Header(s) && s in parsed
    requires var keys := Expected(s, TYPE_SIMPLE in lines, user, dir);
      && (forall key :: key in keys ==> key in parsed[s] && parsed[s][key] == keys[key])
      && parsed[s].Keys != keys.Keys + (if s == UNIT then {DESCRIPTION} else {})
    ensures !Official(lines, user, dir)
  {
    hide Expected, Clash, Present;
    var keys := Expected(s, TYPE_SIMPLE in lines, user, dir);
    forall key | key in parsed[s] ensures key in keys || (s == UNIT && key == DESCRIPTION) {
      var j :| 0 <= j < |lines| && Sets(lines, j, s, key) && ValueOf(lines[j]) == parsed[s][key];
      assert LineOk(lines, j, user, dir);
    }
    assert s == UNIT && DESCRIPTION !in parsed[UNIT];
    assert forall j :: 0 <= j < |lines| ==> !Sets(lines, j, UNIT, DESCRIPTION);
  }

  lemma Decided(parsed: Parsed, section: Option<string>, lines: Lines, user: string, dir: string, description: string)
    requires Tracks(parsed, section, lines, |lines|) && Orderly(lines, |lines|, user, dir)
    requires Filled(parsed, UNIT, lines, user, dir) && Filled(parsed, SERVICE, lines, user, dir)
    requires Filled(parsed, INSTALL, lines, user, dir)
    requires DESCRIPTION in parsed[UNIT] && description == parsed[UNIT][DESCRIPTION]
    ensures Official(lines, user, dir) <==> DESCRIPTION_HEAD <= description && |description| <= 200
  {
    hide Expected, Clash, LineOk, KeyOf, ValueOf, SectionAt;
    var simple := TYPE_SIMPLE in lines;
    assert lines[..|lines|] == lines;
    forall s, key | Header(s) && key in Expected(s, simple, user, dir)
      ensures Present(lines, s, key, Expected(s, simple, user, dir)[key])
    {
      assert Filled(parsed, s, lines, user, dir);
    }
    if Described(lines) {
      var j :| 0 <= j < |lines| && Sets(lines, j, UNIT, DESCRIPTION)
        && DESCRIPTION_HEAD <= ValueOf(lines[j]) && |ValueOf(lines[j])| <= 200;
      OneSetter(parsed, section, UNIT, DESCRIPTION, lines, user, dir, j);
    }
    var d :| 0 <= d < |lines| && Sets(lines, d, UNIT, DESCRIPTION) && ValueOf(lines[d]) == description;
  }

  /** An official Unit starts one program: some line sets ExecStart to the runner's
      own wrapper, and no other line sets ExecStart at all. */
  lemma OfficialStartsOnlyTheRunner(lines: Lines, user: string, dir: string) returns (j: nat)
    requires Official(lines, user, dir)
    ensures j < |lines| && Sets(lines, j, SERVICE, "ExecStart") && ValueOf(lines[j]) == dir + "/runsvc.sh"
    ensures forall i :: 0 <= i < |lines| && Directive(lines[i]) && KeyOf(lines[i]) == "ExecStart" ==> i == j
  {
    var value := dir + "/runsvc.sh";
    assert Present(lines, SERVICE, "ExecStart", value) by {
      hide KeyOf, ValueOf, SectionAt, Orderly, Described, Present;
      var keys := Expected(SERVICE, TYPE_SIMPLE in lines, user, dir);
      assert Header(SERVICE) && "ExecStart" in keys && keys["ExecStart"] == value;
    }
    hide KeyOf, ValueOf, SectionAt, Header, Expected;
    j :| 0 <= j < |lines| && Sets(lines, j, SERVICE, "ExecStart") && ValueOf(lines[j]) == value;
    forall i | 0 <= i < |lines| && Directive(lines[i]) && KeyOf(lines[i]) == "ExecStart" ensures i == j {
      ExecStartInService(lines, i, user, dir);
      SameKeySameLine(lines, i, j, user, dir);
    }
  }

  lemma SameKeySameLine(lines: Lines, i: nat, j: nat, user: string, dir: string)
    requires Official(lines, user, dir) && i < |lines| && j < |lines| && Directive(lines[i]) && Directive(lines[j])
    requires SectionAt(lines, i) == SectionAt(lines, j) && KeyOf(lines[i]) == KeyOf(lines[j])
    ensures i == j
  {
    hide KeyOf, ValueOf, SectionAt, Header, Expected, LineOk, Present, Described;
    assert Clash(lines, i, j) && Clash(lines, j, i);
  }

  lemma ExecStartInService(lines: Lines, i: nat, user: string, dir: string)
    requires Official(lines, user, dir) && i < |lines| && Directive(lines[i]) && KeyOf(lines[i]) == "ExecStart"
    ensures SectionAt(lines, i) == Some(SERVICE)
  {
    hide Clash, Present, Described;
    assert LineOk(lines, i, user, dir);
    SectionIsHeader(lines, i);
  }

  /** No key outside the schema can appear, and none outside a section. */
  lemma OfficialKeysOnly(lines: Lines, user: string, dir: string, i: nat)
    requires Official(lines, user, dir) && i < |lines| && Directive(lines[i])
    ensures SectionAt(lines, i).Some? && Header(SectionAt(lines, i).value)
    ensures Allowed(SectionAt(lines, i).value, KeyOf(lines[i]), TYPE_SIMPLE in lines, user, dir)
  {
    hide Clash, Present, Described, Expected;
    assert LineOk(lines, i, user, dir);
    SectionIsHeader(lines, i);
  }
}
