/**
 * Requests between the Web process and the executor, as flat JSON objects:
 * string keys, and values that are plain strings or non-negative integers.
 */
module Contract {
  import opened Wrappers
  import opened Names
  import opened Binding

  const MAX_REQUEST_BYTES: nat := 4096
  const RUNNER_ID_MAX: nat := 0x7FFF_FFFF_FFFF_FFFF

  datatype Request =
    | CreateRequest(repository: string)
    | RemoveRequest(repository: string, runnerName: string, runnerId: int, instance: string)
    | StatusRequest

  /* --------------------------------- Flat JSON --------------------------------- */

  datatype Json = JString(text: string) | JNumber(n: nat)

  predicate PlainChar(c: char) {
    ' ' <= c <= '~' && c != '"' && c != '\\'
  }

  predicate Plain(s: string) {
    forall k :: 0 <= k < |s| ==> PlainChar(s[k])
  }

  predicate Digit(c: char) { '0' <= c <= '9' }

  function DigitChar(d: nat): char
    requires d < 10
  {
    ('0' as int + d) as char
  }

  function Decimal(n: nat): string {
    if n < 10 then [DigitChar(n)] else Decimal(n / 10) + [DigitChar(n % 10)]
  }

  /** The value of a run of digits, continuing from acc. */
  function Number(s: string, acc: nat): nat
    requires forall k :: 0 <= k < |s| ==> Digit(s[k])
  {
    if s == "" then acc
    else
      assert Digit(s[0]);
      Number(s[1..], acc * 10 + (s[0] as int - '0' as int))
  }

  function PrintValue(v: Json): string {
    match v
    case JString(t) => "\"" + t + "\""
    case JNumber(n) => Decimal(n)
  }

  function PrintPair(p: (string, Json)): string {
    "\"" + p.0 + "\":" + PrintValue(p.1)
  }

  function PrintPairs(ps: seq<(string, Json)>): string {
    if ps == [] then "" else if |ps| == 1 then PrintPair(ps[0]) else PrintPair(ps[0]) + "," + PrintPairs(ps[1..])
  }

  /** json.dumps with compact separators, for the objects that occur. */
  function Print(ps: seq<(string, Json)>): string {
    "{" + PrintPairs(ps) + "}"
  }

  /** The index of the first character that is not a digit, or |s|. */
  function DigitsEnd(s: string): (k: nat)
    ensures k <= |s| && (forall j :: 0 <= j < k ==> Digit(s[j])) && (k < |s| ==> !Digit(s[k]))
  {
    if s == "" || !Digit(s[0]) then 0 else 1 + DigitsEnd(s[1..])
  }

  /** A string in quotes, and what follows it. */
  function ParseString(s: string): Option<(string, string)> {
    if s == "" || s[0] != '"' then None
    else
      var k := Find(s[1..], '"');
      if k == |s[1..]| || !Plain(s[1..][..k]) then None else Some((s[1..][..k], s[1..][k + 1..]))
  }

  /** A number has no leading zero. */
  function ParseValue(s: string): Option<(Json, string)> {
    if s != "" && Digit(s[0]) then
      var k := DigitsEnd(s);
      if k > 1 && s[0] == '0' then None else Some((JNumber(Number(s[..k], 0)), s[k..]))
    else
      var t := ParseString(s);
      if t.None? then None else Some((JString(t.value.0), t.value.1))
  }

  /** Key, colon, value. */
  function ParsePair(s: string): (r: Option<((string, Json), string)>)
    ensures r.Some? ==> |r.value.1| < |s|
  {
    var key := ParseString(s);
    if key.None? || key.value.1 == "" || key.value.1[0] != ':' then None
    else
      var v := ParseValue(key.value.1[1..]);
      if v.None? then None else Some(((key.value.0, v.value.0), v.value.1))
  }

  /** The pairs up to the closing brace; of equal keys the last one counts. */
  function ParsePairs(s: string, m: map<string, Json>): Option<(map<string, Json>, string)>
    decreases |s|
  {
    var p := ParsePair(s);
    if p.None? || p.value.1 == "" then None
    else
      var ((key, v), rest) := p.value;
      if rest[0] == ',' then ParsePairs(rest[1..], m[key := v])
      else if rest[0] == '}' then Some((m[key := v], rest[1..]))
      else None
  }

  function Parse(s: string): Option<map<string, Json>> {
    if s == "{}" then Some(map[])
    else if s == "" || s[0] != '{' then None
    else
      var r := ParsePairs(s[1..], map[]);
      if r.None? || r.value.1 != "" then None else Some(r.value.0)
  }

  /* ------------------------------ Printing and parsing -------------------------- */

  lemma ParseStringOfPrint(t: string, rest: string)
    requires Plain(t)
    ensures ParseString("\"" + t + "\"" + rest) == Some((t, rest))
  {
    var s := "\"" + t + "\"" + rest;
    assert s[1..] == t + "\"" + rest;
    assert s[1..][|t|] == '"';
    assert forall j :: 0 <= j < |t| ==> s[1..][j] == t[j] && PlainChar(t[j]);
    assert Find(s[1..], '"') == |t|;
    assert s[1..][..|t|] == t && s[1..][|t| + 1..] == rest;
  }

  lemma {:induction false} DecimalShape(n: nat)
    ensures var s := Decimal(n);
      && s != "" && (forall k :: 0 <= k < |s| ==> Digit(s[k]))
      && (s[0] == '0' ==> s == "0" && n == 0)
    decreases n
  {
    if n >= 10 { DecimalShape(n / 10); }
  }

  lemma {:induction false} NumberSnoc(s: string, c: char, acc: nat)
    requires (forall k :: 0 <= k < |s| ==> Digit(s[k])) && Digit(c)
    ensures forall k :: 0 <= k < |s + [c]| ==> Digit((s + [c])[k])
    ensures Number(s + [c], acc) == Number(s, acc) * 10 + (c as int - '0' as int)
    decreases |s|
  {
    if s == "" {
      assert s + [c] == [c];
    } else {
      NumberSnoc(s[1..], c, acc * 10 + (s[0] as int - '0' as int));
      assert (s + [c])[1..] == s[1..] + [c];
    }
  }

  lemma {:induction false} NumberOfDecimal(n: nat)
    ensures forall k :: 0 <= k < |Decimal(n)| ==> Digit(Decimal(n)[k])
    ensures Number(Decimal(n), 0) == n
    decreases n
  {
    DecimalShape(n);
    if n >= 10 {
      DecimalShape(n / 10);
      NumberOfDecimal(n / 10);
      NumberSnoc(Decimal(n / 10), DigitChar(n % 10), 0);
    }
  }

  lemma ParseValueOfPrint(v: Json, rest: string)
    requires v.JString? ==> Plain(v.text)
    requires rest != "" && !Digit(rest[0])
    ensures ParseValue(PrintValue(v) + rest) == Some((v, rest))
  {
    match v
    case JString(t) =>
      ParseStringOfPrint(t, rest);
      assert PrintValue(v) + rest == "\"" + t + "\"" + rest;
    case JNumber(n) =>
      var d := Decimal(n);
      var s := d + rest;
      DecimalShape(n);
      NumberOfDecimal(n);
      assert s[|d|] == rest[0] && forall j :: 0 <= j < |d| ==> s[j] == d[j];
      assert DigitsEnd(s) == |d|;
      assert s[..|d|] == d && s[|d|..] == rest;
  }

  predicate PlainPair(p: (string, Json)) {
    Plain(p.0) && (p.1.JString? ==> Plain(p.1.text))
  }

  lemma ParsePairOfPrint(p: (string, Json), rest: string)
    requires PlainPair(p) && rest != "" && !Digit(rest[0])
    ensures ParsePair(PrintPair(p) + rest) == Some((p, rest))
  {
    var after := ":" + PrintValue(p.1) + rest;
    assert PrintPair(p) + rest == "\"" + p.0 + "\"" + after;
    ParseStringOfPrint(p.0, after);
    assert after[1..] == PrintValue(p.1) + rest;
    ParseValueOfPrint(p.1, rest);
  }

  function AsMap(ps: seq<(string, Json)>, m: map<string, Json>): map<string, Json> {
    if ps == [] then m else AsMap(ps[1..], m[ps[0].0 := ps[0].1])
  }

  lemma {:induction false} ParsePairsOfPrint(ps: seq<(string, Json)>, m: map<string, Json>)
    requires ps != [] && forall k :: 0 <= k < |ps| ==> PlainPair(ps[k])
    ensures ParsePairs(PrintPairs(ps) + "}", m) == Some((AsMap(ps, m), ""))
    decreases |ps|
  {
    hide ParsePair, PrintPair;
    var m' := m[ps[0].0 := ps[0].1];
    if |ps| == 1 {
      ParsePairOfPrint(ps[0], "}");
      assert ps[1..] == [] && "}"[1..] == "";
      assert AsMap(ps, m) == AsMap([], m') == m';
      assert PrintPairs(ps) + "}" == PrintPair(ps[0]) + "}";
    } else {
      var rest := PrintPairs(ps[1..]) + "}";
      assert PrintPairs(ps) + "}" == PrintPair(ps[0]) + ("," + rest);
      ParsePairOfPrint(ps[0], "," + rest);
      assert ("," + rest)[1..] == rest;
      ParsePairsOfPrint(ps[1..], m');
    }
  }

  /** Every object printed from plain pairs parses back to the same object. */
  lemma {:induction false} ParseOfPrint(ps: seq<(string, Json)>)
    requires forall k :: 0 <= k < |ps| ==> PlainPair(ps[k])
    ensures Parse(Print(ps)) == Some(AsMap(ps, map[]))
  {
    if ps == [] {
      assert Print(ps) == "{}";
    } else {
      ParsePairsOfPrint(ps, map[]);
      hide PrintPairs, ParsePairs, AsMap, Parse;
      assert Print(ps) == "{" + (PrintPairs(ps) + "}");
      ParseObject(PrintPairs(ps) + "}", AsMap(ps, map[]));
    }
  }

  lemma {:induction false} ParseObject(body: string, m: map<string, Json>)
    requires |body| > 1 && ParsePairs(body, map[]) == Some((m, ""))
    ensures Parse("{" + body) == Some(m)
  {
    hide ParsePairs;
    assert ("{" + body)[1..] == body;
  }

  /* ----------------------------------- Requests --------------------------------- */

  predicate HexChar(c: char) { '0' <= c <= '9' || 'a' <= c <= 'f' }

  predicate InstanceForm(s: string) {
    |s| == 32 && forall k :: 0 <= k < |s| ==> HexChar(s[k])
  }

  predicate RepositoryForm(s: string) {
    ValidRepository(s) && Part(Owner(s)) != "" && Part(Project(s)) != ""
  }

  /** What `decode_request` accepts. */
  predicate ValidRequest(r: Request) {
    match r
    case CreateRequest(repository) => RepositoryForm(repository)
    case RemoveRequest(repository, runner, id, instance) =>
      RepositoryForm(repository) && RunnerForm(runner) && 0 < id <= RUNNER_ID_MAX && InstanceForm(instance)
    case StatusRequest => true
  }

  function Pairs(r: Request): seq<(string, Json)>
    requires r.RemoveRequest? ==> r.runnerId >= 0
  {
    match r
    case CreateRequest(repository) => [("op", JString("create")), ("repository", JString(repository))]
    case RemoveRequest(repository, runner, id, instance) =>
      [("op", JString("remove")), ("repository", JString(repository)), ("runner_name", JString(runner)),
       ("runner_id", JNumber(id)), ("instance", JString(instance))]
    case StatusRequest => [("op", JString("status"))]
  }

  function TextAt(m: map<string, Json>, key: string): Option<string> {
    if key in m && m[key].JString? then Some(m[key].text) else None
  }

  /** `decode_request` */
  function DecodeRequest(text: string): Option<Request> {
    if text == "" || |text| > MAX_REQUEST_BYTES then None
    else
      var o := Parse(text);
      if o.None? then None
      else
        var m := o.value;
        var op, repository := TextAt(m, "op"), TextAt(m, "repository");
        if op == Some("status") then
          if m.Keys == {"op"} then Some(StatusRequest) else None
        else if op == Some("create") then
          if m.Keys == {"op", "repository"} && repository.Some? && RepositoryForm(repository.value)
          then Some(CreateRequest(repository.value)) else None
        else if op == Some("remove") then
          var runner, instance := TextAt(m, "runner_name"), TextAt(m, "instance");
          if m.Keys == {"op", "repository", "runner_name", "runner_id", "instance"}
             && repository.Some? && RepositoryForm(repository.value)
             && runner.Some? && RunnerForm(runner.value)
             && m["runner_id"].JNumber? && 0 < m["runner_id"].n <= RUNNER_ID_MAX
             && instance.Some? && InstanceForm(instance.value)
          then Some(RemoveRequest(repository.value, runner.value, m["runner_id"].n, instance.value)) else None
        else None
  }

  lemma DecodedIsValid(text: string)
    ensures DecodeRequest(text).Some? ==> ValidRequest(DecodeRequest(text).value)
  {
    hide Parse, RepositoryForm, RunnerForm, InstanceForm;
  }

  lemma {:induction false} RepositoryIsPlain(s: string)
    requires RepositoryForm(s)
    ensures Plain(s) && |s| <= 200
  {
    hide Find, Part;
    var k := Find(s, '/');
    assert s == Owner(s) + "/" + Project(s);
  }

  lemma PairsArePlain(r: Request)
    requires ValidRequest(r)
    ensures forall k :: 0 <= k < |Pairs(r)| ==> PlainPair(Pairs(r)[k])
  {
    hide RepositoryForm;
    if !r.StatusRequest? { RepositoryIsPlain(r.repository); }
  }

  function Pow10(k: nat): nat { if k == 0 then 1 else 10 * Pow10(k - 1) }

  lemma {:induction false} DecimalLength(n: nat, k: nat)
    requires 0 < k && n < Pow10(k)
    ensures |Decimal(n)| <= k
    decreases k
  {
    if n >= 10 {
      assert Pow10(1) == 10;
      assert k > 1;
      assert n / 10 < Pow10(k - 1);
      DecimalLength(n / 10, k - 1);
    }
  }

  lemma RunnerIdLength(n: nat)
    requires n <= RUNNER_ID_MAX
    ensures |Decimal(n)| <= 19
  {
    assert Pow10(4) == 10 * Pow10(3) == 10000;
    assert Pow10(8) == 10 * Pow10(7) == 100 * Pow10(6) == 1000 * Pow10(5) == 10000 * Pow10(4);
    assert Pow10(12) == 10 * Pow10(11) == 100 * Pow10(10) == 1000 * Pow10(9) == 10000 * Pow10(8);
    assert Pow10(16) == 10 * Pow10(15) == 100 * Pow10(14) == 1000 * Pow10(13) == 10000 * Pow10(12);
    assert Pow10(19) == 10 * Pow10(18) == 100 * Pow10(17) == 1000 * Pow10(16);
    DecimalLength(n, 19);
  }

  /** No request reaches the frame limit: the longest has 432 characters. */
  lemma RequestIsShort(r: Request)
    requires ValidRequest(r)
    ensures 0 < |Print(Pairs(r))| <= 432
  {
    hide RepositoryForm;
    var ps := Pairs(r);
    if !r.StatusRequest? { RepositoryIsPlain(r.repository); }
    if r.RemoveRequest? {
      RunnerIdLength(r.runnerId);
      hide Decimal;
      FivePairs(ps);
    } else if r.CreateRequest? {
      assert ps[1..] == [ps[1]];
      assert PrintPairs(ps) == PrintPair(ps[0]) + "," + PrintPairs(ps[1..]);
    }
  }

  lemma FivePairs(ps: seq<(string, Json)>)
    requires |ps| == 5
    ensures |PrintPairs(ps)| == |PrintPair(ps[0])| + |PrintPair(ps[1])| + |PrintPair(ps[2])| + |PrintPair(ps[3])| + |PrintPair(ps[4])| + 4
  {
    hide PrintPair;
    var a, b, c, d := ps[1..], ps[2..], ps[3..], ps[4..];
    assert a[1..] == b && b[1..] == c && c[1..] == d;
    assert |PrintPairs(d)| == |PrintPair(ps[4])|;
    assert |PrintPairs(c)| == |PrintPair(ps[3])| + 1 + |PrintPairs(d)|;
    assert |PrintPairs(b)| == |PrintPair(ps[2])| + 1 + |PrintPairs(c)|;
    assert |PrintPairs(a)| == |PrintPair(ps[1])| + 1 + |PrintPairs(b)|;
  }

  lemma FiveAsMap(ps: seq<(string, Json)>)
    requires |ps| == 5
    ensures AsMap(ps, map[]) == map[][ps[0].0 := ps[0].1][ps[1].0 := ps[1].1][ps[2].0 := ps[2].1][ps[3].0 := ps[3].1][ps[4].0 := ps[4].1]
  {
    var a, b, c, d := ps[1..], ps[2..], ps[3..], ps[4..];
    assert a[1..] == b && b[1..] == c && c[1..] == d && d[1..] == [];
    var m0: map<string, Json> := map[][ps[0].0 := ps[0].1];
    var m1 := m0[ps[1].0 := ps[1].1];
    var m2 := m1[ps[2].0 := ps[2].1];
    var m3 := m2[ps[3].0 := ps[3].1];
    assert AsMap(ps, map[]) == AsMap(a, m0) == AsMap(b, m1) == AsMap(c, m2) == AsMap(d, m3) == AsMap([], m3[ps[4].0 := ps[4].1]);
  }

  /** The object a request is printed from, as a map. */
  function Fields(r: Request): map<string, Json>
    requires r.RemoveRequest? ==> r.runnerId >= 0
  {
    match r
    case CreateRequest(repository) => map["op" := JString("create"), "repository" := JString(repository)]
    case RemoveRequest(repository, runner, id, instance) =>
      map["op" := JString("remove"), "repository" := JString(repository), "runner_name" := JString(runner),
          "runner_id" := JNumber(id), "instance" := JString(instance)]
    case StatusRequest => map["op" := JString("status")]
  }

  lemma PairsAsFields(r: Request)
    requires r.RemoveRequest? ==> r.runnerId >= 0
    ensures AsMap(Pairs(r), map[]) == Fields(r)
  {
    var ps := Pairs(r);
    if r.RemoveRequest? {
      FiveAsMap(ps);
      hide AsMap;
    } else if r.CreateRequest? {
      assert ps[1..] == [ps[1]] && ps[1..][1..] == [];
      assert AsMap(ps, map[]) == AsMap(ps[1..], map[ps[0].0 := ps[0].1]);
      assert AsMap(ps, map[]) == AsMap([], map[ps[0].0 := ps[0].1][ps[1].0 := ps[1].1]);
    } else {
      assert ps[1..] == [];
    }
  }

  lemma DecodeOfFields(text: string, r: Request)
    requires ValidRequest(r) && 0 < |text| <= MAX_REQUEST_BYTES && Parse(text) == Some(Fields(r))
    ensures DecodeRequest(text) == Some(r)
  {
    hide RepositoryForm, RunnerForm, InstanceForm, Parse;
    var m := Fields(r);
    assert r.RemoveRequest? ==> m.Keys == {"op", "repository", "runner_name", "runner_id", "instance"};
    assert r.CreateRequest? ==> m.Keys == {"op", "repository"};
    assert r.StatusRequest? ==> m.Keys == {"op"};
  }

  /** Decoding inverts encoding, on every request decoding can produce. */
  lemma DecodeOfEncode(r: Request)
    requires ValidRequest(r)
    ensures DecodeRequest(Print(Pairs(r))) == Some(r)
  {
    hide RepositoryForm, RunnerForm, InstanceForm;
    PairsArePlain(r);
    ParseOfPrint(Pairs(r));
    RequestIsShort(r);
    PairsAsFields(r);
    hide Parse, Print, Pairs, Fields, AsMap, DecodeRequest;
    DecodeOfFields(Print(Pairs(r)), r);
  }
}
