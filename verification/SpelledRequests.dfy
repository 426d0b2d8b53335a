/**
 * Requests and frames spelled out: the text of every request, which texts are taken
 * for which request, and the bytes that go over the socket.
 */
module SpelledRequests {
  import opened Wrappers
  import opened Octets
  import opened Names
  import opened SpelledNames
  import opened Binding
  import opened Contract
  import opened Wire

  /* ----------------------------------- Texts ----------------------------------- */

  /** A field with a text, in quotes. */
  function Field(key: string, text: string): string {
    "\"" + key + "\":\"" + text + "\""
  }

  /** The text of a request. */
  function RequestText(r: Request): string
    requires r.RemoveRequest? ==> r.runnerId >= 0
  {
    match r
    case StatusRequest => "{\"op\":\"status\"}"
    case CreateRequest(repository) => "{" + (Field("op", "create") + "," + Field("repository", repository)) + "}"
    case RemoveRequest(repository, runner, id, instance) =>
      "{" + (Field("op", "remove") + "," + (Field("repository", repository) + "," + (Field("runner_name", runner) + ","
      + ("\"runner_id\":" + Decimal(id) + "," + Field("instance", instance))))) + "}"
  }

  lemma PairText(key: string, t: string)
    ensures PrintPair((key, JString(t))) == Field(key, t)
  {
  }

  lemma StatusText()
    ensures Print(Pairs(StatusRequest)) == RequestText(StatusRequest)
  {
  }

  lemma CreateText(repository: string)
    ensures Print(Pairs(CreateRequest(repository))) == RequestText(CreateRequest(repository))
  {
    var ps := Pairs(CreateRequest(repository));
    PairText("op", "create");
    PairText("repository", repository);
    hide PrintPair, PrintPairs;
    assert ps[1..] == [ps[1]];
    MorePairs(ps);
    OnePair(ps[1..]);
  }

  lemma RemoveText(repository: string, runner: string, id: nat, instance: string)
    ensures Print(Pairs(RemoveRequest(repository, runner, id, instance))) == RequestText(RemoveRequest(repository, runner, id, instance))
  {
    var ps := Pairs(RemoveRequest(repository, runner, id, instance));
    PairText("op", "remove");
    PairText("repository", repository);
    PairText("runner_name", runner);
    IdText(id);
    PairText("instance", instance);
    hide PrintPair, Decimal, PrintPairs;
    FiveTexts(ps);
  }

  lemma IdText(n: nat)
    ensures PrintPair(("runner_id", JNumber(n))) == "\"runner_id\":" + Decimal(n)
  {
    hide Decimal;
    assert "\"" + "runner_id" + "\":" == "\"runner_id\":";
  }

  lemma FiveTexts(ps: seq<(string, Json)>)
    requires |ps| == 5
    ensures PrintPairs(ps) ==
      PrintPair(ps[0]) + "," + (PrintPair(ps[1]) + "," + (PrintPair(ps[2]) + "," + (PrintPair(ps[3]) + "," + PrintPair(ps[4]))))
  {
    hide PrintPair, PrintPairs;
    var a, b, c, d := ps[1..], ps[2..], ps[3..], ps[4..];
    assert a[1..] == b && b[1..] == c && c[1..] == d;
    MorePairs(ps);
    MorePairs(a);
    MorePairs(b);
    MorePairs(c);
    OnePair(d);
  }

  lemma MorePairs(ps: seq<(string, Json)>)
    requires |ps| > 1
    ensures PrintPairs(ps) == PrintPair(ps[0]) + "," + PrintPairs(ps[1..])
  {
  }

  lemma OnePair(ps: seq<(string, Json)>)
    requires |ps| == 1
    ensures PrintPairs(ps) == PrintPair(ps[0])
  {
  }

  /** What is printed for a request is its text. */
  lemma RequestIsPrinted(r: Request)
    requires r.RemoveRequest? ==> r.runnerId >= 0
    ensures Print(Pairs(r)) == RequestText(r)
  {
    hide Print, RequestText, Pairs;
    match r
    case StatusRequest => StatusText();
    case CreateRequest(repository) => CreateText(repository);
    case RemoveRequest(repository, runner, id, instance) => RemoveText(repository, runner, id, instance);
  }

  /** Numbers are printed in base ten. */
  lemma {:induction false} DecimalIsBaseTen(n: nat)
    ensures Decimal(n) == (if n < 10 then ["0123456789"[n]] else Decimal(n / 10) + ["0123456789"[n % 10]])
  {
  }

  /* --------------------------------- Decoding ---------------------------------- */

  /** A text is taken for a request exactly when it is short enough, parses to the fields
      of that request, each there and no other, and every field is in order. */
  lemma DecodeIsExact(text: string, r: Request)
    ensures DecodeRequest(text) == Some(r) <==>
      && 0 < |text| <= 4096 && ValidRequest(r) && Parse(text) == Some(Fields(r))
  {
    hide Parse, RepositoryForm, RunnerForm, InstanceForm;
    DecodedIsValid(text);
    if 0 < |text| <= 4096 && ValidRequest(r) && Parse(text) == Some(Fields(r)) { DecodeOfFields(text, r); }
    if DecodeRequest(text) == Some(r) { FieldsAreAll(Parse(text).value, r); }
  }

  lemma FieldsAreAll(m: map<string, Json>, r: Request)
    requires r.RemoveRequest? ==> r.runnerId >= 0
    requires m.Keys == Fields(r).Keys && forall k :: k in m ==> m[k] == Fields(r)[k]
    ensures m == Fields(r)
  {
  }

  const HEX := "0123456789abcdef"

  lemma WordSanitises(s: string)
    requires SpelledWord(s)
    ensures Part(s) == "" <==> Dashes(s)
  {
    WordIsSpelled(s);
    var t := Lower(s);
    assert AllGood(t) by { forall k | 0 <= k < |t| ensures Good(t[k]) { assert RepoChar(s[k]); } }
    CollapseFixed(t, false);
    StripIsTrim(t);
    hide StripLeft, StripRight, Collapse;
    assert Part(s) == StripRight(StripLeft(t));
    var a, b :| Dashes(a) && Dashes(b) && t == a + Part(s) + b;
    if Part(s) != "" { assert t[|a|] == Part(s)[0]; }
    if Part(s) == "" {
      forall k | 0 <= k < |s| ensures s[k] == '-' { assert t[k] == '-' == LowerChar(s[k]); }
    }
    if Dashes(s) { assert forall k :: 0 <= k < |t| ==> t[k] == '-'; }
  }

  /** The fields a request may carry: OWNER/REPO of at most 200 characters, neither part
      all dashes; a runner name of at most 100; an id of 1 to 2^63 - 1; and an instance of
      32 hexadecimal digits. */
  lemma ValidRequestMeans(r: Request)
    ensures ValidRequest(r) <==>
      match r
      case StatusRequest => true
      case CreateRequest(repository) => NamesRepository(repository)
      case RemoveRequest(repository, runner, id, instance) =>
        && NamesRepository(repository)
        && SpelledWord(runner) && |runner| <= 100
        && 1 <= id <= 9223372036854775807
        && |instance| == 32 && forall k :: 0 <= k < |instance| ==> instance[k] in HEX
  {
    if r.RemoveRequest? {
      WordIsSpelled(r.runnerName);
      HexIsSpelled(r.instance);
    }
    hide InstanceForm, RepoWord, SpelledWord;
    if !r.StatusRequest? { RepositoryNames(r.repository); }
    hide RepositoryForm, NamesRepository;
  }

  lemma HexIsSpelled(s: string)
    ensures InstanceForm(s) <==> |s| == 32 && forall k :: 0 <= k < |s| ==> s[k] in HEX
  {
    assert forall c: char :: HexChar(c) <==> c in HEX;
  }

  ghost predicate NamesRepository(repository: string) {
    |repository| <= 200 && exists o, r :: SplitAs(repository, o, r) && !Dashes(o) && !Dashes(r)
  }

  lemma RepositoryNames(repository: string)
    ensures RepositoryForm(repository) <==> NamesRepository(repository)
  {
    hide Part, SpelledWord, RepoWord;
    RepositoryIsSpelled(repository);
    forall o, r | SplitAs(repository, o, r)
      ensures Owner(repository) == o && Project(repository) == r
      ensures (Part(o) == "" <==> Dashes(o)) && (Part(r) == "" <==> Dashes(r))
    {
      WordIsSpelled(o);
      WordIsSpelled(r);
      SplitPair(o, r);
      WordSanitises(o);
      WordSanitises(r);
    }
  }

  /* ----------------------------------- Frames ---------------------------------- */

  lemma LengthBytes(n: nat)
    requires n < 65536
    ensures BigEndian(n, 2) == [n / 256, n % 256] && BigEndian(n, 4) == [0, 0, n / 256, n % 256]
  {
    assert BigEndian(n / 256, 1) == [n / 256];
    assert n / 256 / 256 == 0 && BigEndian(0, 2) == [0, 0];
    assert BigEndian(n / 256, 3) == [0, 0] + [n / 256];
  }

  /** The bytes of a frame: four of length, high byte first, the text of the request, two
      of length, the token. */
  lemma FrameBytes(r: Request, token: Option<Bytes>, utf8: Bytes -> bool)
    requires ValidRequest(r) && (r.StatusRequest? <==> token.None?)
    requires token.Some? ==> TokenOk(token.value, utf8)
    ensures var text := RequestText(r);
      var secret := if token.Some? then token.value else [];
      && Ascii(text) && 0 < |text| <= 432
      && EncodeFrame(r, token, utf8)
         == Ok([0, 0, |text| / 256, |text| % 256] + Encoded(text) + [|secret| / 256, |secret| % 256] + secret)
  {
    RequestIsPrinted(r);
    RequestIsShort(r);
    FrameIsMade(r, token, utf8);
    SecretIsShort(token, utf8);
    var secret := if token.Some? then token.value else [];
    LengthBytes(|RequestText(r)|);
    LengthBytes(|secret|);
    hide *;
  }

  lemma {:induction false} FromBytes(b: Bytes)
    ensures BigEndian(FromBigEndian(b), |b|) == b
    decreases |b|
  {
    if b != [] {
      var init := b[..|b| - 1];
      FromBytes(init);
      var n := FromBigEndian(init);
      assert (n * 256 + b[|b| - 1]) / 256 == n && (n * 256 + b[|b| - 1]) % 256 == b[|b| - 1];
      assert b == init + [b[|b| - 1]];
    }
  }

  /** The parts of a frame at the head of what a connection delivers. */
  predicate Framed(b: Bytes, raw: Bytes, secret: Bytes, tail: Bytes) {
    b == BigEndian(|raw|, 4) + raw + BigEndian(|secret|, 2) + secret + tail
  }

  /** What the two parts have to be for a request and a token. */
  predicate Carried(raw: Bytes, secret: Bytes, r: Request, token: Option<Bytes>, utf8: Bytes -> bool) {
    && 0 < |raw| <= 4096 && Decoded(raw).Some? && DecodeRequest(Decoded(raw).value) == Some(r)
    && (if r.StatusRequest? then token.None? && secret == []
        else token == Some(secret) && TokenOk(secret, utf8))
  }

  /** A reader takes a request and a token from a connection exactly when it starts with
      a frame of that request and that token: none with a status request. */
  lemma ReadIsExact(b: Bytes, r: Request, token: Option<Bytes>, utf8: Bytes -> bool)
    ensures ReadFrame(b, utf8) == Ok((r, token)) <==>
      exists raw, secret, tail :: Framed(b, raw, secret, tail) && Carried(raw, secret, r, token, utf8)
  {
    hide BigEndian, FromBigEndian, Decoded, DecodeRequest;
    if ReadFrame(b, utf8) == Ok((r, token)) {
      var n := FromBigEndian(b[..4]);
      var m := FromBigEndian(b[4 + n..6 + n]);
      FromBytes(b[..4]);
      FromBytes(b[4 + n..6 + n]);
      var raw, secret, tail := b[4..4 + n], b[6 + n..6 + n + m], b[6 + n + m..];
      assert b == b[..4] + raw + b[4 + n..6 + n] + secret + tail;
      assert Framed(b, raw, secret, tail) && Carried(raw, secret, r, token, utf8);
    }
    forall raw, secret, tail | Framed(b, raw, secret, tail) && Carried(raw, secret, r, token, utf8)
      ensures ReadFrame(b, utf8) == Ok((r, token))
    {
      Lengths(|raw|, |secret|);
      PartsRead(r, token, utf8, BigEndian(|raw|, 4), raw, BigEndian(|secret|, 2), secret, tail);
    }
  }

  const STATUS_BYTES: Bytes := [123, 34, 111, 112, 34, 58, 34, 115, 116, 97, 116, 117, 115, 34, 125]

  lemma StatusBytes()
    ensures Ascii(RequestText(StatusRequest)) && Encoded(RequestText(StatusRequest)) == STATUS_BYTES
  {
    var text := RequestText(StatusRequest);
    assert |text| == |STATUS_BYTES| == 15;
    assert forall k :: 0 <= k < 15 ==> text[k] as int == STATUS_BYTES[k];
  }

  /** The shortest frame: a status request without a token. */
  lemma StatusFrame(utf8: Bytes -> bool)
    ensures EncodeFrame(StatusRequest, None, utf8) == Ok([0, 0, 0, 15] + STATUS_BYTES + [0, 0])
  {
    StatusBytes();
    FrameBytes(StatusRequest, None, utf8);
    hide *;
    assert [0, 0, 0, 15] + STATUS_BYTES + [0, 0] + [] == [0, 0, 0, 15] + STATUS_BYTES + [0, 0];
  }

  /** A token of 1 to 1024 bytes that decode as UTF-8, none of them NUL, newline or
      carriage return, is one line however lines are told apart. */
  lemma TokenIsOneLine(token: Bytes, utf8: Bytes -> bool)
    ensures TokenOk(token, utf8) <==>
      && token != [] && |token| < 1025 && utf8(token)
      && forall k :: 0 <= k < |token| ==> token[k] != 0 && token[k] != 10 && token[k] != 13
  {
  }
}
