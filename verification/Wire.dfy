/**
 * The framed request on the executor's socket: a length, the JSON request, a
 * second length and the token, read in whatever pieces the socket delivers.
 */
module Wire {
  import opened Wrappers
  import opened Octets
  import opened Contract

  const MAX_FRAME: nat := 4096
  const MAX_SECRET: nat := 1024

  datatype Error =
    | Incomplete | InvalidSize | InvalidRequest | UnexpectedToken | MissingToken | InvalidToken

  /* ----------------------------------- Encoding --------------------------------- */

  function BigEndian(n: nat, width: nat): (b: Bytes)
    ensures |b| == width
  {
    if width == 0 then [] else BigEndian(n / 256, width - 1) + [n % 256]
  }

  function FromBigEndian(b: Bytes): nat {
    if b == [] then 0 else FromBigEndian(b[..|b| - 1]) * 256 + b[|b| - 1]
  }

  lemma {:induction false} BigEndianInverse(n: nat, width: nat)
    requires n < Pow256(width)
    ensures FromBigEndian(BigEndian(n, width)) == n
    decreases width
  {
    if width > 0 {
      BigEndianInverse(n / 256, width - 1);
      var b := BigEndian(n, width);
      assert b[..|b| - 1] == BigEndian(n / 256, width - 1);
    }
  }

  function Pow256(k: nat): nat { if k == 0 then 1 else 256 * Pow256(k - 1) }

  predicate Ascii(s: string) {
    forall k :: 0 <= k < |s| ==> s[k] < 128 as char
  }

  function Encoded(s: string): (b: Bytes)
    requires Ascii(s)
    ensures |b| == |s|
  {
    seq(|s|, i requires 0 <= i < |s| => s[i] as int)
  }

  /** UTF-8 text of the ASCII subset; other bytes never pass the field checks. */
  function Decoded(b: Bytes): Option<string> {
    if forall k :: 0 <= k < |b| ==> b[k] < 128 then Some(seq(|b|, i requires 0 <= i < |b| => b[i] as char)) else None
  }

  lemma DecodedOfEncoded(s: string)
    requires Ascii(s)
    ensures Decoded(Encoded(s)) == Some(s)
  {
    var t := Decoded(Encoded(s));
    assert t.Some? && |t.value| == |s| && forall k :: 0 <= k < |s| ==> t.value[k] == s[k];
    assert t.value == s;
  }

  /** `validate_token_payload`; `utf8` says which byte strings decode as UTF-8. */
  predicate TokenOk(t: Bytes, utf8: Bytes -> bool) {
    1 <= |t| <= MAX_SECRET && 0 !in t && 13 !in t && NEWLINE !in t && utf8(t)
  }

  /** `encode_request_frame`, for a request that `decode_request` can produce. */
  function EncodeFrame(r: Request, token: Option<Bytes>, utf8: Bytes -> bool): Result<Bytes, Error>
    requires ValidRequest(r)
  {
    var text := Print(Pairs(r));
    if r.StatusRequest? && token.Some? then Err(UnexpectedToken)
    else if !r.StatusRequest? && token.None? then Err(MissingToken)
    else if token.Some? && !TokenOk(token.value, utf8) then Err(InvalidToken)
    else if !Ascii(text) || |text| > MAX_FRAME then Err(InvalidSize)
    else
      var secret := if token.Some? then token.value else [];
      Ok(BigEndian(|text|, 4) + Encoded(text) + BigEndian(|secret|, 2) + secret)
  }

  /* ----------------------------------- Decoding --------------------------------- */

  /** What a reader makes of the bytes of a connection. */
  function ReadFrame(b: Bytes, utf8: Bytes -> bool): Result<(Request, Option<Bytes>), Error> {
    if |b| < 4 then Err(Incomplete)
    else
      var length := FromBigEndian(b[..4]);
      if !(0 < length <= MAX_FRAME) then Err(InvalidSize)
      else if |b| < 4 + length then Err(Incomplete)
      else
        var text := Decoded(b[4..4 + length]);
        var r := if text.Some? then DecodeRequest(text.value) else None;
        if r.None? then Err(InvalidRequest)
        else if |b| < 6 + length then Err(Incomplete)
        else
          var size := FromBigEndian(b[4 + length..6 + length]);
          if r.value.StatusRequest? then
            if size != 0 then Err(UnexpectedToken) else Ok((r.value, None))
          else if !(1 <= size <= MAX_SECRET) then Err(InvalidToken)
          else if |b| < 6 + length + size then Err(Incomplete)
          else
            var token := b[6 + length..6 + length + size];
            if TokenOk(token, utf8) then Ok((r.value, Some(token))) else Err(InvalidToken)
  }

  lemma RequestIsAscii(r: Request)
    requires ValidRequest(r)
    ensures Ascii(Print(Pairs(r)))
  {
    PairsArePlain(r);
    PrintIsAscii(Pairs(r));
  }

  lemma {:induction false} DecimalIsAscii(n: nat)
    ensures Ascii(Decimal(n))
  {
    DecimalShape(n);
  }

  lemma PairIsAscii(p: (string, Json))
    requires PlainPair(p)
    ensures Ascii(PrintPair(p))
  {
    if p.1.JNumber? { DecimalIsAscii(p.1.n); }
    hide Decimal;
    assert Ascii(PrintValue(p.1));
  }

  lemma {:induction false} PairsAreAscii(ps: seq<(string, Json)>)
    requires forall k :: 0 <= k < |ps| ==> PlainPair(ps[k])
    ensures Ascii(PrintPairs(ps))
    decreases |ps|
  {
    hide PlainPair, PrintPair;
    if ps != [] {
      PairIsAscii(ps[0]);
      PairsAreAscii(ps[1..]);
    }
  }

  lemma {:induction false} PrintIsAscii(ps: seq<(string, Json)>)
    requires forall k :: 0 <= k < |ps| ==> PlainPair(ps[k])
    ensures Ascii(Print(ps))
  {
    PairsAreAscii(ps);
    hide PrintPairs;
  }

  /** The encoder accepts whatever request decoding can produce, and the length limit
      is never in the way. */
  lemma FrameIsMade(r: Request, token: Option<Bytes>, utf8: Bytes -> bool)
    requires ValidRequest(r) && (r.StatusRequest? <==> token.None?)
    requires token.Some? ==> TokenOk(token.value, utf8)
    ensures var text, secret := Print(Pairs(r)), if token.Some? then token.value else [];
      && Ascii(text)
      && EncodeFrame(r, token, utf8) == Ok(BigEndian(|text|, 4) + Encoded(text) + BigEndian(|secret|, 2) + secret)
  {
    RequestIsShort(r);
    RequestIsAscii(r);
    hide Print, Pairs, Ascii, Encoded, TokenOk, BigEndian;
  }

  /** Whatever request decoding can produce and whatever valid token goes with it:
      the encoder accepts them, the length limit is never in the way, and a reader
      gets back exactly what was encoded, whatever follows on the connection. */
  lemma FrameRoundTrip(r: Request, token: Option<Bytes>, utf8: Bytes -> bool, tail: Bytes)
    requires ValidRequest(r) && (r.StatusRequest? <==> token.None?)
    requires token.Some? ==> TokenOk(token.value, utf8)
    ensures var f := EncodeFrame(r, token, utf8);
      f.Ok? && ReadFrame(f.value + tail, utf8) == Ok((r, token))
  {
    var text := Print(Pairs(r));
    hide Print, Pairs, DecodeRequest, Ascii, ValidRequest, Encoded, Decoded, ReadFrame, EncodeFrame, TokenOk, BigEndian, FromBigEndian;
    RequestIsShort(r);
    FrameIsMade(r, token, utf8);
    DecodeOfEncode(r);
    DecodedOfEncoded(text);
    var secret := if token.Some? then token.value else [];
    SecretIsShort(token, utf8);
    Lengths(|text|, |secret|);
    PartsRead(r, token, utf8, BigEndian(|text|, 4), Encoded(text), BigEndian(|secret|, 2), secret, tail);
  }

  lemma SecretIsShort(token: Option<Bytes>, utf8: Bytes -> bool)
    requires token.Some? ==> TokenOk(token.value, utf8)
    ensures token.Some? ==> |token.value| <= MAX_SECRET
  {
  }

  lemma Lengths(n: nat, m: nat)
    requires n <= MAX_FRAME && m <= MAX_SECRET
    ensures FromBigEndian(BigEndian(n, 4)) == n && FromBigEndian(BigEndian(m, 2)) == m
  {
    assert Pow256(2) == 65536 && Pow256(3) == 16777216 && Pow256(4) == 4294967296;
    BigEndianInverse(n, 4);
    BigEndianInverse(m, 2);
  }

  /** A reader finds the parts of a frame where the lengths say they are. */
  lemma PartsRead(r: Request, token: Option<Bytes>, utf8: Bytes -> bool,
                  head: Bytes, raw: Bytes, size: Bytes, secret: Bytes, tail: Bytes)
    requires |head| == 4 && 0 < FromBigEndian(head) == |raw| <= MAX_FRAME
    requires |size| == 2 && FromBigEndian(size) == |secret|
    requires Decoded(raw).Some? && DecodeRequest(Decoded(raw).value) == Some(r)
    requires if r.StatusRequest? then token.None? && secret == [] else token == Some(secret) && TokenOk(secret, utf8)
    ensures ReadFrame(head + raw + size + secret + tail, utf8) == Ok((r, token))
  {
    hide FromBigEndian, Decoded, DecodeRequest, ReadFrame;
    var b := head + raw + size + secret + tail;
    var n := |raw|;
    assert b[..4] == head;
    assert b[4..4 + n] == raw;
    assert b[4 + n..6 + n] == size;
    assert b[6 + n..6 + n + |secret|] == secret;
    PartsFound(b, r, token, utf8, n, |secret|);
  }

  lemma PartsFound(b: Bytes, r: Request, token: Option<Bytes>, utf8: Bytes -> bool, n: nat, m: nat)
    requires |b| >= 6 + n + m && 0 < n <= MAX_FRAME && FromBigEndian(b[..4]) == n && FromBigEndian(b[4 + n..6 + n]) == m
    requires Decoded(b[4..4 + n]).Some? && DecodeRequest(Decoded(b[4..4 + n]).value) == Some(r)
    requires if r.StatusRequest? then token.None? && m == 0
             else token == Some(b[6 + n..6 + n + m]) && TokenOk(b[6 + n..6 + n + m], utf8)
    ensures ReadFrame(b, utf8) == Ok((r, token))
  {
    hide FromBigEndian, Decoded, DecodeRequest;
  }

  /* ---------------------------------- The socket --------------------------------- */

  class Connection {
    const stream: Bytes           // everything the peer sends before it closes
    const pieces: nat -> nat      // how much has arrived at each position
    var pos: nat

    constructor (stream: Bytes, pieces: nat -> nat)
      ensures this.stream == stream && this.pieces == pieces && pos == 0
    {
      this.stream, this.pieces, pos := stream, pieces, 0;
    }

    /** At most `count` bytes; none at the end of the stream. */
    method Recv(count: nat) returns (part: Bytes)
      requires pos <= |stream| && count > 0
      modifies this
      ensures old(pos) <= pos <= |stream| && part == stream[old(pos)..pos] && |part| <= count
      ensures part == [] <==> old(pos) == |stream|
    {
      if pos == |stream| { return []; }
      var n := pieces(pos);
      if n == 0 { n := 1; }
      if n > count { n := count; }
      if n > |stream| - pos { n := |stream| - pos; }
      part := stream[pos..pos + n];
      pos := pos + n;
    }

    /** Exactly `count` bytes, or nothing when the peer closed too early. */
    method Exactly(count: nat) returns (r: Option<Bytes>)
      requires pos <= |stream|
      modifies this
      ensures old(pos) <= pos <= |stream|
      ensures if old(pos) + count <= |stream|
              then r == Some(stream[old(pos)..old(pos) + count]) && pos == old(pos) + count
              else r.None?
    {
      var buf: Bytes := [];
      while |buf| < count
        invariant old(pos) <= pos <= |stream| && |buf| <= count && buf == stream[old(pos)..pos]
        decreases count - |buf|
      {
        var part := Recv(count - |buf|);
        if part == [] { return None; }
        buf := buf + part;
      }
      r := Some(buf);
    }

    /** `read_request_frame` */
    method ReadRequestFrame(utf8: Bytes -> bool) returns (r: Result<(Request, Option<Bytes>), Error>)
      requires pos == 0
      modifies this
      ensures pos <= |stream|
      ensures r == ReadFrame(stream, utf8)
    {
      hide FromBigEndian, Decoded, DecodeRequest, TokenOk;
      var head := Exactly(4);
      if head.None? { return Err(Incomplete); }
      assert stream[0..4] == stream[..4];
      var length := FromBigEndian(head.value);
      if !(0 < length <= MAX_FRAME) { return Err(InvalidSize); }
      var raw := Exactly(length);
      if raw.None? { return Err(Incomplete); }
      var text := Decoded(raw.value);
      if text.None? { return Err(InvalidRequest); }
      var request := DecodeRequest(text.value);
      if request.None? { return Err(InvalidRequest); }
      var sizeBytes := Exactly(2);
      if sizeBytes.None? { return Err(Incomplete); }
      var size := FromBigEndian(sizeBytes.value);
      if request.value.StatusRequest? {
        if size != 0 { return Err(UnexpectedToken); }
        return Ok((request.value, None));
      }
      if !(1 <= size <= MAX_SECRET) { return Err(InvalidToken); }
      var token := Exactly(size);
      if token.None? { return Err(Incomplete); }
      if !TokenOk(token.value, utf8) { return Err(InvalidToken); }
      r := Ok((request.value, Some(token.value)));
    }
  }
}
