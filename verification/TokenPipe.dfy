/** The one-shot pipe that hands a token to the child: a line, then end of file. */
module TokenPipe {
  import opened Wrappers
  import opened Octets
  import opened Wire

  const MAX_LINE: nat := 1025       // longest token and its newline

  /** How much each system call transfers is the kernel's choice. */
  class Pipe {
    const writes: nat -> int        // result of the write made at each position
    const arrives: nat -> nat       // how much a read finds at each position
    var bytes: Bytes
    var pos: nat
    var closed: bool

    constructor (writes: nat -> int, arrives: nat -> nat)
      ensures bytes == [] && pos == 0 && !closed
      ensures this.writes == writes && this.arrives == arrives
    {
      this.writes, this.arrives := writes, arrives;
      bytes, pos, closed := [], 0, false;
    }

    method Write(view: Bytes) returns (n: int)
      requires view != [] && !closed
      modifies this`bytes
      ensures n <= |view|
      ensures bytes == old(bytes) + (if n > 0 then view[..n] else [])
      ensures writes(|old(bytes)|) > 0 ==> n > 0
    {
      n := writes(|bytes|);
      if n > |view| { n := |view|; }
      if n > 0 { bytes := bytes + view[..n]; }
    }

    method Read(count: nat) returns (fragment: Bytes)
      requires pos <= |bytes| && closed && count > 0
      modifies this`pos
      ensures old(pos) <= pos <= |bytes| && fragment == bytes[old(pos)..pos] && |fragment| <= count
      ensures fragment == [] <==> old(pos) == |bytes|
    {
      if pos == |bytes| { return []; }
      var n := arrives(pos);
      if n == 0 { n := 1; }
      if n > count { n := count; }
      if n > |bytes| - pos { n := |bytes| - pos; }
      fragment := bytes[pos..pos + n];
      pos := pos + n;
    }

    /** `make_token_pipe`: on success the pipe holds the token as one line. */
    method Make(secret: Bytes, utf8: Bytes -> bool) returns (ok: bool)
      requires bytes == [] && pos == 0 && !closed
      modifies this
      ensures closed && pos == 0
      ensures ok ==> TokenOk(secret, utf8) && bytes == secret + [NEWLINE]
      ensures !TokenOk(secret, utf8) ==> !ok && bytes == []
      ensures TokenOk(secret, utf8) && (forall k: nat :: writes(k) > 0) ==> ok
    {
      if !TokenOk(secret, utf8) {
        closed := true;
        return false;
      }
      var line := secret + [NEWLINE];
      var view := line;
      while view != []
        invariant !closed && pos == 0
        invariant line == bytes + view
        decreases |view|
      {
        var n := Write(view);
        if n <= 0 {
          closed := true;
          return false;
        }
        view := view[n..];
      }
      closed := true;
      ok := true;
    }

    /** The token that data is the line of, if it is one valid line. */
    static function Line(data: Bytes, utf8: Bytes -> bool): (token: Option<Bytes>)
      ensures token.Some? ==> TokenOk(token.value, utf8) && data == token.value + [NEWLINE]
      ensures data != [] && data[|data| - 1] == NEWLINE && TokenOk(data[..|data| - 1], utf8) ==> token == Some(data[..|data| - 1])
    {
      if data == [] || data[|data| - 1] != NEWLINE || NEWLINE in data[..|data| - 1] then None
      else
        var t := data[..|data| - 1];
        assert data == t + [NEWLINE];
        if TokenOk(t, utf8) then Some(t) else None
    }

    /** The reading loop: up to a newline, the end, or one byte too many. */
    method ReadLine() returns (data: Bytes)
      requires closed && pos == 0
      modifies this`pos
      ensures pos <= |bytes| && data == bytes[..pos]
      ensures NEWLINE in data || pos == |bytes| || |data| > MAX_LINE
    {
      data := [];
      while |data| <= MAX_LINE
        invariant pos <= |bytes| && data == bytes[..pos] && |data| <= MAX_LINE + 1
        decreases MAX_LINE + 1 - |data|
      {
        var count := if MAX_LINE + 1 - |data| < 256 then MAX_LINE + 1 - |data| else 256;
        var fragment := Read(count);
        if fragment == [] { return; }
        ghost var before := pos - |fragment|;
        assert bytes[..pos] == bytes[..before] + bytes[before..pos];
        data := data + fragment;
        if NEWLINE in fragment { return; }
      }
    }

    /** `consume_token_fd`: a token that is accepted was the first line; a pipe that
        holds exactly one valid line gives it back, however it is read. */
    method Consume(utf8: Bytes -> bool) returns (token: Option<Bytes>)
      requires closed && pos == 0
      modifies this`pos
      ensures token.Some? ==> TokenOk(token.value, utf8) && token.value + [NEWLINE] <= bytes
      ensures bytes != [] && bytes[|bytes| - 1] == NEWLINE && TokenOk(bytes[..|bytes| - 1], utf8)
        ==> token == Some(bytes[..|bytes| - 1])
    {
      var data := ReadLine();
      token := Line(data, utf8);
      hide Line;
      ghost var whole := bytes != [] && bytes[|bytes| - 1] == NEWLINE && TokenOk(bytes[..|bytes| - 1], utf8);
      if whole {
        assert |bytes| <= MAX_LINE;
        hide TokenOk;
        if pos == |bytes| {
          assert data == bytes;
        } else {
          OneLine(bytes, pos, utf8);
        }
      }
    }
  }

  /** In a pipe that holds one valid line, the newline is only reached at the end. */
  lemma OneLine(bytes: Bytes, pos: nat, utf8: Bytes -> bool)
    requires bytes != [] && bytes[|bytes| - 1] == NEWLINE && TokenOk(bytes[..|bytes| - 1], utf8)
    requires pos <= |bytes| && NEWLINE in bytes[..pos]
    ensures bytes[..pos] == bytes
  {
    assert forall k :: 0 <= k < |bytes| - 1 ==> bytes[k] != NEWLINE by {
      forall k | 0 <= k < |bytes| - 1 ensures bytes[k] != NEWLINE {
        assert bytes[k] in bytes[..|bytes| - 1];
      }
    }
  }

  /** What is consumed is what was made, under any short reads and writes. */
  method Handoff(secret: Bytes, utf8: Bytes -> bool, writes: nat -> int, arrives: nat -> nat) returns (token: Option<Bytes>)
    ensures token.Some? ==> token.value == secret && TokenOk(secret, utf8)
    ensures TokenOk(secret, utf8) && (forall k: nat :: writes(k) > 0) ==> token == Some(secret)
  {
    var pipe := new Pipe(writes, arrives);
    var made := pipe.Make(secret, utf8);
    if !made { return None; }
    assert pipe.bytes[..|pipe.bytes| - 1] == secret;
    token := pipe.Consume(utf8);
  }
}
