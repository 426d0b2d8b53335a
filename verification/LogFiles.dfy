/** Log files as bytes: how records are laid out and how the tail is checked. */
module LogFiles {
  import opened Octets

  const MAX_FILE: nat := 10 * 1024 * 1024
  const MAX_TOTAL: nat := 100 * 1024 * 1024
  const MAX_RECORD: nat := 4096

  /** An encoded record: one JSON text, which has no raw newline (section 7 of
      RFC 8259), and a final newline. `parses` accepts the JSON texts of records. */
  predicate IsRecord(line: Bytes, parses: Bytes -> bool) {
    && 2 <= |line| <= 4096
    && line[|line| - 1] == NEWLINE
    && NEWLINE !in line[..|line| - 1]
    && parses(line[..|line| - 1])
  }

  predicate AllRecords(lines: seq<Bytes>, parses: Bytes -> bool) {
    forall k :: 0 <= k < |lines| ==> IsRecord(lines[k], parses)
  }

  function Flat(lines: seq<Bytes>): Bytes
    decreases |lines|
  {
    if lines == [] then [] else Flat(lines[..|lines| - 1]) + lines[|lines| - 1]
  }

  function Size(lines: seq<Bytes>): nat
    decreases |lines|
  {
    if lines == [] then 0 else Size(lines[..|lines| - 1]) + |lines[|lines| - 1]|
  }

  lemma {:induction false} FlatSize(lines: seq<Bytes>)
    ensures |Flat(lines)| == Size(lines)
    decreases |lines|
  {
    if lines != [] { FlatSize(lines[..|lines| - 1]); }
  }

  lemma {:induction false} SizeConcat(a: seq<Bytes>, b: seq<Bytes>)
    ensures Size(a + b) == Size(a) + Size(b)
    decreases |b|
  {
    if b == [] {
      assert a + b == a;
    } else {
      SizeConcat(a, b[..|b| - 1]);
      assert (a + b)[..|a + b| - 1] == a + b[..|b| - 1];
    }
  }

  lemma SizeSnoc(lines: seq<Bytes>, line: Bytes)
    ensures Size(lines + [line]) == Size(lines) + |line|
    ensures Flat(lines + [line]) == Flat(lines) + line
  {
    assert (lines + [line])[..|lines|] == lines;
  }

  /** The bytes after the last newline. */
  function LastSegment(b: Bytes): Bytes
    decreases |b|
  {
    if b == [] || b[|b| - 1] == NEWLINE then []
    else LastSegment(b[..|b| - 1]) + [b[|b| - 1]]
  }

  /** The check made on every log file before anything is written. */
  predicate TailOk(file: Bytes, parses: Bytes -> bool) {
    file == [] ||
    var length := if |file| < MAX_RECORD + 1 then |file| else MAX_RECORD + 1;
    var tail := file[|file| - length..];
    tail[|tail| - 1] == NEWLINE &&
    var last := LastSegment(tail[..|tail| - 1]);
    last != [] && |last| + 1 <= MAX_RECORD && parses(last)
  }

  lemma {:induction false} LastSegmentOfLine(before: Bytes, body: Bytes)
    requires NEWLINE !in body
    requires before == [] || before[|before| - 1] == NEWLINE
    ensures LastSegment(before + body) == body
    decreases |body|
  {
    if body == [] {
      assert before + body == before;
    } else {
      var init := body[..|body| - 1];
      assert (before + body)[..|before + body| - 1] == before + init;
      assert body[|body| - 1] in body;
      LastSegmentOfLine(before, init);
    }
  }

  lemma {:induction false} LastSegmentShape(b: Bytes) returns (before: Bytes)
    ensures b == before + LastSegment(b) && NEWLINE !in LastSegment(b)
    ensures before == [] || before[|before| - 1] == NEWLINE
    decreases |b|
  {
    if b == [] || b[|b| - 1] == NEWLINE {
      before := b;
      assert b == b + [];
    } else {
      before := LastSegmentShape(b[..|b| - 1]);
      assert b == b[..|b| - 1] + [b[|b| - 1]];
      assert b == before + (LastSegment(b[..|b| - 1]) + [b[|b| - 1]]);
    }
  }

  /** The tail check, which looks at 4097 bytes at most, passes exactly on an empty file
      and on one that ends with a complete record on a line of its own. */
  lemma TailIsRecord(file: Bytes, parses: Bytes -> bool)
    ensures TailOk(file, parses) <==>
      file == [] || exists init, line ::
        file == init + line && IsRecord(line, parses) && (init == [] || init[|init| - 1] == NEWLINE)
  {
    if file != [] && TailOk(file, parses) { EndsWithRecord(file, parses); }
    forall init, line | file == init + line && IsRecord(line, parses) && (init == [] || init[|init| - 1] == NEWLINE)
      ensures TailOk(file, parses)
    {
      LastRecordPasses(init, line, parses);
    }
  }

  lemma SplitTail(head: Bytes, tail: Bytes, before: Bytes, last: Bytes)
    requires tail != [] && tail[..|tail| - 1] == before + last && tail[|tail| - 1] == NEWLINE
    ensures head + tail == (head + before) + (last + [NEWLINE])
  {
    assert tail == before + last + [NEWLINE];
  }

  lemma EndsWithRecord(file: Bytes, parses: Bytes -> bool)
    requires file != [] && TailOk(file, parses)
    ensures exists init, line ::
      file == init + line && IsRecord(line, parses) && (init == [] || init[|init| - 1] == NEWLINE)
  {
    var length := if |file| < MAX_RECORD + 1 then |file| else MAX_RECORD + 1;
    var head, tail := file[..|file| - length], file[|file| - length..];
    var before := LastSegmentShape(tail[..|tail| - 1]);
    var last := LastSegment(tail[..|tail| - 1]);
    hide LastSegment;
    assert file == head + tail;
    SplitTail(head, tail, before, last);
    var line := last + [NEWLINE];
    assert line[..|line| - 1] == last;
    assert before == [] ==> head == [];
    assert before != [] ==> (head + before)[|head + before| - 1] == before[|before| - 1];
  }

  /** Writer and reader agree: a file of complete records passes the tail check,
      however many records it holds. */
  lemma CompleteFilePasses(lines: seq<Bytes>, parses: Bytes -> bool)
    requires AllRecords(lines, parses)
    ensures TailOk(Flat(lines), parses)
  {
    if lines != [] {
      assert IsRecord(lines[|lines| - 1], parses);
      LastRecordPasses(Flat(lines[..|lines| - 1]), lines[|lines| - 1], parses);
    }
  }

  lemma LastRecordPasses(init: Bytes, line: Bytes, parses: Bytes -> bool)
    requires IsRecord(line, parses) && (init == [] || init[|init| - 1] == NEWLINE)
    ensures TailOk(init + line, parses)
  {
    var file := init + line;
    var length := if |file| < MAX_RECORD + 1 then |file| else MAX_RECORD + 1;
    var body := line[..|line| - 1];
    var before := init[|init| - (length - |line|)..];
    assert file[|file| - length..] == before + line;
    assert (before + line)[..length - 1] == before + body;
    LastSegmentOfLine(before, body);
  }

  /** An append cut anywhere inside the record is noticed: the file fails the
      tail check from then on. */
  lemma CutAppendFails(lines: seq<Bytes>, line: Bytes, k: nat, parses: Bytes -> bool)
    requires IsRecord(line, parses) && 0 < k < |line|
    ensures !TailOk(Flat(lines) + line[..k], parses)
  {
    var file := Flat(lines) + line[..k];
    assert file[|file| - 1] == line[k - 1];
    assert line[k - 1] in line[..|line| - 1];
    var length := if |file| < MAX_RECORD + 1 then |file| else MAX_RECORD + 1;
    var tail := file[|file| - length..];
    assert tail[|tail| - 1] == file[|file| - 1];
  }
}
