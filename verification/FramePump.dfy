/**
 * The event pump of a Web transaction: it reads the child's private channel and
 * its output in whatever pieces they arrive, and handles each complete line once.
 */
module FramePump {
  import opened Wrappers
  import opened Octets

  const MAX_PRIVATE_FRAME: nat := 16384
  const MAX_CAPTURE: nat := 131072

  /* ------------------------------- Lines of a stream ---------------------------- */

  function NewlineAt(s: Bytes): (k: nat)
    ensures k <= |s| && (k < |s| ==> s[k] == NEWLINE) && forall j :: 0 <= j < k ==> s[j] != NEWLINE
  {
    if s == [] || s[0] == NEWLINE then 0 else 1 + NewlineAt(s[1..])
  }

  /** The complete lines of a stream, without their newlines. */
  function Lines(s: Bytes): seq<Bytes>
    decreases |s|
  {
    var k := NewlineAt(s);
    if k == |s| then [] else [s[..k]] + Lines(s[k + 1..])
  }

  /** What follows the last newline. */
  function Partial(s: Bytes): Bytes
    decreases |s|
  {
    var k := NewlineAt(s);
    if k == |s| then s else Partial(s[k + 1..])
  }

  lemma {:induction false} LinesStep(s: Bytes, k: nat)
    requires k == NewlineAt(s) < |s|
    ensures Lines(s) == [s[..k]] + Lines(s[k + 1..])
    ensures Partial(s) == Partial(s[k + 1..])
  {
    hide NewlineAt;
  }

  lemma {:induction false} LinesEnd(s: Bytes)
    requires NewlineAt(s) == |s|
    ensures Lines(s) == [] && Partial(s) == s
  {
    hide NewlineAt;
  }

  lemma {:induction false} NewlineAtPrefix(s: Bytes, t: Bytes)
    requires NewlineAt(s) < |s|
    ensures NewlineAt(s + t) == NewlineAt(s)
  {
    hide NewlineAt;
    var k := NewlineAt(s);
    assert (s + t)[k] == NEWLINE;
    assert forall j :: 0 <= j < k ==> (s + t)[j] == s[j];
  }

  /** Lines do not depend on where the stream is cut into pieces. */
  lemma {:induction false} LinesConcat(s: Bytes, t: Bytes)
    ensures Lines(s + t) == Lines(s) + Lines(Partial(s) + t)
    ensures Partial(s + t) == Partial(Partial(s) + t)
    decreases |s|
  {
    hide NewlineAt, Lines, Partial;
    var k := NewlineAt(s);
    if k == |s| {
      LinesEnd(s);
    } else {
      LinesStep(s, k);
      NewlineAtPrefix(s, t);
      LinesStep(s + t, k);
      assert (s + t)[..k] == s[..k] && (s + t)[k + 1..] == s[k + 1..] + t;
      LinesConcat(s[k + 1..], t);
      assert [s[..k]] + Lines(s[k + 1..]) + Lines(Partial(s) + t) == [s[..k]] + (Lines(s[k + 1..]) + Lines(Partial(s) + t));
    }
  }

  /** The lines are the stream: joined with newlines they give it back. */
  function Join(lines: seq<Bytes>): Bytes
    decreases |lines|
  {
    if lines == [] then [] else lines[0] + [NEWLINE] + Join(lines[1..])
  }

  lemma {:induction false} LinesJoin(s: Bytes)
    ensures Join(Lines(s)) + Partial(s) == s
    ensures NewlineAt(Partial(s)) == |Partial(s)|
    ensures forall l :: l in Lines(s) ==> NewlineAt(l) == |l|
    decreases |s|
  {
    hide NewlineAt, Lines, Partial;
    var k := NewlineAt(s);
    if k == |s| {
      LinesEnd(s);
    } else {
      LinesStep(s, k);
      LinesJoin(s[k + 1..]);
      assert Lines(s)[1..] == Lines(s[k + 1..]);
      assert s == s[..k] + [NEWLINE] + s[k + 1..];
      assert NewlineAt(s[..k]) == |s[..k]|;
    }
  }

  /** There is one way to read a stream as lines, so the handled frames depend on
      the bytes sent and on nothing else. */
  lemma {:induction false} LinesUnique(s: Bytes, lines: seq<Bytes>, rest: Bytes)
    requires s == Join(lines) + rest && NewlineAt(rest) == |rest|
    requires forall k :: 0 <= k < |lines| ==> NewlineAt(lines[k]) == |lines[k]|
    ensures Lines(s) == lines && Partial(s) == rest
    decreases |lines|
  {
    hide NewlineAt;
    if lines == [] {
      assert s == rest;
    } else {
      var l := lines[0];
      var t := Join(lines[1..]) + rest;
      assert s == l + [NEWLINE] + t;
      assert s[|l|] == NEWLINE && forall j :: 0 <= j < |l| ==> s[j] == l[j];
      assert NewlineAt(s) == |l|;
      assert s[..|l|] == l && s[|l| + 1..] == t;
      LinesUnique(t, lines[1..], rest);
    }
  }

  /* ----------------------------------- The pump --------------------------------- */

  /** What one read of a non-blocking descriptor returns. */
  datatype Recv = Blocked | Eof | Part(bytes: Bytes) | Raises

  /** The other side has closed: an end, or an empty part. */
  predicate IsEnd(recvs: seq<Recv>, k: nat) {
    k < |recvs| && (recvs[k].Eof? || recvs[k] == Part([]))
  }

  function Received(recvs: seq<Recv>): Bytes
    decreases |recvs|
  {
    if recvs == [] then []
    else Received(recvs[..|recvs| - 1]) + (var r := recvs[|recvs| - 1]; if r.Part? then r.bytes else [])
  }

  datatype Wait = Running | Reaped(code: int) | NoChild

  datatype Fd = Control | Output

  /** One turn of the loop before the deadline: what waitpid says, then the
      descriptors the poll reports. */
  datatype Round = Round(wait: Wait, ready: seq<Fd>)

  /** What becomes of a handled frame: its reply is sent, cannot be sent, or handling
      it raises an exception that is not turned into a reply. */
  datatype Answer = Sent | Unsendable | Escapes

  /** How the pump ends: cleanly, with the child gone, with an oversized frame or a
      reply that cannot be sent, with an exception, or at the deadline. */
  datatype Ending = Clean(code: int) | ChildLost | Broken | Escaped | TimedOut

  lemma ReceivedStep(recvs: seq<Recv>, k: nat)
    requires k < |recvs|
    ensures Received(recvs[..k + 1]) == Received(recvs[..k]) + (if recvs[k].Part? then recvs[k].bytes else [])
  {
    assert recvs[..k + 1][..k] == recvs[..k];
  }

  /** The first read from k on that finds the other side closed, or the number of reads. */
  function EndFrom(recvs: seq<Recv>, k: nat): (e: nat)
    requires k <= |recvs|
    ensures k <= e <= |recvs| && (e < |recvs| ==> IsEnd(recvs, e)) && forall j :: k <= j < e ==> !IsEnd(recvs, j)
    decreases |recvs| - k
  {
    if k == |recvs| || IsEnd(recvs, k) then k else EndFrom(recvs, k + 1)
  }

  function FirstEnd(recvs: seq<Recv>): nat { EndFrom(recvs, 0) }

  /** How many of the reads are made when the poll reports the descriptor n times:
      one each time, until one has found the other side closed. */
  function ReadsMade(recvs: seq<Recv>, n: nat): nat {
    var most := if FirstEnd(recvs) < |recvs| then FirstEnd(recvs) + 1 else |recvs|;
    if n < most then n else most
  }

  predicate ReadToEnd(recvs: seq<Recv>, n: nat) {
    FirstEnd(recvs) < |recvs| && FirstEnd(recvs) < n
  }

  /** How often the poll reports a descriptor in the given rounds. */
  function Reports(rounds: seq<Round>, fd: Fd): nat
    decreases |rounds|
  {
    if rounds == [] then 0
    else Reports(rounds[..|rounds| - 1], fd) + multiset(rounds[|rounds| - 1].ready)[fd]
  }

  /** The first round from k on in which waitpid says anything but that the child runs. */
  function ExitFrom(rounds: seq<Round>, k: nat): (e: nat)
    requires k <= |rounds|
    ensures k <= e <= |rounds| && (e < |rounds| ==> !rounds[e].wait.Running?)
    ensures forall j :: k <= j < e ==> rounds[j].wait.Running?
    decreases |rounds| - k
  {
    if k == |rounds| || !rounds[k].wait.Running? then k else ExitFrom(rounds, k + 1)
  }

  function FirstExit(rounds: seq<Round>): nat { ExitFrom(rounds, 0) }

  lemma ReportsStep(rounds: seq<Round>, k: nat, fd: Fd)
    requires k < |rounds|
    ensures Reports(rounds[..k + 1], fd) == Reports(rounds[..k], fd) + multiset(rounds[k].ready)[fd]
  {
    assert rounds[..k + 1][..k] == rounds[..k];
  }

  /** A read that makes the unfinished line longer than a frame may be. */
  predicate Overflows(recvs: seq<Recv>, k: nat) {
    && k < |recvs| && recvs[k].Part?
    && |Partial(Received(recvs[..k]))| + |recvs[k].bytes| > 16384
  }

  function Take(s: Bytes, n: nat): Bytes { if |s| <= n then s else s[..n] }

  class Pump {
    const controlRecvs: seq<Recv>      // what successive reads will return
    const outputRecvs: seq<Recv>
    const answers: nat -> Answer       // what becomes of the k-th frame

    var output: Bytes
    var input: Bytes
    var handled: seq<Bytes>
    var exited: bool
    var status: int
    var outputEof: bool
    var controlEof: bool
    var controlCount: nat              // reads made so far
    var outputCount: nat

    constructor (controlRecvs: seq<Recv>, outputRecvs: seq<Recv>, answers: nat -> Answer)
      ensures output == input == [] && handled == [] && !exited && !outputEof && !controlEof
      ensures controlCount == outputCount == 0
      ensures this.controlRecvs == controlRecvs && this.outputRecvs == outputRecvs && this.answers == answers
    {
      this.controlRecvs, this.outputRecvs, this.answers := controlRecvs, outputRecvs, answers;
      output, input, handled := [], [], [];
      exited, status, outputEof, controlEof := false, 0, false, false;
      controlCount, outputCount := 0, 0;
    }

    /** The bytes the child has sent so far. */
    ghost function Stream(): Bytes
      reads this
      requires controlCount <= |controlRecvs|
    {
      Received(controlRecvs[..controlCount])
    }

    ghost predicate Counts()
      reads this
    {
      && controlCount <= |controlRecvs| && outputCount <= |outputRecvs|
      && output == Take(Received(outputRecvs[..outputCount]), 131072)
    }

    /** Between rounds: every complete line was handled, in order and once. */
    ghost predicate Valid()
      reads this
    {
      && Counts()
      && handled == Lines(Stream()) && input == Partial(Stream())
      && |input| <= 16384
    }

    /** Handling of the last frame ended this way. */
    predicate LastAnswered(a: Answer)
      reads this
    {
      handled != [] && answers(|handled| - 1) == a
    }

    predicate LastReadRaised()
      reads this
      requires controlCount <= |controlRecvs| && outputCount <= |outputRecvs|
    {
      || (controlCount > 0 && controlRecvs[controlCount - 1].Raises?)
      || (outputCount > 0 && outputRecvs[outputCount - 1].Raises?)
    }

    /** Why the pump stops in the middle of a round. */
    ghost predicate Explained(stop: Ending)
      reads this
      requires controlCount <= |controlRecvs| && outputCount <= |outputRecvs|
    {
      match stop
      case Broken => (controlCount > 0 && Overflows(controlRecvs, controlCount - 1)) || LastAnswered(Unsendable)
      case Escaped => LastReadRaised() || LastAnswered(Escapes)
      case _ => false
    }

    method ReadOutput() returns (stop: Option<Ending>)
      requires Valid()
      modifies this`output, this`outputEof, this`outputCount
      ensures Valid()
      ensures outputCount == (if old(outputCount) < |outputRecvs| then old(outputCount) + 1 else |outputRecvs|)
      ensures outputEof == (old(outputEof) || IsEnd(outputRecvs, old(outputCount)))
      ensures stop.Some? ==> Explained(stop.value)
    {
      stop := None;
      if outputCount == |outputRecvs| { return; }
      var r := outputRecvs[outputCount];
      assert outputRecvs[..outputCount + 1][..outputCount] == outputRecvs[..outputCount];
      outputCount := outputCount + 1;
      if r.Raises? { return Some(Escaped); }
      if r.Eof? || (r.Part? && r.bytes == []) {
        outputEof := true;
      } else if r.Part? {
        if |output| < MAX_CAPTURE {
          output := output + Take(r.bytes, MAX_CAPTURE - |output|);
        }
      }
    }

    /** Handles every complete line of the buffer, up to one that is not answered. */
    method HandleLines() returns (last: Answer)
      requires Counts() && Lines(Stream()) == handled + Lines(input) && Partial(Stream()) == Partial(input)
      modifies this`input, this`handled
      ensures Counts() && handled <= Lines(Stream()) && |input| <= old(|input|)
      ensures last.Sent? ==> handled == Lines(Stream()) && input == Partial(Stream())
      ensures !last.Sent? ==> LastAnswered(last)
      ensures forall k :: old(|handled|) <= k < |handled| && answers(k) != Sent ==> k == |handled| - 1 && last == answers(k)
    {
      hide NewlineAt, Lines, Partial, Received, Take;
      while NEWLINE in input
        invariant Counts() && Lines(Stream()) == handled + Lines(input) && Partial(Stream()) == Partial(input)
        invariant |input| <= old(|input|) && |handled| >= old(|handled|)
        invariant forall k :: old(|handled|) <= k < |handled| ==> answers(k) == Sent
        decreases |input|
      {
        var k := NewlineAt(input);
        assert k < |input|;
        var raw := input[..k];
        LinesStep(input, k);
        assert handled + ([raw] + Lines(input[k + 1..])) == (handled + [raw]) + Lines(input[k + 1..]);
        input := input[k + 1..];
        handled := handled + [raw];
        last := answers(|handled| - 1);
        if !last.Sent? { return; }
      }
      assert NewlineAt(input) == |input|;
      LinesEnd(input);
      last := Sent;
    }

    method ReadControl() returns (stop: Option<Ending>)
      requires Valid()
      modifies this`input, this`handled, this`controlEof, this`controlCount
      ensures Counts() && handled <= Lines(Stream())
      ensures controlCount == (if old(controlCount) < |controlRecvs| then old(controlCount) + 1 else |controlRecvs|)
      ensures controlEof == (old(controlEof) || IsEnd(controlRecvs, old(controlCount)))
      ensures stop.None? ==> Valid()
      ensures stop.Some? ==> Explained(stop.value)
    {
      hide Lines, Partial, Received, Take;
      stop := None;
      if controlCount == |controlRecvs| { return; }
      var r := controlRecvs[controlCount];
      ReceivedStep(controlRecvs, controlCount);
      ghost var before := Stream();
      controlCount := controlCount + 1;
      if r.Raises? {
        assert Stream() == before;
        return Some(Escaped);
      }
      if r.Eof? || (r.Part? && r.bytes == []) {
        controlEof := true;
        assert Stream() == before;
        return;
      }
      if r.Blocked? { assert Stream() == before; return; }
      LinesConcat(before, r.bytes);
      input := input + r.bytes;
      if |input| > MAX_PRIVATE_FRAME {
        assert Overflows(controlRecvs, controlCount - 1);
        assert handled <= Lines(Stream());
        return Some(Broken);
      }
      var last := HandleLines();
      match last {
        case Sent =>
        case Unsendable => stop := Some(Broken);
        case Escapes => stop := Some(Escaped);
      }
    }

    /** In round n the child is reaped by now, its output was read to the end, and the
        private channel too unless no line is unfinished. */
    ghost predicate Finished(rounds: seq<Round>, n: nat) {
      && n < |rounds| && FirstExit(rounds) <= n && rounds[FirstExit(rounds)].wait.Reaped?
      && ReadToEnd(outputRecvs, Reports(rounds[..n], Output))
      && var c := Reports(rounds[..n], Control);
         ReadToEnd(controlRecvs, c) || Partial(Received(controlRecvs[..ReadsMade(controlRecvs, c)])) == []
    }

    ghost predicate Lost(rounds: seq<Round>, n: nat) {
      n < |rounds| && FirstExit(rounds) == n && rounds[n].wait == NoChild
    }

    /** No read raises, no line is too long and every frame is answered. */
    ghost predicate Smooth() {
      && (forall k :: 0 <= k < |outputRecvs| ==> !outputRecvs[k].Raises?)
      && (forall k :: 0 <= k < |controlRecvs| ==> !controlRecvs[k].Raises? && !Overflows(controlRecvs, k))
      && (forall k :: answers(k) == Sent)
    }

    /** Exactly the reads were made that the reports of rounds[..n] and `more` allow. */
    ghost predicate ReadsOf(rounds: seq<Round>, n: nat, more: multiset<Fd>)
      reads this
      requires n <= |rounds|
    {
      var o, c := Reports(rounds[..n], Output) + more[Output], Reports(rounds[..n], Control) + more[Control];
      && outputCount == ReadsMade(outputRecvs, o) && outputEof == ReadToEnd(outputRecvs, o)
      && controlCount == ReadsMade(controlRecvs, c) && controlEof == ReadToEnd(controlRecvs, c)
    }

    /** Whether the child was waited for, and what it said, before round n. */
    ghost predicate Waited(rounds: seq<Round>, n: nat)
      reads this
    {
      && exited == (FirstExit(rounds) < n && FirstExit(rounds) < |rounds|)
      && (exited ==> rounds[FirstExit(rounds)].wait == Reaped(status))
    }

    lemma FinishedIs(rounds: seq<Round>, n: nat)
      requires n < |rounds| && Valid() && Waited(rounds, n + 1) && ReadsOf(rounds, n, multiset{})
      ensures Finished(rounds, n) <==> exited && outputEof && (controlEof || input == [])
    {
      hide Lines, Partial, Received, Take, Reports, ReadsMade, ReadToEnd;
    }

    lemma NothingRead(rounds: seq<Round>)
      requires !outputEof && !controlEof && outputCount == controlCount == 0
      ensures ReadsOf(rounds, 0, multiset{})
    {
    }

    lemma RoundIsOver(rounds: seq<Round>, n: nat)
      requires n < |rounds| && ReadsOf(rounds, n, multiset(rounds[n].ready))
      ensures ReadsOf(rounds, n + 1, multiset{})
    {
      hide Reports, ReadsMade, ReadToEnd;
      ReportsStep(rounds, n, Output);
      ReportsStep(rounds, n, Control);
    }

    /** One event of the poll. */
    method Serve(fd: Fd, ghost rounds: seq<Round>, ghost n: nat, ghost more: multiset<Fd>) returns (stop: Option<Ending>)
      requires Valid() && n <= |rounds| && ReadsOf(rounds, n, more)
      modifies this`output, this`outputEof, this`outputCount, this`input, this`handled, this`controlEof, this`controlCount
      ensures Counts() && handled <= Lines(Stream())
      ensures stop.None? ==> Valid() && ReadsOf(rounds, n, more + multiset{fd})
      ensures stop.Some? ==> Explained(stop.value)
    {
      hide Lines, Partial, Received, Take, Reports;
      stop := None;
      if fd == Output {
        if !outputEof { stop := ReadOutput(); }
      } else if !controlEof {
        stop := ReadControl();
      }
    }

    /** The events of round n. */
    method ServeAll(ready: seq<Fd>, ghost rounds: seq<Round>, ghost n: nat) returns (stop: Option<Ending>)
      requires n < |rounds| && ready == rounds[n].ready && Valid() && ReadsOf(rounds, n, multiset{})
      modifies this`output, this`outputEof, this`outputCount, this`input, this`handled, this`controlEof, this`controlCount
      ensures Counts() && handled <= Lines(Stream())
      ensures stop.None? ==> Valid() && ReadsOf(rounds, n + 1, multiset{})
      ensures stop.Some? ==> Explained(stop.value)
    {
      hide Lines, Partial, Received, Take, Reports, ReadsMade, ReadToEnd;
      stop := None;
      assert ready[..0] == [];
      for j := 0 to |ready|
        invariant stop.None? && Valid() && ReadsOf(rounds, n, multiset(ready[..j]))
      {
        stop := Serve(ready[j], rounds, n, multiset(ready[..j]));
        if stop.Some? { return; }
        assert ready[..j + 1] == ready[..j] + [ready[j]];
      }
      assert ready[..|ready|] == ready;
      RoundIsOver(rounds, n);
    }

    /** `pump_transaction`: Escaped leaves it by an exception, every other ending but
        Clean is the source's (None, True). The pump ends in the first round that finds
        the child reaped and both descriptors done, with the status of that child, or
        in the first that finds no child, or when the rounds are over, unless something
        goes wrong first. */
    method Run(rounds: seq<Round>) returns (ending: Ending, ghost n: nat)
      requires Valid() && !exited && !outputEof && !controlEof && outputCount == controlCount == 0
      modifies this
      ensures Counts() && handled <= Lines(Stream())
      ensures n <= |rounds| && forall m: nat :: m < n ==> !Finished(rounds, m) && !Lost(rounds, m)
      ensures match ending
        case Clean(code) =>
          && Finished(rounds, n) && rounds[FirstExit(rounds)].wait == Reaped(code)
          && Valid() && ReadsOf(rounds, n, multiset{}) && (controlEof || input == [])
        case ChildLost => Lost(rounds, n) && Valid() && ReadsOf(rounds, n, multiset{})
        case Broken => n < |rounds| && Explained(Broken)
        case Escaped => n < |rounds| && Explained(Escaped)
        case TimedOut => n == |rounds| && Valid() && ReadsOf(rounds, n, multiset{})
      ensures Smooth() ==> !ending.Broken? && !ending.Escaped?
    {
      hide Lines, Partial, Received, Take, Reports, ReadsMade, ReadToEnd, Finished;
      n := 0;
      NothingRead(rounds);
      for i := 0 to |rounds|
        invariant n == i
        invariant Valid() && Waited(rounds, i) && ReadsOf(rounds, i, multiset{})
        invariant forall m: nat :: m < i ==> !Finished(rounds, m) && !Lost(rounds, m)
      {
        if !exited {
          match rounds[i].wait {
            case NoChild => return ChildLost, i;
            case Reaped(code) => exited, status := true, code;
            case Running =>
          }
        }
        FinishedIs(rounds, i);
        if exited && (controlEof || input == []) && outputEof { return Clean(status), i; }
        var stop := ServeAll(rounds[i].ready, rounds, i);
        if stop.Some? { return stop.value, i; }
        n := i + 1;
      }
      ending := TimedOut;
    }
  }
}
