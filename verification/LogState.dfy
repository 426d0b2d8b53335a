/** The state of the log directory, and what each change to it keeps. */
module LogState {
  import opened Wrappers
  import opened LogFiles
  import opened Octets
  import opened LogRotation

  /** The active file: complete records, then what an interrupted append left. */
  datatype Active = Active(lines: seq<Bytes>, torn: Bytes, modified: nat)

  /** `closed` is in the order of rotation; `history` is everything ever appended. */
  datatype Log = Log(active: Option<Active>, closed: seq<Rotated>, clock: nat, history: seq<Bytes>)

  function ActiveLines(l: Log): seq<Bytes> {
    if l.active.None? then [] else l.active.value.lines
  }

  function ActiveSize(l: Log): nat {
    if l.active.None? then 0 else Size(l.active.value.lines) + |l.active.value.torn|
  }

  /** All bytes in the directory, the lock file included. */
  function Occupied(l: Log, lockSize: nat): nat {
    lockSize + Total(l.closed) + ActiveSize(l)
  }

  /** The complete records in the directory, oldest first. */
  function Surviving(l: Log): seq<Bytes> {
    Lines(l.closed) + ActiveLines(l)
  }

  predicate Intact(l: Log) {
    l.active.Some? ==> l.active.value.torn == []
  }

  ghost predicate IsCut(torn: Bytes, parses: Bytes -> bool) {
    exists line, k {:trigger line[..k]} :: IsRecord(line, parses) && 0 < k < |line| && torn == line[..k]
  }

  ghost predicate FileOk(f: Rotated, l: Log, parses: Bytes -> bool) {
    && f.stamp <= l.clock && f.lines != [] && AllRecords(f.lines, parses) && Size(f.lines) <= MAX_FILE
    && (ActiveLines(l) != [] ==> f.stamp < l.active.value.modified)
  }

  ghost predicate ActiveOk(l: Log, parses: Bytes -> bool) {
    && AllRecords(ActiveLines(l), parses)
    && ActiveSize(l) <= MAX_FILE
    && (l.active.Some? ==> l.active.value.modified <= l.clock)
    && (!Intact(l) ==> IsCut(l.active.value.torn, parses))
  }

  ghost predicate ClosedOk(l: Log, parses: Bytes -> bool) {
    && Chronological(l.closed)
    && forall k {:trigger l.closed[k]} :: 0 <= k < |l.closed| ==> FileOk(l.closed[k], l, parses)
  }

  ghost predicate LogOk(l: Log, lockSize: nat, parses: Bytes -> bool) {
    && ClosedOk(l, parses)
    && ActiveOk(l, parses)
    && Suffix(Surviving(l), l.history)
    && Occupied(l, lockSize) <= MAX_TOTAL
  }

  /** The active file was last written more than 14 days before `now`. */
  predicate Expired(a: Active, now: nat) {
    now > a.modified + 14 * 86400 * 1000000
  }

  /** A non-empty active file is due when it is expired or has reached 10 MiB. */
  predicate RotationDue(l: Log, now: nat) {
    && l.active.Some? && Size(l.active.value.lines) > 0
    && (Expired(l.active.value, now) || Size(l.active.value.lines) >= 10 * 1024 * 1024)
  }

  /** The files after one rotation that was due at `now`: the active file closes them,
      stamped with its last write when it is expired and with a later time otherwise. */
  ghost predicate RotatedOnce(l: Log, now: nat, files: seq<Rotated>)
    requires l.active.Some?
  {
    && |files| == |l.closed| + 1 && files[..|l.closed|] == l.closed
    && files[|l.closed|].lines == l.active.value.lines
    && (if Expired(l.active.value, now) then files[|l.closed|].stamp == l.active.value.modified
        else files[|l.closed|].stamp > l.clock)
  }

  lemma TickKeeps(l: Log, lockSize: nat, parses: Bytes -> bool, t: nat)
    requires LogOk(l, lockSize, parses) && t >= l.clock
    ensures LogOk(l.(clock := t), lockSize, parses)
  {
    var l' := l.(clock := t);
    forall k | 0 <= k < |l.closed| ensures FileOk(l'.closed[k], l', parses) {
      assert FileOk(l.closed[k], l, parses);
    }
  }

  function Rotation(l: Log, stamp: nat, token: nat): Log
    requires l.active.Some?
  {
    l.(closed := l.closed + [Rotated(stamp, token, l.active.value.lines)], active := None)
  }

  /** A rotation stamped with the last modification or with a time not before
      the present keeps the order of the files and every record. */
  lemma RotationKeeps(l: Log, lockSize: nat, parses: Bytes -> bool, stamp: nat, token: nat)
    requires LogOk(l, lockSize, parses) && Intact(l) && ActiveLines(l) != []
    requires l.active.value.modified <= stamp <= l.clock
    ensures var l' := Rotation(l, stamp, token);
      && LogOk(l', lockSize, parses)
      && Surviving(l') == Surviving(l) && Occupied(l', lockSize) == Occupied(l, lockSize)
  {
    var f := Rotated(stamp, token, l.active.value.lines);
    var l' := Rotation(l, stamp, token);
    LinesSnoc(l.closed, f);
    forall k | 0 <= k < |l'.closed| ensures FileOk(l'.closed[k], l', parses) {
      if k < |l.closed| {
        assert l'.closed[k] == l.closed[k];
        assert FileOk(l.closed[k], l, parses);
      }
    }
    forall j, k | 0 <= j < k < |l'.closed| ensures l'.closed[j].stamp < l'.closed[k].stamp {
      assert l'.closed[j] == l.closed[j];
      assert FileOk(l.closed[j], l, parses);
      if k < |l.closed| { assert l'.closed[k] == l.closed[k]; }
    }
    assert Surviving(l') == Surviving(l);
  }

  /** Unlinking the oldest rotated files keeps a suffix of the records. */
  lemma DropKeeps(l: Log, lockSize: nat, parses: Bytes -> bool)
    requires LogOk(l, lockSize, parses) && l.closed != []
    ensures var l' := l.(closed := l.closed[1..]);
      && LogOk(l', lockSize, parses) && Suffix(Surviving(l'), Surviving(l))
      && Occupied(l', lockSize) + Size(l.closed[0].lines) == Occupied(l, lockSize)
  {
    hide AllRecords, IsCut, Size, IsRecord;
    var l' := l.(closed := l.closed[1..]);
    assert Total(l.closed) == Size(l.closed[0].lines) + Total(l'.closed);
    assert Lines(l.closed) == l.closed[0].lines + Lines(l'.closed);
    hide Total, Lines;
    forall k | 0 <= k < |l'.closed| ensures FileOk(l'.closed[k], l', parses) {
      assert l'.closed[k] == l.closed[k + 1];
      assert FileOk(l.closed[k + 1], l, parses);
    }
    forall j, k | 0 <= j < k < |l'.closed| ensures l'.closed[j].stamp < l'.closed[k].stamp {
      assert l'.closed[j] == l.closed[j + 1] && l'.closed[k] == l.closed[k + 1];
    }
    assert Surviving(l) == l.closed[0].lines + Surviving(l');
    SuffixTrans(Surviving(l'), Surviving(l), l.history);
  }

  function Written(l: Log, raw: Bytes, now: nat): Log
    requires l.active.Some?
  {
    Log(Some(Active(l.active.value.lines + [raw], [], now)), l.closed, now, l.history + [raw])
  }

  lemma WrittenKeeps(l: Log, lockSize: nat, parses: Bytes -> bool, raw: Bytes, now: nat)
    requires LogOk(l, lockSize, parses) && Intact(l) && l.active.Some? && IsRecord(raw, parses)
    requires ActiveSize(l) + |raw| <= MAX_FILE && Occupied(l, lockSize) + |raw| <= MAX_TOTAL
    requires now > l.clock
    ensures var l' := Written(l, raw, now);
      LogOk(l', lockSize, parses) && Surviving(l') == Surviving(l) + [raw]
  {
    var l' := Written(l, raw, now);
    SizeSnoc(l.active.value.lines, raw);
    forall k | 0 <= k < |l'.closed| ensures FileOk(l'.closed[k], l', parses) {
      assert FileOk(l.closed[k], l, parses);
    }
    assert Surviving(l') == Surviving(l) + [raw];
    SuffixAppend(Surviving(l), l.history, [raw]);
  }

  /** An append cut after k bytes leaves its records alone, and unless nothing was
      written the active file fails the tail check from then on. */
  lemma TornKeeps(l: Log, lockSize: nat, parses: Bytes -> bool, raw: Bytes, k: nat)
    requires LogOk(l, lockSize, parses) && Intact(l) && l.active.Some? && IsRecord(raw, parses) && k < |raw|
    requires ActiveSize(l) + |raw| <= MAX_FILE && Occupied(l, lockSize) + |raw| <= MAX_TOTAL
    ensures var l' := l.(active := Some(l.active.value.(torn := raw[..k])));
      && LogOk(l', lockSize, parses) && Surviving(l') == Surviving(l)
      && (k > 0 ==> !TailOk(ActiveBytes(l'.active.value), parses))
  {
    var l' := l.(active := Some(l.active.value.(torn := raw[..k])));
    if k > 0 { CutAppendFails(l.active.value.lines, raw, k, parses); }
    forall j | 0 <= j < |l'.closed| ensures FileOk(l'.closed[j], l', parses) {
      assert FileOk(l.closed[j], l, parses);
    }
  }

  lemma CreatedKeeps(l: Log, lockSize: nat, parses: Bytes -> bool)
    requires LogOk(l, lockSize, parses) && l.active.None?
    ensures LogOk(l.(active := Some(Active([], [], l.clock))), lockSize, parses)
  {
    var l' := l.(active := Some(Active([], [], l.clock)));
    forall j | 0 <= j < |l'.closed| ensures FileOk(l'.closed[j], l', parses) {
      assert FileOk(l.closed[j], l, parses);
    }
  }

  /* ------------------------------ The tail check ----------------------------- */

  function ActiveBytes(a: Active): Bytes {
    Flat(a.lines) + a.torn
  }

  /** The tail check passes on every file of a log exactly when no append of it
      was ever cut. */
  lemma TailChecks(l: Log, lockSize: nat, parses: Bytes -> bool)
    requires LogOk(l, lockSize, parses)
    ensures forall k :: 0 <= k < |l.closed| ==>
              TailOk(Flat(l.closed[k].lines), parses) && |Flat(l.closed[k].lines)| == Size(l.closed[k].lines) <= MAX_FILE
              && l.closed[k].stamp <= l.clock
    ensures l.active.Some? ==>
              && |ActiveBytes(l.active.value)| == ActiveSize(l) <= MAX_FILE
              && (TailOk(ActiveBytes(l.active.value), parses) <==> Intact(l))
  {
    forall k | 0 <= k < |l.closed|
      ensures TailOk(Flat(l.closed[k].lines), parses) && |Flat(l.closed[k].lines)| == Size(l.closed[k].lines) <= MAX_FILE
              && l.closed[k].stamp <= l.clock
    {
      assert FileOk(l.closed[k], l, parses);
      CompleteFilePasses(l.closed[k].lines, parses);
      FlatSize(l.closed[k].lines);
    }
    if l.active.Some? {
      var a := l.active.value;
      FlatSize(a.lines);
      if Intact(l) {
        assert ActiveBytes(a) == Flat(a.lines);
        CompleteFilePasses(a.lines, parses);
      } else {
        var line, k :| IsRecord(line, parses) && 0 < k < |line| && a.torn == line[..k];
        CutAppendFails(a.lines, line, k, parses);
      }
    }
  }
}
