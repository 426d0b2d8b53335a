/**
 * The operational logger: one active file, rotated files, retention, eviction
 * and appends. Every process may be killed after any number of file-system
 * changes; the directory always holds a suffix of everything ever appended.
 */
module OperationalLog {
  import opened Wrappers
  import opened LogFiles
  import opened Octets
  import opened LogRotation
  import opened LogState

  datatype Reason = UnsafeEntry | CorruptTail | InvalidRotationTime | CapacityExhausted | RecordTooLong | ShortWrite | SyncFailed

  datatype Status = Done | Unavailable(reason: Reason) | Killed

  class Logger {
    const lockSize: nat
    const parses: Bytes -> bool
    const benign: bool           // entries are in order and writes are transferred whole
    var active: Option<Active>
    var closed: seq<Rotated>
    var clock: nat               // microseconds, strictly increasing
    var budget: nat              // file-system changes left before the process is killed
    ghost var history: seq<Bytes>

    ghost function View(): Log
      reads this
    {
      Log(active, closed, clock, history)
    }

    ghost predicate Valid()
      reads this
    {
      LogOk(View(), lockSize, parses)
    }

    constructor (lockSize: nat, parses: Bytes -> bool, benign: bool, clock: nat)
      requires lockSize <= MAX_TOTAL
      ensures Valid() && View() == Log(None, [], clock, [])
      ensures this.lockSize == lockSize && this.parses == parses && this.benign == benign
    {
      this.lockSize, this.parses, this.benign, this.clock := lockSize, parses, benign, clock;
      active, closed, budget, history := None, [], 0, [];
    }

    /* ------------------------------ Environment ------------------------------ */

    method Now() returns (t: nat)
      requires Valid()
      modifies this`clock
      ensures Valid() && t == clock && clock > old(clock)
    {
      TickKeeps(View(), lockSize, parses, clock + 1);
      clock := clock + 1;
      t := clock;
    }

    /** The directory in whatever order the file system lists it. */
    method ListDir() returns (names: seq<Rotated>)
      ensures multiset(names) == multiset(closed)
    {
      names := closed;
    }

    /** Type, owner, mode and link checks of every entry. */
    method EntriesSafe() returns (safe: bool)
      ensures benign ==> safe
    {
      safe :| benign ==> safe;
    }

    method Token() returns (token: nat) {
      token := *;
    }

    /** How much of a buffer one write call transfers. */
    method Transferred(length: nat) returns (n: nat)
      ensures n <= length && (benign ==> n == length)
    {
      n :| n <= length && (benign ==> n == length);
    }

    /** Whether the bytes written are reported to be on the device. */
    method Synced() returns (ok: bool)
      ensures benign ==> ok
    {
      ok :| benign ==> ok;
    }

    /** The changes that can be made beyond unlinking every rotated file. */
    ghost function Slack(): int
      reads this
    {
      budget - |closed|
    }

    /* ------------------------------- Operations ------------------------------ */

    /** Checks every entry and returns the rotated files in order. A directory
        whose last append was cut is refused, now and for ever. */
    method Paths() returns (st: Status, listed: seq<Rotated>, total: int)
      requires Valid()
      modifies this`clock
      ensures Valid() && clock > old(clock)
      ensures st.Done? ==> listed == closed && total == Occupied(View(), lockSize) && Intact(View())
      ensures st in {Done, Unavailable(UnsafeEntry), Unavailable(CorruptTail)}
      ensures benign && Intact(View()) ==> st.Done?
    {
      listed, total := [], lockSize;
      var now := Now();
      var safe := EntriesSafe();
      if !safe { return Unavailable(UnsafeEntry), [], 0; }
      var listing := ListDir();
      listed := Sort(listing);
      SortedListingIsChronological(closed, listed);
      TailChecks(View(), lockSize, parses);
      for k := 0 to |listed|
        invariant total + Total(listed[k..]) == lockSize + Total(closed)
      {
        var f := listed[k];
        var bytes := Flat(f.lines);
        if |bytes| > MAX_FILE { return Unavailable(UnsafeEntry), [], 0; }
        if !TailOk(bytes, parses) { return Unavailable(CorruptTail), [], 0; }
        if f.stamp > now + 300000000 { return Unavailable(InvalidRotationTime), [], 0; }
        total := total + |bytes|;
      }
      if active.Some? {
        var bytes := ActiveBytes(active.value);
        if |bytes| > MAX_FILE { return Unavailable(UnsafeEntry), [], 0; }
        if !TailOk(bytes, parses) { return Unavailable(CorruptTail), [], 0; }
        total := total + |bytes|;
      }
      st := Done;
    }

    /** Renames the active file; the stamp is the given time or the present. */
    method Rotate(at: Option<nat>) returns (st: Status)
      requires Valid() && Intact(View()) && ActiveLines(View()) != []
      requires at.Some? ==> at.value == active.value.modified
      modifies this
      ensures Valid() && history == old(history) && Surviving(View()) == old(Surviving(View()))
      ensures Occupied(View(), lockSize) == old(Occupied(View(), lockSize))
      ensures if st.Done? then active.None? else st.Killed? && active == old(active)
      ensures st.Done? ==>
                && |closed| == |old(closed)| + 1 && closed[..|old(closed)|] == old(closed)
                && closed[|old(closed)|].lines == old(active).value.lines
                && (if at.Some? then closed[|old(closed)|].stamp == at.value else closed[|old(closed)|].stamp > old(clock))
      ensures clock >= old(clock)
      ensures old(budget) > 0 ==> st.Done? && Slack() == old(Slack()) - 2
    {
      var stamp;
      if at.Some? { stamp := at.value; } else { stamp := Now(); }
      var token := Token();
      if budget == 0 { return Killed; }
      budget := budget - 1;
      RotationKeeps(View(), lockSize, parses, stamp, token);
      closed, active := closed + [Rotated(stamp, token, active.value.lines)], None;
      st := Done;
    }

    /** Unlinks the oldest rotated file, given by its name. */
    method Unlink(f: Rotated) returns (st: Status)
      requires Valid() && closed != [] && closed[0] == f
      modifies this`closed, this`budget
      ensures Valid() && Suffix(Surviving(View()), old(Surviving(View())))
      ensures st.Done? ==> closed == old(closed)[1..]
      ensures st.Done? ==> Occupied(View(), lockSize) + Size(f.lines) == old(Occupied(View(), lockSize))
      ensures !st.Done? ==> st.Killed? && closed == old(closed)
      ensures old(budget) > 0 ==> st.Done? && Slack() == old(Slack())
    {
      if budget == 0 { return Killed; }
      budget := budget - 1;
      DropKeeps(View(), lockSize, parses);
      closed := Without(closed, f);
      st := Done;
    }

    /** Retention: unlinks every rotated file older than the limit. */
    method Expire(listed: seq<Rotated>, now: nat) returns (st: Status)
      requires Valid() && listed == closed
      modifies this`closed, this`budget
      ensures Valid() && Suffix(Surviving(View()), old(Surviving(View())))
      ensures st.Done? ==> closed == Retained(listed, now)
      ensures st in {Done, Killed}
      ensures old(Slack()) >= 0 ==> st.Done? && Slack() == old(Slack())
    {
      ghost var cut := RetainedIsSuffix(listed, now);
      hide Retained, LogOk, Flat, Size, Surviving, Occupied, Suffix, Total, Lines;
      ghost var gone := 0;
      assert listed[0..] == listed;
      SuffixRefl(Surviving(View()));
      for k := 0 to |listed|
        invariant Valid() && Suffix(Surviving(View()), old(Surviving(View())))
        invariant gone == (if k < cut then k else cut) && closed == listed[gone..]
        invariant old(Slack()) >= 0 ==> Slack() == old(Slack())
      {
        if now > listed[k].stamp + RETENTION {
          assert k < cut && closed[0] == listed[k] && closed[1..] == listed[k + 1..];
          ghost var s := Surviving(View());
          st := Unlink(listed[k]);
          SuffixTrans(Surviving(View()), s, old(Surviving(View())));
          if !st.Done? { return; }
          gone := gone + 1;
        }
      }
      st := Done;
    }

    /** Eviction: unlinks the oldest rotated files until the rest fits. */
    method Evict(listed: seq<Rotated>, occupied: int, required: nat) returns (st: Status)
      requires Valid() && listed == closed && occupied == Occupied(View(), lockSize)
      modifies this`closed, this`budget
      ensures Valid() && Suffix(Surviving(View()), old(Surviving(View())))
      ensures st.Done? ==> closed == Fitting(listed, lockSize + ActiveSize(View()) + required)
      ensures st.Done? ==> Occupied(View(), lockSize) + required <= MAX_TOTAL
      ensures st.Unavailable? ==> st.reason == CapacityExhausted && lockSize + ActiveSize(View()) + required > MAX_TOTAL
      ensures old(Slack()) >= 0 ==> !st.Killed? && Slack() == old(Slack())
    {
      hide LogOk, Suffix, Lines, ActiveLines;
      var total := occupied;
      ghost var others := lockSize + ActiveSize(View()) + required;
      SuffixRefl(Surviving(View()));
      assert listed[0..] == listed;
      var k := 0;
      while k < |listed| && total + required > MAX_TOTAL
        invariant 0 <= k <= |listed|
        invariant Valid() && Suffix(Surviving(View()), old(Surviving(View())))
        invariant closed == listed[k..]
        invariant total == Occupied(View(), lockSize)
        invariant old(Slack()) >= 0 ==> Slack() == old(Slack())
        invariant Fitting(listed, others) == Fitting(listed[k..], others)
      {
        ghost var s := Surviving(View());
        assert listed[k..][1..] == listed[k + 1..];
        st := Unlink(listed[k]);
        SuffixTrans(Surviving(View()), s, old(Surviving(View())));
        if !st.Done? { return; }
        total := total - Size(listed[k].lines);
        k := k + 1;
      }
      if total + required > MAX_TOTAL { return Unavailable(CapacityExhausted); }
      st := Done;
    }

    /** The first part of `maintain`: a full or expired active file is rotated,
        and the directory is listed again. */
    method RotateIfDue(now: nat, listed: seq<Rotated>) returns (st: Status, listed': seq<Rotated>)
      requires Valid() && Intact(View()) && listed == closed
      modifies this
      ensures Valid() && history == old(history) && Surviving(View()) == old(Surviving(View()))
      ensures st.Done? ==> listed' == closed && Intact(View())
      ensures st.Unavailable? ==> st.reason !in {CapacityExhausted, SyncFailed}
      ensures st.Done? ==>
                if RotationDue(old(View()), now) then active.None? && RotatedOnce(old(View()), now, closed)
                else active == old(active) && closed == old(closed)
      ensures clock >= old(clock)
      ensures benign && old(Slack()) >= 2 ==> st.Done? && Slack() >= old(Slack()) - 2
    {
      st, listed' := Done, listed;
      if active.Some? && Size(active.value.lines) > 0
         && (now > active.value.modified + RETENTION || Size(active.value.lines) >= MAX_FILE) {
        var at := if now > active.value.modified + RETENTION then Some(active.value.modified) else None;
        st := Rotate(at);
        if !st.Done? { return; }
        var total;
        st, listed', total := Paths();
      }
    }

    /** The second part of `maintain`: retention, then eviction. */
    method Prune(listed: seq<Rotated>, now: nat, required: nat) returns (st: Status)
      requires Valid() && listed == closed
      modifies this`closed, this`budget, this`clock
      ensures clock >= old(clock)
      ensures Valid() && Suffix(Surviving(View()), old(Surviving(View())))
      ensures st.Done? ==> Intact(View()) && Occupied(View(), lockSize) + required <= MAX_TOTAL
      ensures st.Done? ==> closed == Fitting(Retained(listed, now), lockSize + ActiveSize(View()) + required)
      ensures st == Unavailable(CapacityExhausted) ==> lockSize + ActiveSize(View()) + required > MAX_TOTAL
      ensures st != Unavailable(SyncFailed)
      ensures benign && old(Slack()) >= 0 && old(Intact(View())) ==>
                (st.Done? || st == Unavailable(CapacityExhausted)) && Slack() == old(Slack())
    {
      hide Fitting, Retained, LogOk, Suffix, Total, Lines;
      st := Expire(listed, now);
      if !st.Done? { return; }
      ghost var s := Surviving(View());
      var kept, total;
      st, kept, total := Paths();
      if !st.Done? { return; }
      st := Evict(kept, total, required);
      SuffixTrans(Surviving(View()), s, old(Surviving(View())));
    }

    /** Rotation if due, then retention, then eviction. `t` is the time the
        decisions were made at, `rotated` the files before anything was unlinked. */
    method Maintain(required: nat) returns (st: Status, ghost t: nat, ghost rotated: seq<Rotated>)
      requires Valid()
      modifies this
      ensures Valid() && history == old(history) && Suffix(Surviving(View()), old(Surviving(View())))
      ensures st.Done? ==> Intact(View()) && Occupied(View(), lockSize) + required <= MAX_TOTAL
      ensures st.Done? ==> old(clock) < t <= clock
      ensures st.Done? ==>
                if RotationDue(old(View()), t) then active.None? && RotatedOnce(old(View()), t, rotated)
                else active == old(active) && rotated == old(closed)
      ensures st.Done? ==>
                && Lines(rotated) + ActiveLines(View()) == old(Surviving(View()))
                && closed == Fitting(Retained(rotated, t), lockSize + ActiveSize(View()) + required)
      ensures st == Unavailable(CapacityExhausted) ==> lockSize + ActiveSize(View()) + required > MAX_TOTAL
      ensures st != Unavailable(SyncFailed)
      ensures old(!Intact(View())) ==> !st.Done? && active == old(active) && closed == old(closed)
      ensures benign && old(Slack()) >= 2 && old(Intact(View())) ==>
                (st.Done? || st == Unavailable(CapacityExhausted)) && Slack() >= old(Slack()) - 2
    {
      hide Fitting, Retained, LogOk, TailOk;
      var listed, total;
      t, rotated := 0, [];
      st, listed, total := Paths();
      if !st.Done? { return; }
      var now := Now();
      t := now;
      st, listed := RotateIfDue(now, listed);
      if !st.Done? { return; }
      rotated := closed;
      st := Prune(listed, now, required);
    }

    /** Writes the record after the active records; a short transfer leaves a torn
        tail. When the process is killed after the write, or the sync that follows
        fails, the record is there all the same, and in the history. */
    method WriteRecord(raw: Bytes) returns (st: Status)
      requires Valid() && Intact(View()) && active.Some?
      requires IsRecord(raw, parses)
      requires ActiveSize(View()) + |raw| <= MAX_FILE && Occupied(View(), lockSize) + |raw| <= MAX_TOTAL
      modifies this
      ensures Valid()
      ensures history in {old(history), old(history) + [raw]}
      ensures Surviving(View()) == old(Surviving(View())) + history[|old(history)|..]
      ensures st.Done? || st == Unavailable(SyncFailed) ==> history == old(history) + [raw]
      ensures st == Unavailable(ShortWrite) ==> history == old(history)
      ensures st.Unavailable? ==> st.reason in {ShortWrite, SyncFailed}
      ensures benign && old(budget) > 1 ==> st.Done?
    {
      var n := Transferred(|raw|);
      if budget == 0 || n < |raw| {
        var k := if n < |raw| then n else 0;
        TornKeeps(View(), lockSize, parses, raw, k);
        active := Some(active.value.(torn := raw[..k]));
        return if budget == 0 then Killed else Unavailable(ShortWrite);
      }
      budget := budget - 1;
      ghost var l := View();
      var now := Now();
      WrittenKeeps(l, lockSize, parses, raw, now);
      active := Some(Active(active.value.lines + [raw], [], now));
      history := history + [raw];
      if budget == 0 { return Killed; }
      budget := budget - 1;
      var synced := Synced();
      st := if synced then Done else Unavailable(SyncFailed);
    }

    /** Opens the active file, creating it when there is none. */
    method OpenActive() returns (st: Status)
      requires Valid() && Intact(View())
      modifies this
      ensures Valid() && Intact(View()) && history == old(history) && Surviving(View()) == old(Surviving(View()))
      ensures st.Done? ==> active.Some?
      ensures ActiveSize(View()) == old(ActiveSize(View())) && closed == old(closed)
      ensures st.Unavailable? ==> st.reason == UnsafeEntry
      ensures benign && old(budget) > 0 ==> st.Done? && budget >= old(budget) - 1
    {
      if active.None? {
        if budget == 0 { return Killed; }
        budget := budget - 1;
        CreatedKeeps(View(), lockSize, parses);
        active := Some(Active([], [], clock));
      }
      var safe := EntriesSafe();
      st := if safe then Done else Unavailable(UnsafeEntry);
    }

    lemma ActiveIsBounded()
      requires Valid()
      ensures ActiveSize(View()) <= MAX_FILE
    {
    }

    /** The part of `append` before the write: room is made for the record. */
    method MakeRoom(raw: Bytes) returns (st: Status)
      requires Valid() && |raw| <= MAX_RECORD
      modifies this
      ensures Valid() && history == old(history) && Suffix(Surviving(View()), old(Surviving(View())))
      ensures st.Done? ==>
                && Intact(View()) && Occupied(View(), lockSize) + |raw| <= MAX_TOTAL
                && ActiveSize(View()) + |raw| <= MAX_FILE
      ensures st.Done? && active != old(active) ==>
                && active.None? && old(active.Some?)
                && (old(ActiveSize(View())) + |raw| > MAX_FILE || exists t: nat :: t <= clock && RotationDue(old(View()), t))
      ensures st == Unavailable(CapacityExhausted) ==> lockSize + MAX_FILE + |raw| > MAX_TOTAL
      ensures st != Unavailable(SyncFailed)
      ensures old(!Intact(View())) ==> !st.Done? && active == old(active) && closed == old(closed)
      ensures benign && old(Slack()) >= 6 && old(Intact(View())) ==>
                (st.Done? || st == Unavailable(CapacityExhausted)) && Slack() >= old(Slack()) - 6
    {
      hide Fitting, Retained, LogOk, TailOk, Suffix, Lines, Total;
      ghost var t, r;
      st, t, r := Maintain(|raw|);
      ActiveIsBounded();
      if !st.Done? { return; }
      ghost var s := Surviving(View());
      var listed, total;
      st, listed, total := Paths();
      if !st.Done? { return; }
      if active.Some? && Size(active.value.lines) + |raw| > MAX_FILE {
        st := Rotate(None);
        if !st.Done? { return; }
        st, t, r := Maintain(|raw|);
        ActiveIsBounded();
        SuffixTrans(Surviving(View()), s, old(Surviving(View())));
      }
    }

    /** What an append of raw that ended with st added to the history h. */
    ghost predicate Recorded(h: seq<Bytes>, raw: Bytes, st: Status)
      reads this
    {
      && history in {h, h + [raw]}
      && (st.Done? || st == Unavailable(SyncFailed) ==> history == h + [raw])
      && (st.Unavailable? && st.reason != SyncFailed ==> history == h)
    }

    lemma NothingAdded(s: seq<Bytes>)
      ensures s + [] == s && Suffix(s, s)
    {
      SuffixRefl(s);
    }

    /** One append. Whatever fails and wherever the process is killed, the
        surviving records are a suffix of the append history, which counts every
        record that was written whole: all that were confirmed, those whose sync
        failed, and those after which the process was killed. */
    method Append(raw: Bytes) returns (st: Status)
      requires Valid()
      requires |raw| <= MAX_RECORD ==> IsRecord(raw, parses)
      modifies this
      ensures Valid()
      ensures Recorded(old(history), raw, st)
      ensures history != old(history) ==> Surviving(View()) != [] && Surviving(View())[|Surviving(View())| - 1] == raw
      ensures Suffix(Surviving(View()), old(Surviving(View())) + history[|old(history)|..])
      ensures st == Unavailable(CapacityExhausted) ==> lockSize + MAX_FILE + |raw| > MAX_TOTAL && |raw| <= MAX_RECORD
      ensures lockSize == 0 ==> st != Unavailable(CapacityExhausted)
      ensures old(!Intact(View())) ==> !st.Done? && active == old(active) && closed == old(closed)
      ensures benign && old(Slack()) >= 9 && |raw| <= MAX_RECORD ==>
                (st.Done? <==> old(Intact(View())) && st != Unavailable(CapacityExhausted))
    {
      assert history[|history|..] == [];
      if |raw| > MAX_RECORD {
        NothingAdded(Surviving(View()));
        return Unavailable(RecordTooLong);
      }
      st := MakeRoom(raw);
      NothingAdded(old(Surviving(View())));
      if !st.Done? { return; }
      ghost var s := Surviving(View());
      st := OpenActive();
      if !st.Done? { return; }
      st := WriteRecord(raw);
      SuffixAppend(s, old(Surviving(View())), history[|old(history)|..]);
    }

    /** One logger process: open, then append, with so many changes to live. */
    method Session(raw: Bytes, life: nat) returns (st: Status)
      requires Valid()
      requires |raw| <= MAX_RECORD ==> IsRecord(raw, parses)
      modifies this
      ensures Valid()
      ensures Recorded(old(history), raw, st)
      ensures history != old(history) ==> Surviving(View()) != [] && Surviving(View())[|Surviving(View())| - 1] == raw
      ensures lockSize == 0 ==> st != Unavailable(CapacityExhausted)
      ensures old(!Intact(View())) ==> !st.Done? && active == old(active) && closed == old(closed)
    {
      budget := life;
      ghost var t, r;
      st, t, r := Maintain(0);
      if !st.Done? { return; }
      st := Append(raw);
    }

    /** Any number of processes, each killed after any number of changes: what
        survives is always a suffix of what was appended, within the bounds. */
    method Sessions(raws: seq<Bytes>, lives: seq<nat>)
      requires Valid() && |lives| == |raws|
      requires forall k :: 0 <= k < |raws| && |raws[k]| <= MAX_RECORD ==> IsRecord(raws[k], parses)
      modifies this
      ensures Valid()
      ensures Suffix(Surviving(View()), history) && old(history) <= history
      ensures Occupied(View(), lockSize) <= 100 * 1024 * 1024 && ActiveSize(View()) <= 10 * 1024 * 1024
      ensures forall k :: 0 <= k < |closed| ==> Size(closed[k].lines) <= 10 * 1024 * 1024
    {
      for k := 0 to |raws|
        invariant Valid() && old(history) <= history
      {
        var st := Session(raws[k], lives[k]);
      }
      assert forall k :: 0 <= k < |closed| ==> FileOk(closed[k], View(), parses);
    }
  }
}
