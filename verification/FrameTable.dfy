/**
 * The frames of the private channel spelled out: the text of every operation, that
 * exactly these texts are admitted, and which effect may come from which text.
 */
module FrameTable {
  import opened Wrappers
  import opened Journal
  import opened Names
  import opened SpelledNames
  import opened Binding
  import opened Executor

  /* ------------------------------- The texts sent ------------------------------ */

  function OpText(k: Kind): string {
    match k
    case CreateState(_) => "create_state"
    case AttestRegistration(_) => "registration_attestation_create"
    case Normalize => "registration_permission_normalize"
    case RemoveState(_) => "remove_state"
    case Install(_) => "service_install"
    case Start(_) => "service_start"
    case Stop(_) => "service_stop"
    case State(_) => "service_state"
    case Uninstall(_) => "service_uninstall"
  }

  function CreateText(stage: CStage): string {
    match stage
    case PreRegistration => "PRE_REGISTRATION"
    case OutcomeUnknown => "REGISTRATION_OUTCOME_UNKNOWN"
    case PermissionIncomplete => "REGISTERED_PERMISSION_INCOMPLETE"
    case UnitIncomplete => "REGISTERED_UNIT_INCOMPLETE"
    case StartIncomplete => "REGISTERED_START_INCOMPLETE"
    case HealthUnknown => "REGISTERED_HEALTH_UNKNOWN"
    case CreateComplete => "CREATE_COMPLETE"
    case LegacyVerified => "LEGACY_VERIFIED"
    case AbortedReconciled => "CREATE_ABORTED_RECONCILED"
  }

  function RemoveText(rcall: RCall): string {
    match rcall
    case Begin => "BEGIN"
    case ConfirmRemoteRemoved => "CONFIRM_REMOTE_REMOVED"
    case Complete => "COMPLETE"
  }

  /** The field an operation has beside the four common ones. */
  function Extra(k: Kind): map<string, Value> {
    match k
    case CreateState(stage) => map["stage" := Text(CreateText(stage))]
    case RemoveState(rcall) => map["stage" := Text(RemoveText(rcall))]
    case AttestRegistration(version) => map["version" := Text(version)]
    case Install(version) => map["version" := Text(version)]
    case Normalize => map[]
    case Start(service) => map["service" := Text(service)]
    case Stop(service) => map["service" := Text(service)]
    case State(service) => map["service" := Text(service)]
    case Uninstall(service) => map["service" := Text(service)]
  }

  /** The frame a script sends for an operation on a slot. */
  function FrameOf(k: Kind, slot: Slot): Payload {
    Object(map["op" := Text(OpText(k)), "repository" := Text(slot.repository), "runner_dir" := Text(slot.dir),
               "runner_name" := Text(slot.runner)] + Extra(k))
  }

  /** An operation whose own field is in order. No frame asks for the two stages that
      adoption and reconciliation record. */
  predicate Askable(k: Kind) {
    match k
    case CreateState(stage) => stage !in {LegacyVerified, AbortedReconciled}
    case AttestRegistration(version) => VersionForm(version)
    case Install(version) => VersionForm(version)
    case Start(service) => ServiceForm(service)
    case Stop(service) => ServiceForm(service)
    case State(service) => ServiceForm(service)
    case Uninstall(service) => ServiceForm(service)
    case _ => true
  }

  lemma StageTexts(stage: CStage)
    requires stage !in {LegacyVerified, AbortedReconciled}
    ensures StageOf(CreateText(stage)) == Some(stage)
  {
  }

  lemma CallTexts(rcall: RCall)
    ensures RemoveCallOf(RemoveText(rcall)) == Some(rcall)
  {
  }

  lemma TextStage(text: string)
    ensures StageOf(text).Some? ==> CreateText(StageOf(text).value) == text
    ensures StageOf(text).Some? ==> StageOf(text).value !in {LegacyVerified, AbortedReconciled}
  {
  }

  lemma TextCall(text: string)
    ensures RemoveCallOf(text).Some? ==> RemoveText(RemoveCallOf(text).value) == text
  {
  }

  /** The fields of the frame, one by one. */
  predicate Carries(m: map<string, Value>, k: Kind) {
    && FieldText(m, "op") == Some(OpText(k)) && m.Keys == COMMON + Extra(k).Keys
    && match k
       case CreateState(stage) => FieldText(m, "stage") == Some(CreateText(stage))
       case RemoveState(rcall) => FieldText(m, "stage") == Some(RemoveText(rcall))
       case AttestRegistration(version) => FieldText(m, "version") == Some(version)
       case Install(version) => FieldText(m, "version") == Some(version)
       case Normalize => true
       case Start(service) => FieldText(m, "service") == Some(service)
       case Stop(service) => FieldText(m, "service") == Some(service)
       case State(service) => FieldText(m, "service") == Some(service)
       case Uninstall(service) => FieldText(m, "service") == Some(service)
  }

  lemma StateIsCarried(m: map<string, Value>, k: Kind)
    requires KindOf(m) == Some(k) && (k.CreateState? || k.RemoveState? || k.Normalize?)
    ensures Carries(m, k) && Askable(k)
  {
    hide VersionForm, ServiceForm, StageOf, RemoveCallOf, CreateText, RemoveText;
    if !k.Normalize? {
      TextStage(FieldText(m, "stage").value);
      TextCall(FieldText(m, "stage").value);
    }
  }

  lemma VersionIsCarried(m: map<string, Value>, k: Kind)
    requires KindOf(m) == Some(k) && (k.AttestRegistration? || k.Install?)
    ensures Carries(m, k) && Askable(k)
  {
    hide VersionForm, ServiceForm, StageOf, RemoveCallOf;
  }

  lemma ServiceIsCarried(m: map<string, Value>, k: Kind)
    requires KindOf(m) == Some(k) && (k.Start? || k.Stop? || k.State? || k.Uninstall?)
    ensures Carries(m, k) && Askable(k)
  {
    hide VersionForm, ServiceForm, StageOf, RemoveCallOf;
  }

  lemma KindIsCarried(m: map<string, Value>, k: Kind)
    requires KindOf(m) == Some(k)
    ensures Carries(m, k) && Askable(k)
  {
    hide KindOf, Carries, Askable;
    match k
    case CreateState(_) => StateIsCarried(m, k);
    case RemoveState(_) => StateIsCarried(m, k);
    case Normalize => StateIsCarried(m, k);
    case AttestRegistration(_) => VersionIsCarried(m, k);
    case Install(_) => VersionIsCarried(m, k);
    case _ => ServiceIsCarried(m, k);
  }

  lemma CarriedIsKind(m: map<string, Value>, k: Kind)
    requires Carries(m, k) && Askable(k)
    ensures KindOf(m) == Some(k)
  {
    hide VersionForm, ServiceForm, StageOf, RemoveCallOf, CreateText, RemoveText;
    KeysDiffer();
    match k
    case CreateState(stage) => StageTexts(stage);
    case RemoveState(rcall) => CallTexts(rcall);
    case _ =>
  }

  lemma KeysDiffer()
    ensures COMMON + {"stage"} != COMMON && COMMON + {"version"} != COMMON && COMMON + {"service"} != COMMON
    ensures COMMON + {"stage"} != COMMON + {"version"} && COMMON + {"stage"} != COMMON + {"service"}
    ensures COMMON + {"version"} != COMMON + {"service"}
  {
    assert "stage" !in COMMON && "stage" !in COMMON + {"version"} && "stage" !in COMMON + {"service"};
    assert "version" !in COMMON && "version" !in COMMON + {"service"};
    assert "service" !in COMMON;
    assert "stage" in COMMON + {"stage"} && "version" in COMMON + {"version"} && "service" in COMMON + {"service"};
  }

  lemma FrameFields(k: Kind, slot: Slot)
    ensures FrameOf(k, slot).Object?
    ensures var m := FrameOf(k, slot).fields;
      && m.Keys == COMMON + Extra(k).Keys
      && m["op"] == Text(OpText(k)) && m["repository"] == Text(slot.repository)
      && m["runner_dir"] == Text(slot.dir) && m["runner_name"] == Text(slot.runner)
      && forall x :: x in Extra(k) ==> m[x] == Extra(k)[x]
  {
    hide CreateText, RemoveText, OpText;
  }

  lemma FrameIsCarried(m: map<string, Value>, k: Kind, slot: Slot)
    ensures Object(m) == FrameOf(k, slot) <==>
      && Carries(m, k)
      && FieldText(m, "repository") == Some(slot.repository)
      && FieldText(m, "runner_dir") == Some(slot.dir)
      && FieldText(m, "runner_name") == Some(slot.runner)
  {
    hide CreateText, RemoveText, OpText, FrameOf;
    FrameFields(k, slot);
    var f := FrameOf(k, slot).fields;
    if m.Keys == f.Keys && (forall x :: x in f ==> m[x] == f[x]) { assert m == f; }
  }

  /** A frame is admitted as operation k on a slot exactly when it is the text of that
      operation on that slot, with parts that can be named and a field in order. */
  lemma FramesAreExact(p: Payload, k: Kind, slot: Slot)
    ensures Admit(p) == Some(Admitted(k, slot)) <==> p == FrameOf(k, slot) && Nameable(slot) && Askable(k)
  {
    hide KindOf, Carries, FrameOf, ValidRepository, PathForm, RunnerForm, Dots, Askable;
    if p.Object? {
      if KindOf(p.fields) == Some(k) { KindIsCarried(p.fields, k); }
      FrameIsCarried(p.fields, k, slot);
      if Carries(p.fields, k) && Askable(k) { CarriedIsKind(p.fields, k); }
    } else {
      FrameFields(k, slot);
    }
  }

  /* ------------------------------ What is authorised ---------------------------- */

  /** The operation is one of the transaction's direction, for the durable stage it
      belongs to and, in a removal, for the instance the browser named. */
  predicate Due(tx: Transaction, d: Disk, k: Kind) {
    match tx
    case Creating(_) =>
      (match k
       case CreateState(PreRegistration) => true
       case CreateState(_) => Current(d).Found? && !Read(d.creates, Current(d).rec).Unreadable?
       case Normalize => StageIs(d, PermissionIncomplete)
       case AttestRegistration(_) => StageIs(d, PermissionIncomplete)
       case Install(_) => StageIs(d, UnitIncomplete)
       case Start(_) => StageIs(d, StartIncomplete)
       case State(_) => StageIs(d, HealthUnknown)
       case _ => false)
    case Removing(_, _, _, instance) =>
      && Current(d) == Found(instance)
      && (match k
          case RemoveState(Begin) => instance !in d.removes
          case RemoveState(ConfirmRemoteRemoved) => LedgerIs(d, instance, RemoteOutcomeUnknown)
          case RemoveState(Complete) => LedgerIs(d, instance, CleanupPending)
          case Stop(_) => LedgerIs(d, instance, RemoteOutcomeUnknown)
          case State(_) => LedgerIs(d, instance, RemoteOutcomeUnknown)
          case Uninstall(_) => LedgerIs(d, instance, RemoteOutcomeUnknown)
          case _ => false)
    case Status => false
  }

  predicate StageIs(d: Disk, stage: CStage) {
    && d.active.Some? && d.active.value.whole
    && d.active.value.rec in d.creates
    && d.creates[d.active.value.rec].whole && d.creates[d.active.value.rec].rec.stage == stage
  }

  predicate LedgerIs(d: Disk, i: Instance, stage: RStage) {
    i in d.removes && d.removes[i].whole && d.removes[i].rec.stage == stage
  }

  lemma DueMeans(tx: Transaction, d: Disk, k: Kind)
    ensures Due(tx, d, k) <==>
      || (tx.Creating? && CreateOp(k) && CreateDue(d, k))
      || (tx.Removing? && RemoveOp(k) && RemoveDue(d, k, tx.instance))
  {
  }

  /** A frame is authorised as operation k on a slot exactly when it is the text of that
      operation on the transaction's own slot, names its own service if any, is due, and
      the directory is no symbolic link. */
  lemma AuthorizedExactly(site: Site, tx: Transaction, w: World, p: Payload, linked: bool, k: Kind, slot: Slot)
    requires Hex(site.sha)
    ensures Authorize(site, tx, w, p, linked) == Some(Admitted(k, slot)) <==>
      && p == FrameOf(k, slot) && Nameable(slot) && Askable(k)
      && OwnSlot(site, tx) == Some(slot) && !linked
      && (k.Start? || k.Stop? || k.State? || k.Uninstall? ==> CanonicalService(slot.repository, slot.runner) == Some(k.service))
      && Due(tx, JournalOf(w, slot), k)
  {
    hide Admit, FrameOf, Nameable, Askable, CanonicalService, Due, CreateDue, RemoveDue, CreateOp, RemoveOp, LocalId, Join;
    FramesAreExact(p, k, slot);
    DueMeans(tx, JournalOf(w, slot), k);
  }

  /** The slot of a transaction, in the home directory of the runner's user. */
  lemma OwnSlotIs(site: Site, tx: Transaction, home: string, id: string)
    requires Hex(site.sha) && !tx.Status? && site.home == home && home != "" && home[|home| - 1] != '/'
    requires LocalId(site.sha, Owner(tx.repository), Project(tx.repository)) == Some(id)
    ensures OwnSlot(site, tx) ==
      Some(Slot(tx.repository, if tx.Creating? then "local-ci-" + id else tx.runner, home + ("/" + ("actions-runner-" + id))))
  {
    hide LocalId;
    assert !EndsWith(home, "/");
    assert home + "/" + (PREFIX + id) == home + ("/" + ("actions-runner-" + id));
  }

  /* --------------------------------- The parts --------------------------------- */

  predicate SubAt(s: string, sub: string, a: string, b: string) {
    s == a + sub + b
  }

  lemma {:induction false} ContainedAt(s: string, sub: string) returns (a: string, b: string)
    requires Contains(s, sub)
    ensures SubAt(s, sub, a, b)
    decreases |s|
  {
    if sub <= s {
      a, b := "", s[|sub|..];
    } else {
      var c;
      c, b := ContainedAt(s[1..], sub);
      a := [s[0]] + c;
      PrependSub(s, sub, c, b);
    }
  }

  lemma PrependSub(s: string, sub: string, c: string, b: string)
    requires s != "" && SubAt(s[1..], sub, c, b)
    ensures SubAt(s, sub, [s[0]] + c, b)
  {
    assert s == [s[0]] + s[1..];
    assert [s[0]] + (c + sub + b) == ([s[0]] + c) + sub + b;
  }

  lemma {:induction false} SubIsContained(s: string, sub: string, a: string, b: string)
    requires SubAt(s, sub, a, b)
    ensures Contains(s, sub)
    decreases |a|
  {
    if a == "" {
      assert s == sub + b;
    } else {
      assert s[1..] == a[1..] + sub + b;
      SubIsContained(s[1..], sub, a[1..], b);
    }
  }

  /** A part of a path: what follows the slash at i, up to the next one or the end. */
  predicate PartAt(p: string, i: int, j: int) {
    0 <= i < j <= |p| && p[i] == '/' && (j == |p| || p[j] == '/') && '/' !in p[i + 1..j]
  }

  /** An absolute path of bounded length without NUL, no part of which is "." or ".."
      and whose last part only may be empty. */
  ghost predicate PlainPath(p: string) {
    && p != "" && p[0] == '/' && |p| <= 512 && '\0' !in p
    && forall i, j :: PartAt(p, i, j) ==> p[i + 1..j] != "." && p[i + 1..j] != ".." && (p[i + 1..j] == "" ==> j == |p|)
  }

  lemma MidPart(p: string, part: string)
    requires '/' !in part
    ensures Contains(p, "/" + part + "/") <==> exists i, j :: PartAt(p, i, j) && j < |p| && p[i + 1..j] == part
  {
    hide Contains;
    var sub := "/" + part + "/";
    if Contains(p, sub) {
      var a, b := ContainedAt(p, sub);
      Between(a, part, b);
    }
    if i, j :| PartAt(p, i, j) && j < |p| && p[i + 1..j] == part {
      Around(p, i, j);
      SubIsContained(p, sub, p[..i], p[j + 1..]);
    }
  }

  lemma Between(a: string, part: string, b: string)
    requires '/' !in part
    ensures var p := a + ("/" + part + "/") + b;
      var j := |a| + 1 + |part|;
      PartAt(p, |a|, j) && j < |p| && p[|a| + 1..j] == part
  {
    var p := a + ("/" + part + "/") + b;
    var j := |a| + 1 + |part|;
    assert p[|a| + 1..j] == part;
    assert p[|a|] == '/' && p[j] == '/';
  }

  lemma Around(p: string, i: int, j: int)
    requires PartAt(p, i, j) && j < |p|
    ensures p == p[..i] + ("/" + p[i + 1..j] + "/") + p[j + 1..]
  {
  }

  lemma EndPart(p: string, part: string)
    requires '/' !in part
    ensures EndsWith(p, "/" + part) <==> exists i :: PartAt(p, i, |p|) && p[i + 1..|p|] == part
  {
    if EndsWith(p, "/" + part) {
      var i := |p| - |part| - 1;
      assert p[i..] == "/" + part;
      assert p[i] == '/' && p[i + 1..|p|] == part;
      assert PartAt(p, i, |p|);
    }
    if i :| PartAt(p, i, |p|) && p[i + 1..|p|] == part {
      assert p[i..] == "/" + part;
    }
  }

  lemma PartsInRange(p: string)
    ensures forall i, j :: PartAt(p, i, j) ==> 0 <= i < j <= |p|
  {
  }

  lemma PathIsPlain(p: string)
    ensures PathForm(p) <==> PlainPath(p)
  {
    hide Contains, EndsWith, PartAt;
    MidPart(p, "");
    MidPart(p, ".");
    MidPart(p, "..");
    EndPart(p, ".");
    EndPart(p, "..");
    assert "/" + "" + "/" == "//" && "/" + "." + "/" == "/./" && "/" + ".." + "/" == "/../";
    assert "/" + "." == "/." && "/" + ".." == "/..";
    PartsInRange(p);
  }

  /** What the parts of a slot have to look like to be named in a frame. */
  lemma NameableParts(slot: Slot)
    ensures Nameable(slot) <==>
      && |slot.repository| <= 200
      && (exists o, r :: SplitAs(slot.repository, o, r) && o != "." && o != ".." && r != "." && r != "..")
      && PlainPath(slot.dir)
      && SpelledWord(slot.runner) && |slot.runner| <= 100
  {
    hide PathForm, PlainPath, SpelledWord, RepoWord;
    PathIsPlain(slot.dir);
    WordIsSpelled(slot.runner);
    RepositoryIsSpelled(slot.repository);
    forall o, r | SplitAs(slot.repository, o, r) ensures Owner(slot.repository) == o && Project(slot.repository) == r {
      WordIsSpelled(o);
      WordIsSpelled(r);
      SplitPair(o, r);
    }
  }

  const NUMERALS := {'0', '1', '2', '3', '4', '5', '6', '7', '8', '9'}

  predicate Numeral(s: string) {
    s != "" && forall k :: 0 <= k < |s| ==> s[k] in NUMERALS
  }

  lemma NumeralIsDigits(s: string)
    ensures Digits(s) <==> Numeral(s)
  {
    assert forall c: char :: '0' <= c <= '9' <==> c in NUMERALS;
  }

  predicate VersionAs(v: string, a: string, b: string, c: string) {
    v == a + "." + b + "." + c && Numeral(a) && Numeral(b) && Numeral(c)
  }

  lemma JoinDots(a: string, b: string, c: string)
    ensures a + "." + (b + "." + c) == a + "." + b + "." + c
  {
  }

  lemma CutAt(s: string, k: nat)
    requires k < |s| && s[k] == '.'
    ensures s == s[..k] + "." + s[k + 1..]
  {
  }

  /** A version is three numerals with dots between them. */
  lemma VersionIsSpelled(v: string)
    ensures VersionForm(v) <==> exists a, b, c :: VersionAs(v, a, b, c)
  {
    hide Digits, Numeral;
    if VersionForm(v) {
      var i := Find(v, '.');
      var rest := v[i + 1..];
      var j := Find(rest, '.');
      NumeralIsDigits(v[..i]);
      NumeralIsDigits(rest[..j]);
      NumeralIsDigits(rest[j + 1..]);
      CutAt(v, i);
      CutAt(rest, j);
      JoinDots(v[..i], rest[..j], rest[j + 1..]);
      assert VersionAs(v, v[..i], rest[..j], rest[j + 1..]);
    }
    if a, b, c :| VersionAs(v, a, b, c) { SpelledVersion(v, a, b, c); }
  }

  lemma SpelledVersion(v: string, a: string, b: string, c: string)
    requires VersionAs(v, a, b, c)
    ensures VersionForm(v)
  {
    NumeralIsDigits(a);
    NumeralIsDigits(b);
    NumeralIsDigits(c);
    var rest := b + "." + c;
    assert v == a + "." + rest;
    FindAfter(a, '.', rest);
    assert v[..|a|] == a && v[|a| + 1..] == rest;
    FindAfter(b, '.', c);
    assert rest[..|b|] == b && rest[|b| + 1..] == c;
  }

  lemma FindAfter(a: string, c: char, rest: string)
    requires c !in a
    ensures Find(a + [c] + rest, c) == |a|
  {
    var s := a + [c] + rest;
    assert s[|a|] == c && forall j :: 0 <= j < |a| ==> s[j] == a[j];
  }

  predicate ServiceChars(mid: string) {
    forall k :: 0 <= k < |mid| ==> Named(mid[k]) || mid[k] == '@'
  }

  lemma ServiceMiddle(head: string, mid: string, tail: string)
    ensures ServiceChars(mid) <==>
      forall k :: |head| <= k < |head| + |mid| ==> RepoChar((head + mid + tail)[k]) || (head + mid + tail)[k] == '@'
  {
    hide RepoChar, Named;
    var s := head + mid + tail;
    forall k | 0 <= k < |mid| ensures RepoChar(mid[k]) <==> Named(mid[k]) { NamedIsSpelled(mid[k]); }
    assert forall k :: 0 <= k < |mid| ==> mid[k] == s[|head| + k];
    assert forall k :: |head| <= k < |head| + |mid| ==> s[k] == mid[k - |head|];
  }

  lemma CutService(s: string, head: string, tail: string)
    requires |head| + |tail| <= |s| && head <= s && EndsWith(s, tail)
    ensures s == head + s[|head|..|s| - |tail|] + tail
  {
  }

  lemma WrapService(head: string, mid: string, tail: string)
    ensures var s := head + mid + tail; head <= s && EndsWith(s, tail)
  {
    assert head + mid + tail == head + (mid + tail);
    assert (head + mid + tail)[|head + mid|..] == tail;
  }

  predicate ServiceAs(s: string, mid: string) {
    s == "actions.runner." + mid + ".service" && 1 <= |mid| <= 180 && ServiceChars(mid)
  }

  /** A service that a frame may name. */
  lemma ServiceIsSpelled(s: string)
    ensures ServiceForm(s) <==> exists mid :: ServiceAs(s, mid)
  {
    hide RepoChar, ServiceChars, EndsWith;
    if ServiceForm(s) {
      var mid := s[15..|s| - 8];
      CutService(s, SERVICE_HEAD, SERVICE_TAIL);
      ServiceMiddle(SERVICE_HEAD, mid, SERVICE_TAIL);
      assert ServiceAs(s, mid);
    }
    if mid :| ServiceAs(s, mid) {
      WrapService(SERVICE_HEAD, mid, SERVICE_TAIL);
      ServiceMiddle(SERVICE_HEAD, mid, SERVICE_TAIL);
    }
  }
}
