/**
 * The firewall between the child of a Web transaction and the root operations:
 * which frames are admitted, and for which slot, instance and durable stage.
 */
module Binding {
  import opened Wrappers
  import opened Journal
  import opened Names

  /** The tuple that names one journal. */
  datatype Slot = Slot(repository: string, runner: string, dir: string)

  type World = map<Slot, Disk>

  function JournalOf(w: World, s: Slot): Disk {
    if s in w then w[s] else EMPTY
  }

  /** What the Web request fixed before the child was started. */
  datatype Transaction =
    | Creating(repository: string)
    | Removing(repository: string, runner: string, runnerId: int, instance: Instance)
    | Status

  datatype Site = Site(home: string, sha: Sha)

  /* ------------------------------ Admitted operations -------------------------- */

  datatype Value = Text(text: string) | NotText

  /** A decoded frame. */
  datatype Payload = NotAnObject | Object(fields: map<string, Value>)

  datatype Kind =
    | CreateState(stage: CStage)
    | AttestRegistration(version: string)
    | Normalize
    | RemoveState(rcall: RCall)
    | Install(version: string)
    | Start(service: string)
    | Stop(service: string)
    | State(service: string)
    | Uninstall(service: string)

  datatype Admitted = Admitted(kind: Kind, slot: Slot)

  const COMMON := {"op", "repository", "runner_dir", "runner_name"}

  function StageOf(text: string): Option<CStage> {
    if text == "PRE_REGISTRATION" then Some(PreRegistration)
    else if text == "REGISTRATION_OUTCOME_UNKNOWN" then Some(OutcomeUnknown)
    else if text == "REGISTERED_PERMISSION_INCOMPLETE" then Some(PermissionIncomplete)
    else if text == "REGISTERED_UNIT_INCOMPLETE" then Some(UnitIncomplete)
    else if text == "REGISTERED_START_INCOMPLETE" then Some(StartIncomplete)
    else if text == "REGISTERED_HEALTH_UNKNOWN" then Some(HealthUnknown)
    else if text == "CREATE_COMPLETE" then Some(CreateComplete)
    else None
  }

  function RemoveCallOf(text: string): Option<RCall> {
    if text == "BEGIN" then Some(Begin)
    else if text == "CONFIRM_REMOTE_REMOVED" then Some(ConfirmRemoteRemoved)
    else if text == "COMPLETE" then Some(Complete)
    else None
  }

  predicate Contains(s: string, sub: string) {
    sub <= s || (s != "" && Contains(s[1..], sub))
  }

  predicate EndsWith(s: string, tail: string) {
    |tail| <= |s| && s[|s| - |tail|..] == tail
  }

  predicate PathForm(p: string) {
    && "/" <= p && |p| <= 512
    && !Contains(p, "//") && !Contains(p, "/../") && !Contains(p, "/./")
    && !EndsWith(p, "/..") && !EndsWith(p, "/.")
    && '\0' !in p
  }

  predicate RunnerForm(r: string) {
    RepoWord(r) && |r| <= 100
  }

  predicate Digits(s: string) {
    s != "" && forall k :: 0 <= k < |s| ==> '0' <= s[k] <= '9'
  }

  predicate VersionForm(v: string) {
    var i := Find(v, '.');
    i < |v| &&
    var rest := v[i + 1..];
    var j := Find(rest, '.');
    j < |rest| && Digits(v[..i]) && Digits(rest[..j]) && Digits(rest[j + 1..])
  }

  predicate ServiceForm(s: string) {
    && |SERVICE_HEAD| + 1 + |SERVICE_TAIL| <= |s| <= |SERVICE_HEAD| + 180 + |SERVICE_TAIL|
    && SERVICE_HEAD <= s && EndsWith(s, SERVICE_TAIL)
    && forall k :: |SERVICE_HEAD| <= k < |s| - |SERVICE_TAIL| ==> RepoChar(s[k]) || s[k] == '@'
  }

  predicate Dots(s: string) { s == "." || s == ".." }

  function FieldText(m: map<string, Value>, name: string): Option<string> {
    if name in m && m[name].Text? then Some(m[name].text) else None
  }

  /** The operation, its extra field and whether that field is in order. */
  function KindOf(m: map<string, Value>): Option<Kind> {
    var op := FieldText(m, "op");
    var stage := FieldText(m, "stage");
    var version := FieldText(m, "version");
    var service := FieldText(m, "service");
    if op.None? then None
    else if m.Keys == COMMON then
      if op.value == "registration_permission_normalize" then Some(Normalize) else None
    else if m.Keys == COMMON + {"stage"} && stage.Some? then
      if op.value == "create_state" && StageOf(stage.value).Some? then Some(CreateState(StageOf(stage.value).value))
      else if op.value == "remove_state" && RemoveCallOf(stage.value).Some? then Some(RemoveState(RemoveCallOf(stage.value).value))
      else None
    else if m.Keys == COMMON + {"version"} && version.Some? && VersionForm(version.value) then
      if op.value == "registration_attestation_create" then Some(AttestRegistration(version.value))
      else if op.value == "service_install" then Some(Install(version.value))
      else None
    else if m.Keys == COMMON + {"service"} && service.Some? && ServiceForm(service.value) then
      if op.value == "service_start" then Some(Start(service.value))
      else if op.value == "service_stop" then Some(Stop(service.value))
      else if op.value == "service_state" then Some(State(service.value))
      else if op.value == "service_uninstall" then Some(Uninstall(service.value))
      else None
    else None
  }

  /** `admitted_operation` */
  function Admit(p: Payload): Option<Admitted> {
    if p.NotAnObject? then None
    else
      var kind := KindOf(p.fields);
      var repository := FieldText(p.fields, "repository");
      var dir := FieldText(p.fields, "runner_dir");
      var runner := FieldText(p.fields, "runner_name");
      if kind.None? || repository.None? || dir.None? || runner.None? then None
      else if !ValidRepository(repository.value) || Dots(Owner(repository.value)) || Dots(Project(repository.value)) then None
      else if !PathForm(dir.value) || !RunnerForm(runner.value) then None
      else Some(Admitted(kind.value, Slot(repository.value, runner.value, dir.value)))
  }

  /** A slot whose parts can be named in a frame at all. */
  predicate Nameable(slot: Slot) {
    && ValidRepository(slot.repository) && !Dots(Owner(slot.repository)) && !Dots(Project(slot.repository))
    && PathForm(slot.dir) && RunnerForm(slot.runner)
  }

  /* -------------------------------- Authorisation ------------------------------ */

  function Join(base: string, name: string): string {
    if EndsWith(base, "/") then base + name else base + "/" + name
  }

  /** The slot a transaction is about; a repository without a local id has none. */
  function OwnSlot(site: Site, tx: Transaction): Option<Slot>
    requires Hex(site.sha)
  {
    if tx.Status? then None
    else
      var id := LocalId(site.sha, Owner(tx.repository), Project(tx.repository));
      if id.None? then None
      else
        var dir := Join(site.home, PREFIX + id.value);
        Some(Slot(tx.repository, if tx.Creating? then "local-ci-" + id.value else tx.runner, dir))
  }

  function ServiceIn(k: Kind): Option<string> {
    match k
    case Start(s) => Some(s)
    case Stop(s) => Some(s)
    case State(s) => Some(s)
    case Uninstall(s) => Some(s)
    case _ => None
  }

  predicate CreateOp(k: Kind) {
    k.CreateState? || k.AttestRegistration? || k.Normalize? || k.Install? || k.Start? || k.State?
  }

  predicate RemoveOp(k: Kind) {
    k.RemoveState? || k.Stop? || k.State? || k.Uninstall?
  }

  /** The durable Create stage an operation belongs to, when it has one. */
  function StageFor(k: Kind): Option<CStage> {
    match k
    case Normalize => Some(PermissionIncomplete)
    case AttestRegistration(_) => Some(PermissionIncomplete)
    case Install(_) => Some(UnitIncomplete)
    case Start(_) => Some(StartIncomplete)
    case State(_) => Some(HealthUnknown)
    case _ => None
  }

  /** The Create half of the stage check, on the journal of the slot. */
  predicate CreateDue(d: Disk, k: Kind) {
    k == CreateState(PreRegistration) ||
    match Current(d)
    case Found(a) =>
      var record := Read(d.creates, a);
      && !record.Unreadable?
      && (StageFor(k).Some? ==> record.Found? && Some(record.rec.stage) == StageFor(k))
    case _ => false
  }

  /** The Remove half: the active instance, and the stage its ledger must show. */
  predicate RemoveDue(d: Disk, k: Kind, instance: Instance) {
    && Current(d) == Found(instance)
    && var ledger := Read(d.removes, instance);
    && !ledger.Unreadable?
    && match k
       case RemoveState(Begin) => ledger.Missing?
       case RemoveState(Complete) => ledger.Found? && ledger.rec.stage == CleanupPending
       case _ => ledger.Found? && ledger.rec.stage == RemoteOutcomeUnknown
  }

  /** `authorize_private_request`; `linked` says the directory is a symbolic link. */
  function Authorize(site: Site, tx: Transaction, w: World, p: Payload, linked: bool): Option<Admitted>
    requires Hex(site.sha)
  {
    var a := Admit(p);
    if a.None? || tx.Status? then None
    else
      var kind, slot := a.value.kind, a.value.slot;
      var own := OwnSlot(site, tx);
      if !(if tx.Creating? then CreateOp(kind) else RemoveOp(kind)) then None
      else if slot.repository != tx.repository || own.None? then None
      else if slot.dir != own.value.dir || linked then None
      else if slot.runner != own.value.runner then None
      else if ServiceIn(kind).Some? && ServiceIn(kind) != CanonicalService(tx.repository, own.value.runner) then None
      else
        var d := JournalOf(w, slot);
        if (if tx.Creating? then CreateDue(d, kind) else RemoveDue(d, kind, tx.instance)) then a else None
  }

  /** Nothing passes that names anything but the transaction's own slot, its own
      service, its own instance, or that is not due. */
  lemma AuthorizedIsOwn(site: Site, tx: Transaction, w: World, p: Payload, linked: bool)
    requires Hex(site.sha) && Authorize(site, tx, w, p, linked).Some?
    ensures var a := Authorize(site, tx, w, p, linked).value;
      && Admit(p) == Some(a) && OwnSlot(site, tx) == Some(a.slot) && !linked
      && (ServiceIn(a.kind).Some? ==> ServiceIn(a.kind) == CanonicalService(a.slot.repository, a.slot.runner))
      && (tx.Creating? ==> CreateOp(a.kind) && CreateDue(JournalOf(w, a.slot), a.kind))
      && (tx.Removing? ==> RemoveOp(a.kind) && RemoveDue(JournalOf(w, a.slot), a.kind, tx.instance))
      && !tx.Status?
  {
  }
}
