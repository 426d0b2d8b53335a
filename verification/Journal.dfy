/**
 * The durable lifecycle journal of one slot, that is of one
 * (repository, runner, directory) triple.
 *
 * Every root operation is a plan: a list of directory-entry changes computed
 * from the records it reads and from what it observes of the runner directory.
 * A process that is killed leaves a prefix of its plan on disk.
 */
module Journal {
  import opened Wrappers

  type Instance = nat

  datatype Identity = Identity(device: int, inode: int)

  datatype CStage =
    | PreRegistration
    | PermissionIncomplete
    | UnitIncomplete
    | StartIncomplete
    | HealthUnknown
    | CreateComplete
    | OutcomeUnknown      // REGISTRATION_OUTCOME_UNKNOWN
    | LegacyVerified
    | AbortedReconciled

  datatype RStage = RemoteOutcomeUnknown | CleanupPending | RemoveComplete

  datatype Origin = Ordinary | Reconciliation

  datatype CreateRec = CreateRec(instance: Instance, dir: Identity, stage: CStage)
  datatype AttRec = AttRec(instance: Instance, dir: Identity, githubId: int, secure: bool)
  datatype RemoveRec = RemoveRec(instance: Instance, dir: Identity, githubId: Option<int>,
                                 stage: RStage, origin: Origin)
  datatype UnitRec = UnitRec(instance: Instance)

  /** A record under its final name. `whole` means nlink == 1; a record whose
      temporary name was never unlinked is refused by every reader. */
  datatype Held<+T> = Held(rec: T, whole: bool)

  datatype Disk = Disk(
    active: Option<Held<Instance>>,
    creates: map<Instance, Held<CreateRec>>,
    atts: map<Instance, Held<AttRec>>,
    removes: map<Instance, Held<RemoveRec>>,
    units: map<Instance, Held<UnitRec>>)

  const EMPTY := Disk(None, map[], map[], map[], map[])

  datatype Reading<+T> = Missing | Found(rec: T) | Unreadable

  function Read<T>(store: map<Instance, Held<T>>, i: Instance): Reading<T> {
    if i !in store then Missing
    else if store[i].whole then Found(store[i].rec)
    else Unreadable
  }

  function Current(d: Disk): Reading<Instance> {
    match d.active
    case None => Missing
    case Some(h) => if h.whole then Found(h.rec) else Unreadable
  }

  /** The stages of `STAGES`, in order. */
  predicate InStages(s: CStage) {
    s in {PreRegistration, PermissionIncomplete, UnitIncomplete, StartIncomplete, HealthUnknown, CreateComplete}
  }

  function Index(s: CStage): nat
    requires InStages(s)
  {
    match s
    case PreRegistration => 0
    case PermissionIncomplete => 1
    case UnitIncomplete => 2
    case StartIncomplete => 3
    case HealthUnknown => 4
    case CreateComplete => 5
  }

  /* ------------------------------ Observations ------------------------------ */

  /** What one look at the runner directory showed. `Refused` stands for every
      failed open and every ownership or mode check that did not pass. */
  datatype Look = Refused | Seen(dir: Identity)

  /** The parsed `.runner` file. A boolean or non-integer id reads as 0. */
  datatype Metadata = BadMetadata | Metadata(matches: bool, agentId: Option<int>)

  /** Everything an operation observes outside the journal. The fields are
      independent of each other and of earlier observations: nothing is assumed
      about who else changes the directory meanwhile. */
  datatype Obs = Obs(
    held: Look,           // fstat of the directory that was opened
    path: Look,           // a second look through the path
    present: bool,        // lexists(runner_dir)
    meta: Metadata,
    filesMatch: bool,     // digests of .runner and .credentials equal the attested ones
    legacyFiles: bool,    // strict 0600 legacy records naming the canonical service
    serviceFile: bool,    // .service present
    unitFile: bool)       // Unit file present

  datatype RCall = Begin | ConfirmRemoteRemoved | Complete

  datatype Call =
    | CreateStage(stage: CStage, look: Look, newId: Instance)
    | CreateAttestation(obs: Obs)
    | CreateUnitAttestation(look: Look)
    | RemoveStage(rcall: RCall, adopt: Obs, obs: Obs, newId: Instance)
    | Reconcile(rcall: RCall, obs: Obs)

  /* --------------------------------- Writes --------------------------------- */

  /** One directory-entry change. `Link*` publishes exclusively and leaves the
      record with two names, `Settle*` unlinks the temporary name, `Replace*`
      is an atomic rename over the record. */
  datatype Write =
    | LinkCreate(c: CreateRec)
    | SettleCreate(i: Instance)
    | ReplaceCreate(c: CreateRec)
    | LinkActive(i: Instance)
    | SettleActive
    | ReplaceActive(i: Instance)
    | LinkAtt(a: AttRec)
    | SettleAtt(i: Instance)
    | LinkRemove(r: RemoveRec)
    | SettleRemove(i: Instance)
    | ReplaceRemove(r: RemoveRec)
    | LinkUnit(u: UnitRec)
    | SettleUnit(i: Instance)

  function Settle<T>(store: map<Instance, Held<T>>, i: Instance): map<Instance, Held<T>> {
    if i in store then store[i := Held(store[i].rec, true)] else store
  }

  function Apply(d: Disk, w: Write): Disk {
    match w
    case LinkCreate(c) => d.(creates := d.creates[c.instance := Held(c, false)])
    case SettleCreate(i) => d.(creates := Settle(d.creates, i))
    case ReplaceCreate(c) => d.(creates := d.creates[c.instance := Held(c, true)])
    case LinkActive(i) => d.(active := Some(Held(i, false)))
    case SettleActive => (match d.active
                          case None => d
                          case Some(h) => d.(active := Some(Held(h.rec, true))))
    case ReplaceActive(i) => d.(active := Some(Held(i, true)))
    case LinkAtt(a) => d.(atts := d.atts[a.instance := Held(a, false)])
    case SettleAtt(i) => d.(atts := Settle(d.atts, i))
    case LinkRemove(r) => d.(removes := d.removes[r.instance := Held(r, false)])
    case SettleRemove(i) => d.(removes := Settle(d.removes, i))
    case ReplaceRemove(r) => d.(removes := d.removes[r.instance := Held(r, true)])
    case LinkUnit(u) => d.(units := d.units[u.instance := Held(u, false)])
    case SettleUnit(i) => d.(units := Settle(d.units, i))
  }

  function ApplyAll(d: Disk, ws: seq<Write>): Disk
    decreases |ws|
  {
    if ws == [] then d else ApplyAll(Apply(d, ws[0]), ws[1..])
  }

  /* ---------------------------------- Plans ---------------------------------- */

  /** The changes an operation makes when nobody kills it, and whether it then
      returns normally. A refusal may come after some changes were made. */
  datatype Plan = Plan(writes: seq<Write>, ok: bool)

  const REFUSED := Plan([], false)

  function PointActive(d: Disk, i: Instance): seq<Write> {
    if d.active.None? then [LinkActive(i), SettleActive] else [ReplaceActive(i)]
  }

  function NewCycle(d: Disk, i: Instance, dir: Identity, stage: CStage): Plan {
    if i in d.creates then REFUSED   // link: File exists
    else Plan([LinkCreate(CreateRec(i, dir, stage)), SettleCreate(i)] + PointActive(d, i), true)
  }

  predicate Closable(s: CStage) {
    s in {CreateComplete, LegacyVerified, AbortedReconciled}
  }

  function PreRegistrationPlan(d: Disk, look: Look, newId: Instance): Plan {
    match Current(d)
    case Unreadable => REFUSED
    case Missing => if look.Seen? then NewCycle(d, newId, look.dir, PreRegistration) else REFUSED
    case Found(a) =>
      var previous := Read(d.creates, a);
      var removed := Read(d.removes, a);
      if previous.Found? && Closable(previous.rec.stage)
         && removed.Found? && removed.rec.stage == RemoveComplete
         && look.Seen? && look.dir != removed.rec.dir
      then NewCycle(d, newId, look.dir, PreRegistration)
      else REFUSED
  }

  function AdvancePlan(d: Disk, stage: CStage): Plan
    requires stage == OutcomeUnknown || InStages(stage)
  {
    match Current(d)
    case Unreadable => REFUSED
    case Missing => REFUSED
    case Found(a) =>
      match Read(d.creates, a)
      case Unreadable => REFUSED
      case Missing => REFUSED
      case Found(prior) =>
        if prior.instance != a then REFUSED
        else if prior.stage == stage then Plan([], true)
        else if !InStages(prior.stage) || prior.stage == CreateComplete then REFUSED
        else if stage != OutcomeUnknown && Index(stage) != Index(prior.stage) + 1 then REFUSED
        else if stage == UnitIncomplete && !HasProof(d, a, prior.dir) then REFUSED
        else Plan([ReplaceCreate(prior.(stage := stage))], true)
  }

  predicate HasProof(d: Disk, i: Instance, dir: Identity) {
    var proof := Read(d.atts, i);
    proof.Found? && proof.rec.instance == i && proof.rec.dir == dir && proof.rec.secure
  }

  function CreateStagePlan(d: Disk, stage: CStage, look: Look, newId: Instance): Plan {
    if stage == PreRegistration then PreRegistrationPlan(d, look, newId)
    else if stage == OutcomeUnknown || InStages(stage) then AdvancePlan(d, stage)
    else REFUSED
  }

  function AttestationPlan(d: Disk, o: Obs): Plan {
    match Current(d)
    case Unreadable => REFUSED
    case Missing => REFUSED
    case Found(a) =>
      var state := Read(d.creates, a);
      if state.Found? && state.rec.stage == PermissionIncomplete && state.rec.instance == a
         && o.held == Seen(state.rec.dir) && o.path == o.held
         && o.meta.Metadata? && o.meta.matches && o.meta.agentId.Some? && o.meta.agentId.value > 0
         && Read(d.atts, a).Missing?
      then Plan([LinkAtt(AttRec(a, state.rec.dir, o.meta.agentId.value, true)), SettleAtt(a)], true)
      else REFUSED
  }

  function UnitAttestationPlan(d: Disk, look: Look): Plan {
    match Current(d)
    case Unreadable => REFUSED
    case Missing => REFUSED
    case Found(a) =>
      var create := Read(d.creates, a);
      if create.Found? && create.rec.stage in {UnitIncomplete, StartIncomplete}
         && look == Seen(create.rec.dir) && Read(d.units, a).Missing?
      then Plan([LinkUnit(UnitRec(a)), SettleUnit(a)], true)
      else REFUSED
  }

  function RemoveBeginPlan(d: Disk, o: Obs): Plan {
    match Current(d)
    case Unreadable => REFUSED
    case Missing => REFUSED
    case Found(a) =>
      var created := Read(d.creates, a);
      if created.Found? && created.rec.stage in {CreateComplete, LegacyVerified}
         && Read(d.removes, a).Missing?
         && o.held.Seen? && o.path == o.held
         && o.meta.Metadata? && o.meta.matches
         && (o.meta.agentId.Some? ==> o.meta.agentId.value > 0)
         && (created.rec.stage == CreateComplete ==>
               var att := Read(d.atts, a);
               att.Found? && att.rec.instance == a && Some(att.rec.githubId) == o.meta.agentId)
         && created.rec.dir == o.held.dir
      then
        var r := RemoveRec(a, o.held.dir, o.meta.agentId, RemoteOutcomeUnknown, Ordinary);
        Plan([LinkRemove(r), SettleRemove(a)], true)
      else REFUSED
  }

  function AdoptPlan(d: Disk, o: Obs, newId: Instance): Plan {
    if d.active.None? && o.held.Seen? && o.path == o.held && o.legacyFiles
       && o.meta.Metadata? && o.meta.matches
    then NewCycle(d, newId, o.held.dir, LegacyVerified)
    else REFUSED
  }

  function RemoveStagePlan(d: Disk, rcall: RCall, adopt: Obs, o: Obs, newId: Instance): Plan {
    if rcall == Begin then
      if Current(d).Missing? then
        var p := AdoptPlan(d, adopt, newId);
        if !p.ok then p
        else
          var q := RemoveBeginPlan(ApplyAll(d, p.writes), o);
          Plan(p.writes + q.writes, q.ok)
      else RemoveBeginPlan(d, o)
    else RemoveAdvancePlan(d, rcall, o)
  }

  function RemoveAdvancePlan(d: Disk, rcall: RCall, o: Obs): Plan
    requires rcall != Begin
  {
    match Current(d)
    case Unreadable => REFUSED
    case Missing => REFUSED
    case Found(a) =>
      match Read(d.removes, a)
      case Unreadable => REFUSED
      case Missing => REFUSED
      case Found(previous) =>
        if previous.instance != a then REFUSED
        else if rcall == ConfirmRemoteRemoved then
          if previous.stage == RemoteOutcomeUnknown && o.held == Seen(previous.dir)
          then Plan([ReplaceRemove(previous.(stage := CleanupPending))], true)
          else REFUSED
        else if previous.stage == CleanupPending && !o.present
        then Plan([ReplaceRemove(previous.(stage := RemoveComplete))], true)
        else REFUSED
  }

  function ReconcileBeginPlan(d: Disk, o: Obs): Plan {
    match Current(d)
    case Unreadable => REFUSED
    case Missing => REFUSED
    case Found(a) =>
      var created := Read(d.creates, a);
      var att := Read(d.atts, a);
      if created.Found? && created.rec.stage == UnitIncomplete && created.rec.instance == a
         && att.Found? && att.rec.instance == a
         && Read(d.removes, a).Missing? && Read(d.units, a).Missing?
         && o.held == Seen(created.rec.dir) && o.held == Seen(att.rec.dir) && o.path == o.held
         && o.filesMatch && o.meta.Metadata? && o.meta.matches
         && o.meta.agentId == Some(att.rec.githubId) && att.rec.githubId > 0
         && !o.serviceFile && !o.unitFile
      then
        var r := RemoveRec(a, o.held.dir, o.meta.agentId, RemoteOutcomeUnknown, Reconciliation);
        Plan([LinkRemove(r), SettleRemove(a)], true)
      else REFUSED
  }

  function ReconcilePlan(d: Disk, rcall: RCall, o: Obs): Plan {
    match rcall
    case Begin => ReconcileBeginPlan(d, o)
    case ConfirmRemoteRemoved =>
      (match Current(d)
       case Found(a) =>
         var removed := Read(d.removes, a);
         if !o.unitFile && !o.serviceFile && removed.Found? && o.held == Seen(removed.rec.dir)
         then RemoveAdvancePlan(d, rcall, o)
         else REFUSED
       case _ => REFUSED)
    case Complete =>
      var p := RemoveAdvancePlan(d, rcall, o);
      if !p.ok then p
      else
        var d' := ApplyAll(d, p.writes);
        match Current(d')
        case Found(a) =>
          var created := Read(d'.creates, a);
          if created.Found? && created.rec.stage == UnitIncomplete
          then Plan(p.writes + [ReplaceCreate(created.rec.(stage := AbortedReconciled))], true)
          else Plan(p.writes, false)
        case _ => Plan(p.writes, false)
  }

  function PlanOf(d: Disk, c: Call): Plan {
    match c
    case CreateStage(stage, look, newId) => CreateStagePlan(d, stage, look, newId)
    case CreateAttestation(o) => AttestationPlan(d, o)
    case CreateUnitAttestation(look) => UnitAttestationPlan(d, look)
    case RemoveStage(rcall, adopt, o, newId) => RemoveStagePlan(d, rcall, adopt, o, newId)
    case Reconcile(rcall, o) => ReconcilePlan(d, rcall, o)
  }
}
