/**
 * The register, remove and reconcile scripts of one slot as step machines over
 * the journal, with the two calls that change GitHub. A script holds the
 * mutation lock from its first step to its last; it can be killed anywhere.
 */
module Drivers {
  import opened Wrappers
  import opened Journal

  datatype Request =
    | AskStage(stage: CStage)
    | AskAttestation
    | AskUnitAttestation
    | AskRemove(rcall: RCall)
    | AskReconcile(rcall: RCall)

  /** One step of a script: a root checkpoint, the GitHub call, or local work. */
  datatype Instr = Ask(req: Request) | GitHub | Local

  datatype Script = Register | Remove | ReconcileCreate

  function Steps(sc: Script): seq<Instr> {
    match sc
    case Register => [
      Ask(AskStage(PreRegistration)),
      GitHub,                              // config.sh
      Ask(AskStage(PermissionIncomplete)),
      Local,                               // normalise and check registration files
      Ask(AskAttestation),
      Ask(AskStage(UnitIncomplete)),
      Local,                               // completed hook, Unit installation
      Ask(AskUnitAttestation),
      Ask(AskStage(StartIncomplete)),
      Local,                               // service start
      Ask(AskStage(HealthUnknown)),
      Local,                               // service health
      Ask(AskStage(CreateComplete))]
    case Remove => [
      Ask(AskRemove(Begin)),
      Local,                               // service stop, uninstall, record quarantine
      GitHub,                              // config.sh remove
      Ask(AskRemove(ConfirmRemoteRemoved)),
      Local,                               // directory cleanup
      Ask(AskRemove(Complete))]
    case ReconcileCreate => [
      Ask(AskReconcile(Begin)),
      GitHub,                              // config.sh remove
      Ask(AskReconcile(ConfirmRemoteRemoved)),
      Local,                               // directory cleanup
      Ask(AskReconcile(Complete))]
  }

  /** Done is a reported success, Failed a reported failure, and Lost a script
      that was killed while the call was under way. */
  datatype Outcome = Done | Failed | Lost

  datatype CallKind = RegisterCall | UnregisterCall

  /** A GitHub call, tagged with the instance that was active when it was made. */
  datatype Effect = Effect(kind: CallKind, who: Option<Instance>, outcome: Outcome)

  datatype Pc =
    | Idle
    | At(script: Script, k: nat)
    | Asked(script: Script, k: nat, ok: bool)
    | MarkUnknown            // registration failed, about to record that
    | MarkingUnknown

  /** `pending` holds the changes the root operation under way has still to make. */
  datatype Host = Host(disk: Disk, pending: seq<Write>, pc: Pc, effects: seq<Effect>)

  const START := Host(EMPTY, [], Idle, [])

  datatype Label =
    | Launch(script: Script)
    | AskRoot(adopt: Obs, obs: Obs, newId: Instance)
    | RefuseRoot               // a wrapper around the journal rejects the request
    | WriteOne
    | Return
    | CallGitHub(outcome: Outcome)
    | LocalStep(ok: bool)
    | Kill

  function ToCall(req: Request, adopt: Obs, obs: Obs, newId: Instance): Call {
    match req
    case AskStage(stage) => CreateStage(stage, obs.path, newId)
    case AskAttestation => CreateAttestation(obs)
    case AskUnitAttestation => CreateUnitAttestation(obs.path)
    case AskRemove(rcall) => RemoveStage(rcall, adopt, obs, newId)
    case AskReconcile(rcall) => Reconcile(rcall, obs)
  }

  function Next(sc: Script, k: nat): Pc {
    if k + 1 < |Steps(sc)| then At(sc, k + 1) else Idle
  }

  predicate AtInstr(pc: Pc) {
    pc.At? && pc.k < |Steps(pc.script)|
  }

  function ActiveId(d: Disk): Option<Instance> {
    match d.active case None => None case Some(h) => Some(h.rec)
  }

  /** One step. A label that does not apply leaves the host as it is. */
  function Step(s: Host, l: Label): Host {
    match l
    case Launch(script) => if s.pc.Idle? then s.(pc := At(script, 0)) else s
    case AskRoot(adopt, obs, newId) =>
      if AtInstr(s.pc) && Steps(s.pc.script)[s.pc.k].Ask? then
        var p := PlanOf(s.disk, ToCall(Steps(s.pc.script)[s.pc.k].req, adopt, obs, newId));
        s.(pc := Asked(s.pc.script, s.pc.k, p.ok), pending := p.writes)
      else if s.pc.MarkUnknown? then
        s.(pc := MarkingUnknown, pending := CreateStagePlan(s.disk, OutcomeUnknown, obs.path, newId).writes)
      else s
    case RefuseRoot =>
      if s.pc.MarkUnknown? || (AtInstr(s.pc) && Steps(s.pc.script)[s.pc.k].Ask?) then s.(pc := Idle) else s
    case WriteOne =>
      if s.pending != [] then s.(disk := Apply(s.disk, s.pending[0]), pending := s.pending[1..]) else s
    case Return =>
      if s.pending != [] then s
      else if s.pc.Asked? then s.(pc := if s.pc.ok then Next(s.pc.script, s.pc.k) else Idle)
      else if s.pc.MarkingUnknown? then s.(pc := Idle)
      else s
    case CallGitHub(outcome) =>
      if AtInstr(s.pc) && Steps(s.pc.script)[s.pc.k].GitHub? then
        var kind := if s.pc.script.Register? then RegisterCall else UnregisterCall;
        s.(effects := s.effects + [Effect(kind, ActiveId(s.disk), outcome)],
           pc := if outcome.Done? then Next(s.pc.script, s.pc.k)
                 else if outcome.Failed? && s.pc.script.Register? then MarkUnknown
                 else Idle)
      else s
    case LocalStep(ok) =>
      if AtInstr(s.pc) && Steps(s.pc.script)[s.pc.k].Local? then
        s.(pc := if ok then Next(s.pc.script, s.pc.k) else Idle)
      else s
    case Kill => s.(pc := Idle, pending := [])
  }

  /** The host after any finite history of launches, steps and kills. */
  function Exec(s: Host, history: seq<Label>): Host
    decreases |history|
  {
    if history == [] then s else Exec(Step(s, history[0]), history[1..])
  }
}
