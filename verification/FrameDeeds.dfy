/**
 * Effects and the frames they come from: each effect of a Web transaction belongs to
 * the one operation text that may cause it.
 */
module FrameDeeds {
  import opened Wrappers
  import opened Journal
  import opened JournalSafety
  import opened Names
  import opened Binding
  import opened Executor
  import opened ExecutorSafety
  import opened JournalEvidence
  import opened FrameTable

  predicate Says(p: Payload, op: string) {
    p.Object? && FieldText(p.fields, "op") == Some(op)
  }

  predicate SaysStage(p: Payload, op: string, stage: string) {
    Says(p, op) && FieldText(p.fields, "stage") == Some(stage)
  }

  /** The operation text an effect may come from. */
  predicate ComesFrom(act: Act, p: Payload) {
    match act
    case Constrain => Says(p, "registration_permission_normalize")
    case PublishWrapper => Says(p, "service_install")
    case PublishUnit => Says(p, "service_install")
    case UnlinkUnit => Says(p, "service_uninstall")
    case Systemctl(verb) =>
      (match verb
       case StartUnit => Says(p, "service_start")
       case StopUnit => Says(p, "service_stop") || Says(p, "service_uninstall")
       case DisableUnit => Says(p, "service_uninstall")
       case EnableUnit => Says(p, "service_install")
       case ReloadUnits => Says(p, "service_install") || Says(p, "service_uninstall"))
    case Wrote(w) => RecordedBy(w, p)
  }

  /** The operation text a change of the journal may come from. */
  predicate RecordedBy(w: Write, p: Payload) {
    match w
    case ReplaceCreate(c) =>
      (match c.stage
       case PermissionIncomplete => SaysStage(p, "create_state", "REGISTERED_PERMISSION_INCOMPLETE")
       case UnitIncomplete => SaysStage(p, "create_state", "REGISTERED_UNIT_INCOMPLETE")
       case StartIncomplete => SaysStage(p, "create_state", "REGISTERED_START_INCOMPLETE")
       case HealthUnknown => SaysStage(p, "create_state", "REGISTERED_HEALTH_UNKNOWN")
       case CreateComplete => SaysStage(p, "create_state", "CREATE_COMPLETE")
       case OutcomeUnknown => SaysStage(p, "create_state", "REGISTRATION_OUTCOME_UNKNOWN")
       case _ => false)
    case LinkCreate(c) =>
      if c.stage == PreRegistration then SaysStage(p, "create_state", "PRE_REGISTRATION")
      else c.stage == LegacyVerified && SaysStage(p, "remove_state", "BEGIN")
    case SettleCreate(_) => StartsCycle(p)
    case LinkActive(_) => StartsCycle(p)
    case SettleActive => StartsCycle(p)
    case ReplaceActive(_) => StartsCycle(p)
    case LinkAtt(_) => Says(p, "registration_attestation_create")
    case SettleAtt(_) => Says(p, "registration_attestation_create")
    case LinkUnit(_) => Says(p, "service_install")
    case SettleUnit(_) => Says(p, "service_install")
    case LinkRemove(r) => r.origin == Ordinary && SaysStage(p, "remove_state", "BEGIN")
    case SettleRemove(_) => SaysStage(p, "remove_state", "BEGIN")
    case ReplaceRemove(r) =>
      (match r.stage
       case RemoteOutcomeUnknown => false
       case CleanupPending => SaysStage(p, "remove_state", "CONFIRM_REMOTE_REMOVED")
       case RemoveComplete => SaysStage(p, "remove_state", "COMPLETE"))
  }

  predicate StartsCycle(p: Payload) {
    SaysStage(p, "create_state", "PRE_REGISTRATION") || SaysStage(p, "remove_state", "BEGIN")
  }

  lemma TextsOf(k: Kind, slot: Slot)
    ensures var p := FrameOf(k, slot);
      && Says(p, OpText(k))
      && (k.CreateState? ==> SaysStage(p, "create_state", CreateText(k.stage)))
      && (k.RemoveState? ==> SaysStage(p, "remove_state", RemoveText(k.rcall)))
  {
    hide CreateText, RemoveText;
    FrameFields(k, slot);
  }

  lemma WriteIsRecorded(d: Disk, k: Kind, slot: Slot, e: Env, w: Write)
    requires Askable(k) && CallOf(k, e).Some? && Warrants(d, CallOf(k, e).value, w)
    ensures RecordedBy(w, FrameOf(k, slot))
  {
    hide FrameOf, Says, SaysStage, VersionForm, ServiceForm;
    TextsOf(k, slot);
  }

  lemma WroteIsPlanned(d: Disk, a: Admitted, e: Env, x: Deed)
    requires x in Perform(d, a, e) && x.act.Wrote?
    ensures CallOf(a.kind, e).Some? && x.act.w in PlanOf(d, CallOf(a.kind, e).value).writes
  {
    hide PlanOf, InstallDue, NormalizeDue, CanonicalService;
  }

  lemma ServiceActComesFrom(d: Disk, a: Admitted, e: Env, x: Deed)
    requires x in Perform(d, a, e) && !x.act.Wrote?
    ensures ComesFrom(x.act, FrameOf(a.kind, a.slot))
  {
    hide FrameOf, Says, PlanOf, InstallDue, NormalizeDue, CanonicalService;
    TextsOf(a.kind, a.slot);
  }

  lemma ActComesFrom(d: Disk, a: Admitted, e: Env, x: Deed)
    requires Askable(a.kind) && x in Perform(d, a, e)
    ensures ComesFrom(x.act, FrameOf(a.kind, a.slot))
  {
    hide FrameOf, Says, SaysStage, PlanOf, Warrants, RecordedBy, Perform, Askable;
    if x.act.Wrote? {
      WroteIsPlanned(d, a, e, x);
      PlanIsWarranted(d, CallOf(a.kind, e).value, x.act.w);
      WriteIsRecorded(d, a.kind, a.slot, e, x.act.w);
    } else {
      ServiceActComesFrom(d, a, e, x);
    }
  }

  /** Nothing is done that the text of the frame does not ask for. */
  lemma EveryDeedIsAskedFor(site: Site, tx: Transaction, w: World, f: Frame, x: Deed)
    requires Hex(site.sha) && x in Answered(site, tx, w, f)
    ensures ComesFrom(x.act, f.payload)
  {
    hide Authorize, Perform, ComesFrom, FrameOf, Askable, Nameable;
    var a := Authorize(site, tx, w, f.payload, f.env.linked).value;
    AuthorizedIsOwn(site, tx, w, f.payload, f.env.linked);
    FramesAreExact(f.payload, a.kind, a.slot);
    ActComesFrom(JournalOf(w, a.slot), a, f.env, x);
  }

  /** Over a whole transaction: every effect is asked for by the text of one of its
      frames. */
  lemma {:induction false} TraceIsAskedFor(site: Site, tx: Transaction, w: World, frames: seq<Frame>, k: nat) returns (j: nat)
    requires Hex(site.sha) && k < |Trace(site, tx, w, frames)|
    ensures j < |frames| && ComesFrom(Trace(site, tx, w, frames)[k].act, frames[j].payload)
    ensures |Trace(site, tx, w, frames[..j])| <= k < |Trace(site, tx, w, frames[..j + 1])|
    decreases |frames|
  {
    hide Answered, ComesFrom, DoAll;
    var xs := Answered(site, tx, w, frames[0]);
    if k < |xs| {
      j := 0;
      assert xs[k] in xs;
      EveryDeedIsAskedFor(site, tx, w, frames[0], xs[k]);
      assert frames[..1][0] == frames[0] && frames[..0] == [];
    } else {
      var m := TraceIsAskedFor(site, tx, DoAll(w, xs), frames[1..], k - |xs|);
      j := m + 1;
      assert frames[..j][1..] == frames[1..][..m] && frames[..j + 1][1..] == frames[1..][..m + 1];
    }
  }

  /* -------------------------- What each effect rests on ------------------------- */

  /** The active instance's directory was seen, and the instance is at a stage. */
  ghost predicate Ground(d: Disk, look: Look, stage: CStage) {
    exists i, dir :: Stands(d, i, dir, stage) && look == Seen(dir)
  }

  /** The same, for an instance that is attested in that directory. */
  ghost predicate AttestedGround(d: Disk, look: Look, stage: CStage) {
    exists i, dir, id :: Stands(d, i, dir, stage) && AttestedAs(d, i, dir, id) && look == Seen(dir)
  }

  /** What the operation had seen when it had this effect. */
  ghost predicate Grounded(d: Disk, e: Env, act: Act) {
    match act
    case Constrain => e.filesSafe && Ground(d, e.look, PermissionIncomplete)
    case PublishWrapper => e.provenance && AttestedGround(d, e.look, UnitIncomplete)
    case PublishUnit => e.provenance && AttestedGround(d, e.look, UnitIncomplete)
    case UnlinkUnit => e.before == UnitPresent && e.between == UnitPresent
    case Systemctl(verb) =>
      (match verb
       case EnableUnit => e.provenance && AttestedGround(d, e.look, UnitIncomplete)
       case ReloadUnits =>
         || (e.provenance && AttestedGround(d, e.look, UnitIncomplete))
         || (e.before == UnitPresent && e.between == UnitPresent)
       case _ => e.before == UnitPresent)
    case Wrote(w) =>
      && (exists k :: CallOf(k, e).Some? && Warrants(d, CallOf(k, e).value, w))
      && (w.LinkUnit? || w.SettleUnit? ==> e.provenance && e.before == UnitPresent)
      && (w.ReplaceRemove? ==> e.before == UnitAbsent)
  }

  lemma NormalizedGround(d: Disk, e: Env)
    requires Inv(d) && NormalizeDue(d, e)
    ensures e.filesSafe && Ground(d, e.look, PermissionIncomplete)
  {
    var i := d.active.value.rec;
    assert InvAt(d, i);
    assert Stands(d, i, d.creates[i].rec.dir, PermissionIncomplete);
  }

  lemma InstallGround(d: Disk, e: Env)
    requires Inv(d) && InstallDue(d, e)
    ensures e.provenance && AttestedGround(d, e.look, UnitIncomplete)
  {
    var i := d.active.value.rec;
    assert InvAt(d, i);
    var dir := d.creates[i].rec.dir;
    assert Stands(d, i, dir, UnitIncomplete) && AttestedAs(d, i, dir, d.atts[i].rec.githubId);
  }

  /** Unit attestations come from an installation, moves of a remove record from CONFIRM
      and COMPLETE. */
  lemma WarrantedKinds(d: Disk, k: Kind, e: Env, w: Write)
    requires CallOf(k, e).Some? && Warrants(d, CallOf(k, e).value, w)
    ensures w.LinkUnit? || w.SettleUnit? ==> k.Install?
    ensures w.ReplaceRemove? ==> k.RemoveState? && k.rcall != Begin
  {
  }

  lemma WriteIsGrounded(d: Disk, a: Admitted, e: Env, x: Deed)
    requires x in Perform(d, a, e) && x.act.Wrote?
    ensures Grounded(d, e, x.act)
  {
    hide Perform, PlanOf, Warrants, Inv;
    WroteIsPlanned(d, a, e, x);
    var c := CallOf(a.kind, e).value;
    PlanIsWarranted(d, c, x.act.w);
    WarrantedKinds(d, a.kind, e, x.act.w);
    if a.kind.Install? { InstallLooks(d, a, e, x); }
    if a.kind.RemoveState? { RemoveLooks(d, a, e, x); }
    assert CallOf(a.kind, e).Some? && Warrants(d, c, x.act.w);
  }

  lemma InstallLooks(d: Disk, a: Admitted, e: Env, x: Deed)
    requires a.kind.Install? && x in Perform(d, a, e) && x.act.Wrote?
    ensures e.provenance && e.before == UnitPresent
  {
    hide PlanOf, CanonicalService;
  }

  lemma RemoveLooks(d: Disk, a: Admitted, e: Env, x: Deed)
    requires a.kind.RemoveState? && x in Perform(d, a, e)
    ensures a.kind.rcall != Begin ==> e.before == UnitAbsent
  {
    hide PlanOf, CanonicalService;
  }

  lemma ServiceIsGrounded(d: Disk, a: Admitted, e: Env, x: Deed)
    requires Inv(d) && x in Perform(d, a, e) && !x.act.Wrote?
    ensures Grounded(d, e, x.act)
  {
    hide PlanOf, CanonicalService, InstallDue, NormalizeDue, Inv, Ground, AttestedGround;
    if a.kind.Normalize? { NormalizedGround(d, e); }
    if a.kind.Install? { InstallGround(d, e); }
  }

  /** Every effect rests on what its operation had seen: a valid directory that is no
      symbolic link, and then the pinned directory, files in order, the attested
      provenance, the Unit in order or absent, as the effect demands. */
  lemma EveryDeedIsGrounded(site: Site, tx: Transaction, w: World, f: Frame, slot: Slot, x: Deed)
    requires Hex(site.sha) && OwnSlot(site, tx) == Some(slot) && Inv(JournalOf(w, slot))
    requires x in Answered(site, tx, w, f)
    ensures f.env.dirValid && !f.env.linked && Grounded(JournalOf(w, slot), f.env, x.act)
  {
    hide Authorize, OwnSlot, Inv, Grounded, CanonicalService, PlanOf, InstallDue, NormalizeDue;
    var a := Authorize(site, tx, w, f.payload, f.env.linked).value;
    AuthorizedIsOwn(site, tx, w, f.payload, f.env.linked);
    assert f.env.dirValid;
    hide Perform;
    if x.act.Wrote? {
      WriteIsGrounded(JournalOf(w, slot), a, f.env, x);
    } else {
      ServiceIsGrounded(JournalOf(w, slot), a, f.env, x);
    }
  }
}
