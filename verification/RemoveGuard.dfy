/**
 * The Remove half of a Web transaction: the shape of what it does, and the gate
 * that is passed before the child starts.
 */
module RemoveGuard {
  import opened Wrappers
  import opened Journal
  import opened JournalSafety
  import opened JournalEvidence
  import opened Names
  import opened Binding
  import opened Executor
  import opened ExecutorSafety

  predicate ServiceAct(act: Act) {
    act.UnlinkUnit? || (act.Systemctl? && act.verb in {StopUnit, DisableUnit, ReloadUnits})
  }

  predicate Moves(act: Act, i: Instance, stage: RStage) {
    act.Wrote? && act.w.ReplaceRemove? && act.w.r.instance == i && act.w.r.stage == stage
  }

  /** A removal of s service actions, or a beginning of one: BEGIN (published, then
      settled), service actions, CONFIRM, COMPLETE. */
  predicate Removal(xs: seq<Deed>, i: Instance, s: nat) {
    && |xs| <= s + 4
    && (|xs| > 0 ==> xs[0].act.Wrote? && xs[0].act.w.LinkRemove? && xs[0].act.w.r.instance == i)
    && (|xs| > 1 ==> xs[1].act == Wrote(SettleRemove(i)))
    && (forall k :: 2 <= k < |xs| && k < s + 2 ==> ServiceAct(xs[k].act))
    && (|xs| > s + 2 ==> Moves(xs[s + 2].act, i, CleanupPending))
    && (|xs| > s + 3 ==> Moves(xs[s + 3].act, i, RemoveComplete))
  }

  /** The number of service actions a sequence that follows the protocol from the
      open phase starts with. */
  lemma {:induction false} ServicesFirst(xs: seq<Deed>, i: Instance) returns (s: nat)
    requires Follow(Open, xs, i).Some?
    ensures s <= |xs| <= s + 2
    ensures forall k :: 0 <= k < s ==> ServiceAct(xs[k].act)
    ensures |xs| > s ==> Moves(xs[s].act, i, CleanupPending)
    ensures |xs| > s + 1 ==> Moves(xs[s + 1].act, i, RemoveComplete)
    decreases |xs|
  {
    if xs == [] || !ServiceAct(xs[0].act) {
      s := 0;
      if |xs| > 1 {
        assert Follow(Open, xs, i) == Follow(Confirmed, xs[1..], i);
        assert xs[1..][0] == xs[1];
        assert Follow(Confirmed, xs[1..], i) == Follow(Finished, xs[1..][1..], i);
      }
    } else {
      var m := ServicesFirst(xs[1..], i);
      s := m + 1;
      assert forall k :: 1 <= k < |xs| ==> xs[1..][k - 1] == xs[k];
    }
  }

  /** Everything a Remove transaction does to an instance without a remove record
      is a beginning of one removal. */
  lemma RemovalShape(site: Site, tx: Transaction, w: World, frames: seq<Frame>, slot: Slot)
    requires Hex(site.sha) && tx.Removing? && OwnSlot(site, tx) == Some(slot)
    requires tx.instance !in JournalOf(w, slot).removes
    ensures exists s :: Removal(Trace(site, tx, w, frames), tx.instance, s)
  {
    hide Trace, OwnSlot;
    var xs := Trace(site, tx, w, frames);
    var i := tx.instance;
    RemovalFollowsProtocol(site, tx, w, frames, slot);
    assert Follow(Untouched, xs, i).Some?;
    if |xs| >= 2 {
      assert Follow(Untouched, xs, i) == Follow(Unsettled, xs[1..], i);
      assert xs[1..][0] == xs[1];
      assert Follow(Unsettled, xs[1..], i) == Follow(Open, xs[1..][1..], i);
      var s := ServicesFirst(xs[1..][1..], i);
      assert forall k :: 2 <= k < |xs| ==> xs[1..][1..][k - 2] == xs[k];
      assert Removal(xs, i, s);
    } else {
      assert Removal(xs, i, 0);
    }
  }

  /** The remove record only moves on in a frame that found the Unit absent, and a
      Unit is only unlinked in a frame that found it in order before and after it
      was stopped. */
  lemma UnitLooks(site: Site, tx: Transaction, w: World, f: Frame, x: Deed)
    requires Hex(site.sha) && x in Answered(site, tx, w, f)
    ensures x.act.Wrote? && x.act.w.ReplaceRemove? ==> f.env.before == UnitAbsent
    ensures x.act.UnlinkUnit? || x.act == Systemctl(StopUnit) || x.act == Systemctl(StartUnit) ==> f.env.before == UnitPresent
    ensures x.act.UnlinkUnit? ==> f.env.between == UnitPresent
  {
    hide Authorize, CanonicalService;
    var a := Authorize(site, tx, w, f.payload, f.env.linked).value;
    PerformLooks(JournalOf(w, a.slot), a, f.env, x);
  }

  lemma PerformLooks(d: Disk, a: Admitted, e: Env, x: Deed)
    requires x in Perform(d, a, e)
    ensures x.act.Wrote? && x.act.w.ReplaceRemove? ==> e.before == UnitAbsent
    ensures x.act.UnlinkUnit? || x.act == Systemctl(StopUnit) || x.act == Systemctl(StartUnit) ==> e.before == UnitPresent
    ensures x.act.UnlinkUnit? ==> e.between == UnitPresent
  {
    hide CanonicalService, PlanOf, InstallDue, NormalizeDue;
    if CallOf(a.kind, e).Some? { OnlyAdvanceMoves(d, CallOf(a.kind, e).value); }
  }

  /** Of the journal operations of a transaction only CONFIRM and COMPLETE move a
      remove record on. */
  lemma OnlyAdvanceMoves(d: Disk, c: Call)
    requires !c.Reconcile?
    ensures (exists w :: w in PlanOf(d, c).writes && w.ReplaceRemove?) ==> c.RemoveStage? && c.rcall != Begin
  {
    hide Apply;
  }

  /* ---------------------------------- The gate --------------------------------- */

  /** `check_remove_target`, called without the keyword its callee does not take. */
  predicate GuardPasses(d: Disk, slot: Slot, tx: Transaction, dirValid: bool, o: Obs, unit: UnitLook)
    requires tx.Removing?
  {
    var created := Read(d.creates, tx.instance);
    var att := Read(d.atts, tx.instance);
    && dirValid && Current(d) == Found(tx.instance)
    && created.Found? && created.rec.stage == CreateComplete
    && Read(d.removes, tx.instance).Missing?
    && att.Found? && att.rec.instance == tx.instance && att.rec.githubId == tx.runnerId && att.rec.secure
    && o.held == Seen(created.rec.dir)
    && o.meta.Metadata? && o.meta.matches && o.meta.agentId == Some(tx.runnerId)
    && CanonicalService(slot.repository, slot.runner).Some? && unit == UnitPresent
  }

  /** The gate passes exactly for the active instance the browser named, registered and
      complete, attested with the id it named, not yet being removed, whose pinned
      directory was opened and whose .runner and Unit are in order. */
  lemma GuardIsExact(d: Disk, slot: Slot, tx: Transaction, dirValid: bool, o: Obs, unit: UnitLook)
    requires tx.Removing? && Inv(d)
    ensures GuardPasses(d, slot, tx, dirValid, o, unit) <==>
      && dirValid && unit == UnitPresent && CanonicalService(slot.repository, slot.runner).Some?
      && tx.instance !in d.removes
      && o.meta == Metadata(true, Some(tx.runnerId))
      && exists dir ::
           && Stands(d, tx.instance, dir, CreateComplete) && AttestedAs(d, tx.instance, dir, tx.runnerId)
           && o.held == Seen(dir)
  {
    hide CanonicalService;
    var i := tx.instance;
    assert InvAt(d, i);
    hide Inv, InvAt;
    if GuardPasses(d, slot, tx, dirValid, o, unit) {
      var dir := d.creates[i].rec.dir;
      assert Stands(d, i, dir, CreateComplete);
    }
  }

  /** Once the gate has passed, whatever the child does: if a remove record of the
      instance exists at the end, it carries the GitHub id the browser asked for
      and the directory the cycle was created with. */
  lemma GuardPinsTarget(site: Site, tx: Transaction, w: World, frames: seq<Frame>, slot: Slot, dirValid: bool, o: Obs, unit: UnitLook)
    requires Hex(site.sha) && tx.Removing? && OwnSlot(site, tx) == Some(slot)
    requires Inv(JournalOf(w, slot)) && GuardPasses(JournalOf(w, slot), slot, tx, dirValid, o, unit)
    ensures var d' := JournalOf(DoAll(w, Trace(site, tx, w, frames)), slot);
      var i := tx.instance;
      i in d'.removes ==>
        && d'.removes[i].rec.githubId == Some(tx.runnerId)
        && Seen(d'.removes[i].rec.dir) == o.held
        && d'.removes[i].rec.instance == i
        && i in d'.creates && d'.creates[i].rec.stage == CreateComplete
  {
    hide Trace, OwnSlot, AllLicensed, CanonicalService;
    TransactionIsLicensed(site, tx, w, frames, slot);
    var d, d' := JournalOf(w, slot), JournalOf(DoAll(w, Trace(site, tx, w, frames)), slot);
    assert LaterAt(d, d', tx.instance);
    assert InvAt(d, tx.instance) && InvAt(d', tx.instance);
  }

  /** The frame the remove script sends to begin. */
  function BeginPayload(slot: Slot): Payload {
    Object(map["op" := Text("remove_state"), "repository" := Text(slot.repository), "runner_dir" := Text(slot.dir),
               "runner_name" := Text(slot.runner), "stage" := Text("BEGIN")])
  }

  lemma BeginPayloadIsAdmitted(slot: Slot)
    requires Nameable(slot)
    ensures Admit(BeginPayload(slot)) == Some(Admitted(RemoveState(Begin), slot))
  {
    hide ValidRepository, PathForm, RunnerForm, Dots, Owner, Project;
    var m := BeginPayload(slot).fields;
    assert m.Keys == COMMON + {"stage"};
    assert m.Keys != COMMON by { assert "stage" in m; }
    assert KindOf(m) == Some(RemoveState(Begin)) by {
      assert FieldText(m, "op") == Some("remove_state") && FieldText(m, "stage") == Some("BEGIN");
    }
  }

  /** A BEGIN that sees what the gate saw, and sees it through the path as well,
      is admitted and published. */
  lemma GuardAdmitsBegin(site: Site, tx: Transaction, w: World, f: Frame, slot: Slot, unit: UnitLook)
    requires Hex(site.sha) && tx.Removing? && OwnSlot(site, tx) == Some(slot) && tx.runnerId > 0
    requires GuardPasses(JournalOf(w, slot), slot, tx, f.env.dirValid, f.env.obs, unit) && f.env.obs.path == f.env.obs.held
    requires Nameable(slot) && f.payload == BeginPayload(slot) && !f.env.linked && f.env.reached >= 2
    ensures |Answered(site, tx, w, f)| == 2
    ensures PhaseOf(JournalOf(DoAll(w, Answered(site, tx, w, f)), slot), tx.instance) == Open
  {
    hide Admit, CanonicalService, OwnSlot, BeginPayload, Nameable, Authorize;
    BeginPayloadIsAdmitted(slot);
    BeginAuthorized(site, tx, w, f, slot);
    var xs := Answered(site, tx, w, f);
    var i := tx.instance;
    hide Answered, Perform;
    AnsweredIsOwn(site, tx, w, f);
    AnsweredFollows(site, tx, w, f, slot);
    PhaseOnDisk(w, xs, slot, i);
    FollowTwo(Untouched, xs, i);
  }

  lemma BeginAuthorized(site: Site, tx: Transaction, w: World, f: Frame, slot: Slot)
    requires Hex(site.sha) && tx.Removing? && OwnSlot(site, tx) == Some(slot)
    requires Current(JournalOf(w, slot)) == Found(tx.instance) && Read(JournalOf(w, slot).removes, tx.instance).Missing?
    requires Admit(f.payload) == Some(Admitted(RemoveState(Begin), slot)) && !f.env.linked
    ensures Authorize(site, tx, w, f.payload, f.env.linked) == Some(Admitted(RemoveState(Begin), slot))
  {
    hide Admit, CanonicalService, LocalId;
  }
}
