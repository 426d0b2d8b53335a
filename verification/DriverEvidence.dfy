/**
 * What the scripts' root steps had seen, for every record on the disk of every
 * history: which step asked for it, and what that step observed.
 */
module DriverEvidence {
  import opened Wrappers
  import opened Journal
  import opened JournalSafety
  import opened JournalEvidence
  import opened Drivers
  import opened DriverSafety
  import opened DriverTheorems

  /** The operation that label l starts on host s, if it starts one. */
  function Started(s: Host, l: Label): Option<Call> {
    if !l.AskRoot? then None
    else if AtInstr(s.pc) && Steps(s.pc.script)[s.pc.k].Ask? then
      Some(ToCall(Steps(s.pc.script)[s.pc.k].req, l.adopt, l.obs, l.newId))
    else if s.pc.MarkUnknown? then Some(CreateStage(OutcomeUnknown, l.obs.path, l.newId))
    else None
  }

  /** Label j of the history started an operation that saw what change w needs. */
  ghost predicate WarrantedBy(history: seq<Label>, j: nat, w: Write) {
    && j < |history|
    && var s := Exec(START, history[..j]);
       Started(s, history[j]).Some? && Warrants(s.disk, Started(s, history[j]).value, w)
  }

  ghost predicate Warranted(history: seq<Label>, w: Write) {
    exists j: nat :: WarrantedBy(history, j, w)
  }

  ghost predicate AllWarranted(history: seq<Label>, ws: seq<Write>) {
    forall w :: w in ws ==> Warranted(history, w)
  }

  ghost predicate CreateVouched(history: seq<Label>, d: Disk, i: Instance) {
    i in d.creates ==>
      var c := d.creates[i].rec;
      && (Warranted(history, LinkCreate(c.(stage := PreRegistration))) || Warranted(history, LinkCreate(c.(stage := LegacyVerified))))
      && (c.stage in {PreRegistration, LegacyVerified} ==> Warranted(history, LinkCreate(c)))
      && (c.stage !in {PreRegistration, LegacyVerified} ==> Warranted(history, ReplaceCreate(c)))
  }

  ghost predicate BesideVouched(history: seq<Label>, d: Disk, i: Instance) {
    && (i in d.atts ==> Warranted(history, LinkAtt(d.atts[i].rec)))
    && (i in d.units ==> Warranted(history, LinkUnit(d.units[i].rec)))
  }

  ghost predicate RemoveVouched(history: seq<Label>, d: Disk, i: Instance) {
    i in d.removes ==>
      var r := d.removes[i].rec;
      && Warranted(history, LinkRemove(r.(stage := RemoteOutcomeUnknown)))
      && (r.stage != RemoteOutcomeUnknown ==> Warranted(history, ReplaceRemove(r.(stage := CleanupPending))))
      && (r.stage == RemoveComplete ==> Warranted(history, ReplaceRemove(r)))
  }

  /** Every record of the instance, at every stage it went through, was warranted. */
  ghost predicate Vouched(history: seq<Label>, d: Disk, i: Instance) {
    && CreateVouched(history, d, i)
    && BesideVouched(history, d, i)
    && RemoveVouched(history, d, i)
  }

  ghost predicate AllVouched(history: seq<Label>, d: Disk) {
    forall i: Instance :: Vouched(history, d, i)
  }

  lemma WarrantLasts(history: seq<Label>, l: Label, w: Write)
    requires Warranted(history, w)
    ensures Warranted(history + [l], w)
  {
    hide Exec, Warrants, Started;
    var j: nat :| WarrantedBy(history, j, w);
    assert (history + [l])[..j] == history[..j];
    assert WarrantedBy(history + [l], j, w);
  }

  lemma VouchLasts(history: seq<Label>, l: Label, d: Disk, i: Instance)
    requires Vouched(history, d, i)
    ensures Vouched(history + [l], d, i)
  {
    hide Warranted;
    forall w | Warranted(history, w) ensures Warranted(history + [l], w) { WarrantLasts(history, l, w); }
  }

  lemma WriteVouched(history: seq<Label>, d: Disk, w: Write, i: Instance)
    requires Justified(d, w) && Warranted(history, w) && Vouched(history, d, i)
    requires Target(w) == Some(i) || Target(w).None?
    ensures Vouched(history, Apply(d, w), i)
  {
    hide Warranted;
  }

  lemma WriteBeside(history: seq<Label>, d: Disk, w: Write, i: Instance)
    requires Target(w).Some? && Target(w) != Some(i) && Vouched(history, d, i)
    ensures Vouched(history, Apply(d, w), i)
  {
    hide Warranted;
  }

  lemma PendingIsJustified(s: Host)
    requires HostOk(s) && s.pending != []
    ensures Justified(s.disk, s.pending[0])
  {
  }

  lemma NothingToVouch(history: seq<Label>)
    ensures AllVouched(history, EMPTY)
  {
    hide Warranted;
  }

  lemma StartedPlan(s: Host, l: Label)
    ensures Started(s, l).Some? ==> Step(s, l).pending == PlanOf(s.disk, Started(s, l).value).writes
    ensures Started(s, l).None? ==>
      || Step(s, l).pending in {s.pending, []}
      || (s.pending != [] && Step(s, l).pending == s.pending[1..])
  {
    hide Apply;
  }

  lemma StepVouched(history: seq<Label>, l: Label)
    requires var s := Exec(START, history);
      && HostOk(s) && AllWarranted(history, s.pending) && AllVouched(history, s.disk)
    ensures var t := Step(Exec(START, history), l);
      AllWarranted(history + [l], t.pending) && AllVouched(history + [l], t.disk)
  {
    hide Warranted, Exec, Vouched, Apply, PlanOf, CreateStagePlan, HostOk;
    var s := Exec(START, history);
    var t := Step(s, l);
    forall w | w in t.pending ensures Warranted(history + [l], w) {
      if w in s.pending { WarrantLasts(history, l, w); } else { AskIsWarranted(history, l, w); }
    }
    forall i: Instance ensures Vouched(history + [l], t.disk, i) {
      if l.WriteOne? && s.pending != [] {
        var w := s.pending[0];
        PendingIsJustified(s);
        if Target(w).Some? && Target(w) != Some(i) { WriteBeside(history, s.disk, w, i); } else { WriteVouched(history, s.disk, w, i); }
      }
      VouchLasts(history, l, t.disk, i);
    }
  }

  lemma AskIsWarranted(history: seq<Label>, l: Label, w: Write)
    requires var s := Exec(START, history); w in Step(s, l).pending && w !in s.pending
    ensures Warranted(history + [l], w)
  {
    hide Exec, Warrants, PlanOf;
    var s := Exec(START, history);
    var h := history + [l];
    var c := Started(s, l).value;
    StartedPlan(s, l);
    PlanIsWarranted(s.disk, c, w);
    assert h[..|history|] == history && h[|history|] == l;
    assert WarrantedBy(h, |history|, w);
  }

  /** For every history: each record on the disk, at each stage it went through, was
      asked for by a step of the history that had seen what it needs. */
  lemma {:induction false} EveryRecordIsWarranted(history: seq<Label>)
    ensures var s := Exec(START, history);
      AllWarranted(history, s.pending) && AllVouched(history, s.disk)
    decreases |history|
  {
    hide Vouched, Warranted, Step, HostOk;
    if history == [] {
      NothingToVouch(history);
    } else {
      var h, l := history[..|history| - 1], history[|history| - 1];
      assert history == h + [l];
      EveryRecordIsWarranted(h);
      StartOk();
      HistoryKeeps(START, h);
      StepVouched(h, l);
      ExecConcat(START, h, [l]);
      LastStep(Exec(START, h), l);
    }
  }

  lemma LastStep(s: Host, l: Label)
    ensures Exec(s, [l]) == Step(s, l)
  {
    assert [l][1..] == [];
  }

  /* ------------------------------ Main results ------------------------------- */

  /** The script step at which label j of the history asked root for something. */
  ghost predicate AskedAt(history: seq<Label>, j: nat, pc: Pc) {
    j < |history| && history[j].AskRoot? && Exec(START, history[..j]).pc == pc
  }

  /** A removal that is on record was observed step by step: its intent by a BEGIN that
      held the pinned directory, found it unchanged under its path and read the recorded
      id, for a reconciliation with the attested files and without Unit or service
      record; its confirmation by a step that still held that directory; and its
      completion by a step that found no directory. Each found the record of the one
      before on the disk. */
  lemma RemovalWasObserved(history: seq<Label>, i: Instance)
    requires i in Exec(START, history).disk.removes
    ensures var r := Exec(START, history).disk.removes[i].rec;
      && (exists j: nat ::
            && AskedAt(history, j, if r.origin == Ordinary then At(Remove, 0) else At(ReconcileCreate, 0))
            && InOrder(history[j].obs, r.dir, r.githubId)
            && (r.origin == Reconciliation ==> history[j].obs.filesMatch && !history[j].obs.serviceFile && !history[j].obs.unitFile))
      && (r.stage != RemoteOutcomeUnknown ==> exists j: nat ::
            && (AskedAt(history, j, At(Remove, 3)) || AskedAt(history, j, At(ReconcileCreate, 2)))
            && BeingRemoved(Exec(START, history[..j]).disk, r.(stage := RemoteOutcomeUnknown))
            && history[j].obs.held == Seen(r.dir))
      && (r.stage == RemoveComplete ==> exists j: nat ::
            && (AskedAt(history, j, At(Remove, 5)) || AskedAt(history, j, At(ReconcileCreate, 4)))
            && BeingRemoved(Exec(START, history[..j]).disk, r.(stage := CleanupPending))
            && !history[j].obs.present)
  {
    hide Exec, Warranted;
    var d := Exec(START, history).disk;
    var r := d.removes[i].rec;
    EveryRecordIsWarranted(history);
    assert Vouched(history, d, i);
    BeginWasAsked(history, r.(stage := RemoteOutcomeUnknown));
    if r.stage != RemoteOutcomeUnknown { ConfirmWasAsked(history, r.(stage := CleanupPending)); }
    if r.stage == RemoveComplete { CompleteWasAsked(history, r); }
  }

  function StageOf(rcall: RCall, first: nat, confirm: nat, last: nat): nat {
    match rcall case Begin => first case ConfirmRemoteRemoved => confirm case Complete => last
  }

  /** Which step of which script starts which operation, with the label's observations. */
  lemma StartedAt(s: Host, l: Label)
    requires Started(s, l).Some?
    ensures l.AskRoot?
    ensures var c := Started(s, l).value;
      match c
      case CreateStage(_, look, newId) => look == l.obs.path && newId == l.newId
      case CreateAttestation(o) => s.pc == At(Register, 4) && o == l.obs
      case CreateUnitAttestation(look) => s.pc == At(Register, 7) && look == l.obs.path
      case RemoveStage(rcall, adopt, o, newId) =>
        s.pc == At(Remove, StageOf(rcall, 0, 3, 5)) && adopt == l.adopt && o == l.obs && newId == l.newId
      case Reconcile(rcall, o) => s.pc == At(ReconcileCreate, StageOf(rcall, 0, 2, 4)) && o == l.obs
  {
  }

  lemma BeginWasAsked(history: seq<Label>, r: RemoveRec)
    requires Warranted(history, LinkRemove(r))
    ensures exists j: nat ::
      && AskedAt(history, j, if r.origin == Ordinary then At(Remove, 0) else At(ReconcileCreate, 0))
      && InOrder(history[j].obs, r.dir, r.githubId)
      && (r.origin == Reconciliation ==> history[j].obs.filesMatch && !history[j].obs.serviceFile && !history[j].obs.unitFile)
  {
    hide Exec, Started;
    var j: nat :| WarrantedBy(history, j, LinkRemove(r));
    StartedAt(Exec(START, history[..j]), history[j]);
    assert AskedAt(history, j, if r.origin == Ordinary then At(Remove, 0) else At(ReconcileCreate, 0));
  }

  lemma ConfirmWasAsked(history: seq<Label>, r: RemoveRec)
    requires r.stage == CleanupPending && Warranted(history, ReplaceRemove(r))
    ensures exists j: nat ::
      && (AskedAt(history, j, At(Remove, 3)) || AskedAt(history, j, At(ReconcileCreate, 2)))
      && BeingRemoved(Exec(START, history[..j]).disk, r.(stage := RemoteOutcomeUnknown))
      && history[j].obs.held == Seen(r.dir)
  {
    hide Exec, Started;
    var j: nat :| WarrantedBy(history, j, ReplaceRemove(r));
    StartedAt(Exec(START, history[..j]), history[j]);
    assert AskedAt(history, j, At(Remove, 3)) || AskedAt(history, j, At(ReconcileCreate, 2));
  }

  lemma CompleteWasAsked(history: seq<Label>, r: RemoveRec)
    requires r.stage == RemoveComplete && Warranted(history, ReplaceRemove(r))
    ensures exists j: nat ::
      && (AskedAt(history, j, At(Remove, 5)) || AskedAt(history, j, At(ReconcileCreate, 4)))
      && BeingRemoved(Exec(START, history[..j]).disk, r.(stage := CleanupPending))
      && !history[j].obs.present
  {
    hide Exec, Started;
    var j: nat :| WarrantedBy(history, j, ReplaceRemove(r));
    StartedAt(Exec(START, history[..j]), history[j]);
    assert AskedAt(history, j, At(Remove, 5)) || AskedAt(history, j, At(ReconcileCreate, 4));
  }

  /** An attestation on record was read from the pinned directory, unchanged under its
      path; a Unit attestation saw that directory; and an instance that was never
      registered here was adopted from strict legacy files. */
  lemma AttestationWasObserved(history: seq<Label>, i: Instance)
    ensures var d := Exec(START, history).disk;
      && (i in d.atts ==> exists j: nat ::
            AskedAt(history, j, At(Register, 4)) && InOrder(history[j].obs, d.atts[i].rec.dir, Some(d.atts[i].rec.githubId)))
      && (i in d.units ==> exists j: nat ::
            && AskedAt(history, j, At(Register, 7))
            && i in Exec(START, history[..j]).disk.creates
            && history[j].obs.path == Seen(Exec(START, history[..j]).disk.creates[i].rec.dir))
      && (i in d.creates && d.creates[i].rec.stage == LegacyVerified ==> exists j: nat ::
            && AskedAt(history, j, At(Remove, 0))
            && history[j].adopt.held == history[j].adopt.path == Seen(d.creates[i].rec.dir)
            && history[j].adopt.legacyFiles && history[j].adopt.meta.Metadata? && history[j].adopt.meta.matches)
  {
    hide Exec, Warranted, HostOk;
    var d := Exec(START, history).disk;
    EveryRecordIsWarranted(history);
    assert Vouched(history, d, i);
    AttestationsAreOwn(history, i);
    if i in d.atts { AttestationWasAsked(history, d.atts[i].rec); }
    if i in d.units { UnitWasAsked(history, d.units[i].rec); }
    if i in d.creates && d.creates[i].rec.stage == LegacyVerified { AdoptionWasAsked(history, d.creates[i].rec); }
  }

  lemma AttestationsAreOwn(history: seq<Label>, i: Instance)
    ensures var d := Exec(START, history).disk; i in d.units ==> d.units[i].rec.instance == i
  {
    hide Exec;
    StartOk();
    HistoryKeeps(START, history);
    assert InvAt(Exec(START, history).disk, i);
  }

  lemma AttestationWasAsked(history: seq<Label>, a: AttRec)
    requires Warranted(history, LinkAtt(a))
    ensures exists j: nat ::
      AskedAt(history, j, At(Register, 4)) && InOrder(history[j].obs, a.dir, Some(a.githubId))
  {
    hide Exec, Started;
    var j: nat :| WarrantedBy(history, j, LinkAtt(a));
    StartedAt(Exec(START, history[..j]), history[j]);
    assert AskedAt(history, j, At(Register, 4));
  }

  lemma UnitWasAsked(history: seq<Label>, u: UnitRec)
    requires Warranted(history, LinkUnit(u))
    ensures exists j: nat ::
      && AskedAt(history, j, At(Register, 7))
      && u.instance in Exec(START, history[..j]).disk.creates
      && history[j].obs.path == Seen(Exec(START, history[..j]).disk.creates[u.instance].rec.dir)
  {
    hide Exec, Started;
    var j: nat :| WarrantedBy(history, j, LinkUnit(u));
    StartedAt(Exec(START, history[..j]), history[j]);
    assert AskedAt(history, j, At(Register, 7));
  }

  lemma AdoptionWasAsked(history: seq<Label>, c: CreateRec)
    requires c.stage == LegacyVerified && Warranted(history, LinkCreate(c))
    ensures exists j: nat ::
      && AskedAt(history, j, At(Remove, 0))
      && history[j].adopt.held == history[j].adopt.path == Seen(c.dir)
      && history[j].adopt.legacyFiles && history[j].adopt.meta.Metadata? && history[j].adopt.meta.matches
  {
    hide Exec, Started;
    var j: nat :| WarrantedBy(history, j, LinkCreate(c));
    StartedAt(Exec(START, history[..j]), history[j]);
    assert AskedAt(history, j, At(Remove, 0));
  }
}
