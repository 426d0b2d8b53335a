/** What GitHub and the journal see over every history of the three scripts. */
module DriverSafety {
  import opened Wrappers
  import opened Journal
  import opened JournalSafety
  import opened Drivers

  /* ------------------------- The calls GitHub receives ----------------------- */

  /** The calls alternate between registering an instance and unregistering that
      same instance, only a call after which nothing follows may end without a
      reported success, and a registered instance was never seen before. A first
      call that unregisters belongs to an adopted legacy runner. */
  ghost predicate Orderly(e: seq<Effect>) {
    && (forall k :: 0 <= k < |e| ==> e[k].who.Some?)
    && (forall k :: 0 <= k < |e| - 1 ==> e[k].outcome.Done?)
    && (forall k :: 1 <= k < |e| && e[k].kind.RegisterCall? ==> e[k-1].kind.UnregisterCall?)
    && (forall k :: 1 <= k < |e| && e[k].kind.UnregisterCall? ==> e[k-1].kind.RegisterCall? && e[k-1].who == e[k].who)
    && (forall j, k :: 0 <= j < k < |e| && e[k].kind.RegisterCall? ==> e[j].who != e[k].who)
  }

  predicate Unseen(e: seq<Effect>, i: Instance) {
    forall k :: 0 <= k < |e| ==> e[k].who != Some(i)
  }

  /** The last call, if any, was a successful unregister. */
  predicate Clear(e: seq<Effect>) {
    e == [] || (e[|e|-1].kind.UnregisterCall? && e[|e|-1].outcome.Done?)
  }

  predicate LastIs(e: seq<Effect>, kind: CallKind, i: Instance) {
    && e != []
    && e[|e|-1].kind == kind
    && e[|e|-1].who == Some(i)
  }

  predicate LastOk(e: seq<Effect>, kind: CallKind, i: Instance) {
    LastIs(e, kind, i) && e[|e|-1].outcome.Done?
  }

  /** The instance is on GitHub as far as anybody was told. */
  predicate Registered(d: Disk, e: seq<Effect>, i: Instance)
    requires i in d.creates
  {
    if d.creates[i].rec.stage == LegacyVerified then e == [] else LastOk(e, RegisterCall, i)
  }

  /** How the active instance's records relate to the calls made so far. */
  ghost predicate Chapter(d: Disk, e: seq<Effect>, i: Instance)
    requires i in d.creates
  {
    if i in d.removes then
      if d.removes[i].rec.stage == RemoteOutcomeUnknown
      then Registered(d, e, i) || LastIs(e, UnregisterCall, i)
      else LastOk(e, UnregisterCall, i)
    else match d.creates[i].rec.stage
      case PreRegistration => (Clear(e) && Unseen(e, i)) || LastIs(e, RegisterCall, i)
      case OutcomeUnknown => LastIs(e, RegisterCall, i) && e[|e|-1].outcome.Failed?
      case _ => Registered(d, e, i)
  }

  /** A call of this kind for this instance reported success. */
  ghost predicate WasDone(e: seq<Effect>, kind: CallKind, i: Instance) {
    Effect(kind, Some(i), Done) in e
  }

  /** Records that presuppose a call exist only once that call reported success. */
  ghost predicate Confirmed(d: Disk, e: seq<Effect>, i: Instance) {
    && (i in d.creates ==>
          d.creates[i].rec.stage in {PreRegistration, OutcomeUnknown, LegacyVerified} || WasDone(e, RegisterCall, i))
    && (i in d.removes ==>
          && i in d.creates
          && (d.creates[i].rec.stage != LegacyVerified ==> WasDone(e, RegisterCall, i))
          && (d.removes[i].rec.stage != RemoteOutcomeUnknown ==> WasDone(e, UnregisterCall, i)))
  }

  /** What the disk and the calls made so far always agree on. */
  ghost predicate Story(d: Disk, e: seq<Effect>) {
    && Orderly(e)
    && (e != [] ==> Current(d).Found?)
    && (forall i {:trigger Confirmed(d, e, i)} :: Confirmed(d, e, i))
    && (forall k :: 0 <= k < |e| ==> e[k].who.Some? && e[k].who.value in d.creates)
    && (d.active.None? ==> e == [])
    && (d.active.Some? ==> d.active.value.rec in d.creates && Chapter(d, e, d.active.value.rec))
  }

  /** The story holds now and after each change still to be made. */
  ghost predicate Told(d: Disk, ws: seq<Write>, e: seq<Effect>)
    decreases |ws|
  {
    && Story(d, e)
    && (ws == [] || Told(Apply(d, ws[0]), ws[1..], e))
  }

  /* --------------------------- What a script knows --------------------------- */

  /** What holds when a script has come as far as step k. */
  ghost predicate Knows(sc: Script, k: nat, d: Disk, e: seq<Effect>) {
    k > 0 ==>
      && Current(d).Found?
      && Current(d).rec in d.creates
      && var i := Current(d).rec;
      match sc
      case Register =>
        && i !in d.removes
        && (if k == 1 then d.creates[i].rec.stage == PreRegistration && Clear(e) && Unseen(e, i)
            else LastOk(e, RegisterCall, i))
        && (k == 2 ==> d.creates[i].rec.stage == PreRegistration)
      case Remove =>
        && i in d.removes
        && (if k <= 2 then d.removes[i].rec.stage == RemoteOutcomeUnknown && Registered(d, e, i)
            else LastOk(e, UnregisterCall, i))
      case ReconcileCreate =>
        && i in d.removes
        && (if k <= 1 then d.removes[i].rec.stage == RemoteOutcomeUnknown && Registered(d, e, i)
            else LastOk(e, UnregisterCall, i))
  }

  ghost predicate Unmarked(d: Disk, e: seq<Effect>) {
    && Current(d).Found?
    && Current(d).rec in d.creates
    && var i := Current(d).rec;
    && d.creates[i].rec.stage == PreRegistration && i !in d.removes
    && LastIs(e, RegisterCall, i) && e[|e|-1].outcome.Failed?
  }

  ghost predicate HostOk(s: Host) {
    && Inv(s.disk)
    && AllLicensed(s.disk, s.pending)
    && Told(s.disk, s.pending, s.effects)
    && match s.pc
       case Idle => s.pending == []
       case At(sc, k) => s.pending == [] && Knows(sc, k, s.disk, s.effects)
       case Asked(sc, k, ok) => ok ==> Knows(sc, k + 1, ApplyAll(s.disk, s.pending), s.effects)
       case MarkUnknown => s.pending == [] && Unmarked(s.disk, s.effects)
       case MarkingUnknown => true
  }

  /* --------------------------- Telling each operation ------------------------ */

  lemma Told1(d: Disk, w: Write, e: seq<Effect>)
    requires Story(d, e) && Story(Apply(d, w), e)
    ensures Told(d, [w], e)
    ensures ApplyAll(d, [w]) == Apply(d, w)
  {
    assert [w][1..] == [];
    assert ApplyAll(Apply(d, w), []) == Apply(d, w);
  }

  lemma Told2(d: Disk, v: Write, w: Write, e: seq<Effect>)
    requires Story(d, e) && Story(Apply(d, v), e) && Story(Apply(Apply(d, v), w), e)
    ensures Told(d, [v, w], e)
    ensures ApplyAll(d, [v, w]) == Apply(Apply(d, v), w)
  {
    assert [v, w][1..] == [w];
    Told1(Apply(d, v), w, e);
  }

  lemma {:induction false} ToldConcat(d: Disk, us: seq<Write>, vs: seq<Write>, e: seq<Effect>)
    requires Told(d, us, e) && Told(ApplyAll(d, us), vs, e)
    ensures Told(d, us + vs, e)
    ensures ApplyAll(d, us + vs) == ApplyAll(ApplyAll(d, us), vs)
    decreases |us|
  {
    hide Story, Apply;
    if us == [] {
      assert us + vs == vs;
    } else {
      ToldConcat(Apply(d, us[0]), us[1..], vs, e);
      assert (us + vs)[1..] == us[1..] + vs;
    }
  }

  /** The story only depends on the records of the active instance. */
  lemma StoryFrame(d: Disk, d': Disk, e: seq<Effect>)
    requires Story(d, e)
    requires ActiveId(d') == ActiveId(d)
    requires Current(d).Found? ==> Current(d').Found?
    requires d.creates.Keys <= d'.creates.Keys
    requires forall i :: i in d'.creates && i !in d.creates ==> d'.creates[i].rec.stage in {PreRegistration, LegacyVerified}
    requires forall i :: i in d.creates ==> d'.creates[i].rec == d.creates[i].rec
    requires d'.removes == d.removes
    ensures Story(d', e)
  {
    forall i ensures Confirmed(d', e, i) { assert Confirmed(d, e, i); }
  }

  /** A story also survives an edit of the active instance's own records. */
  lemma StoryEdit(d: Disk, d': Disk, i: Instance, e: seq<Effect>)
    requires Story(d, e) && Current(d) == Found(i) && i in d.creates
    requires d'.active == d.active
    requires d'.creates.Keys == d.creates.Keys
    requires forall j :: j in d.creates && j != i ==> d'.creates[j].rec == d.creates[j].rec
    requires forall j :: j != i ==> (j in d'.removes <==> j in d.removes)
    requires forall j :: j in d.removes && j != i ==> d'.removes[j].rec == d.removes[j].rec
    requires Confirmed(d', e, i) && Chapter(d', e, i)
    ensures Story(d', e)
  {
    forall j ensures Confirmed(d', e, j) { assert Confirmed(d, e, j); }
  }

  /** The active index moves to a new cycle once the calls have come to rest. */
  lemma StoryMoves(d: Disk, d': Disk, i: Instance, e: seq<Effect>)
    requires Story(d, e) && Clear(e) && Unseen(e, i)
    requires ActiveId(d') == Some(i) && (Current(d').Found? || e == []) && d'.creates == d.creates && d'.removes == d.removes
    requires i in d.creates && i !in d.removes
    requires d.creates[i].rec.stage == PreRegistration || (d.creates[i].rec.stage == LegacyVerified && e == [])
    ensures Story(d', e)
  {
    forall j ensures Confirmed(d', e, j) { assert Confirmed(d, e, j); }
  }

  /** Publishing the create record of a cycle nobody points at yet. */
  lemma PublishTold(d: Disk, c: CreateRec, e: seq<Effect>)
    requires Story(d, e) && c.instance !in d.creates && c.stage in {PreRegistration, LegacyVerified}
    ensures var ws := [LinkCreate(c), SettleCreate(c.instance)];
      Told(d, ws, e) && ApplyAll(d, ws) == d.(creates := d.creates[c.instance := Held(c, true)])
  {
    var d1 := Apply(d, LinkCreate(c));
    var d2 := Apply(d1, SettleCreate(c.instance));
    assert d2.creates == d.creates[c.instance := Held(c, true)];
    StoryFrame(d, d1, e);
    StoryFrame(d, d2, e);
    Told2(d, LinkCreate(c), SettleCreate(c.instance), e);
  }

  lemma PointTold(d: Disk, i: Instance, e: seq<Effect>)
    requires Story(d, e) && Clear(e) && Unseen(e, i)
    requires i in d.creates && i !in d.removes
    requires d.creates[i].rec.stage == PreRegistration || (d.creates[i].rec.stage == LegacyVerified && e == [])
    ensures Told(d, PointActive(d, i), e)
    ensures ApplyAll(d, PointActive(d, i)) == d.(active := Some(Held(i, true)))
  {
    if d.active.None? {
      StoryMoves(d, Apply(d, LinkActive(i)), i, e);
      StoryMoves(d, Apply(Apply(d, LinkActive(i)), SettleActive), i, e);
      Told2(d, LinkActive(i), SettleActive, e);
    } else {
      StoryMoves(d, Apply(d, ReplaceActive(i)), i, e);
      Told1(d, ReplaceActive(i), e);
    }
  }

  lemma NewCycleTold(d: Disk, i: Instance, dir: Identity, stage: CStage, e: seq<Effect>)
    requires Inv(d) && Story(d, e) && stage in {PreRegistration, LegacyVerified}
    requires Current(d).Missing? || (Current(d).Found? && Closed(d, Current(d).rec))
    requires stage == LegacyVerified ==> Current(d).Missing?
    ensures Told(d, NewCycle(d, i, dir, stage).writes, e)
    ensures NewCycle(d, i, dir, stage).ok ==>
              var d' := ApplyAll(d, NewCycle(d, i, dir, stage).writes);
              && d' == d.(active := Some(Held(i, true)), creates := d.creates[i := Held(CreateRec(i, dir, stage), true)])
              && i !in d.creates && i !in d.removes && Unseen(e, i) && Clear(e)
  {
    assert InvAt(d, i);
    if i !in d.creates {
      var c := CreateRec(i, dir, stage);
      var ws := [LinkCreate(c), SettleCreate(i)];
      PublishTold(d, c, e);
      EndTold(d, ws, e);
      PointTold(ApplyAll(d, ws), i, e);
      ToldConcat(d, ws, PointActive(d, i), e);
    }
  }

  /** Rewriting the create record of the active instance. */
  lemma ReplaceCreateTold(d: Disk, c: CreateRec, e: seq<Effect>)
    requires Story(d, e) && Current(d) == Found(c.instance) && c.instance in d.creates
    requires Confirmed(Apply(d, ReplaceCreate(c)), e, c.instance)
    requires Chapter(Apply(d, ReplaceCreate(c)), e, c.instance)
    ensures Told(d, [ReplaceCreate(c)], e)
    ensures ApplyAll(d, [ReplaceCreate(c)]) == Apply(d, ReplaceCreate(c))
  {
    StoryEdit(d, Apply(d, ReplaceCreate(c)), c.instance, e);
    Told1(d, ReplaceCreate(c), e);
  }

  lemma StageTold(d: Disk, k: nat, stage: CStage, look: Look, newId: Instance, e: seq<Effect>)
    requires Inv(d) && Story(d, e)
    requires k < |Steps(Register)| && Steps(Register)[k] == Ask(AskStage(stage)) && Knows(Register, k, d, e)
    ensures var p := CreateStagePlan(d, stage, look, newId);
      && Told(d, p.writes, e)
      && (p.ok ==> Knows(Register, k + 1, ApplyAll(d, p.writes), e))
  {
    hide Story;
    if d.active.Some? { assert InvAt(d, d.active.value.rec); }
    var p := CreateStagePlan(d, stage, look, newId);
    if k == 0 {
      if p.ok { NewCycleTold(d, newId, look.dir, stage, e); }
    } else if |p.writes| == 1 {
      ReplaceCreateTold(d, p.writes[0].c, e);
      assert p.writes == [p.writes[0]];
    }
  }

  lemma UnknownTold(d: Disk, look: Look, newId: Instance, e: seq<Effect>)
    requires Inv(d) && Story(d, e) && Unmarked(d, e)
    ensures Told(d, CreateStagePlan(d, OutcomeUnknown, look, newId).writes, e)
  {
    assert InvAt(d, d.active.value.rec);
    var p := CreateStagePlan(d, OutcomeUnknown, look, newId);
    if |p.writes| == 1 {
      ReplaceCreateTold(d, p.writes[0].c, e);
      assert p.writes == [p.writes[0]];
    }
  }

  /** Changes beside the create, remove and active stores do not touch the story. */
  lemma AsideTold(d: Disk, v: Write, w: Write, e: seq<Effect>)
    requires Story(d, e)
    requires (v.LinkAtt? && w.SettleAtt?) || (v.LinkUnit? && w.SettleUnit?)
    ensures Told(d, [v, w], e)
    ensures var d' := ApplyAll(d, [v, w]);
      && d'.active == d.active
      && d'.creates == d.creates
      && d'.removes == d.removes
  {
    StoryFrame(d, Apply(d, v), e);
    StoryFrame(d, Apply(Apply(d, v), w), e);
    Told2(d, v, w, e);
  }

  lemma AttestationsTold(d: Disk, o: Obs, look: Look, e: seq<Effect>)
    requires Inv(d) && Story(d, e)
    ensures Told(d, AttestationPlan(d, o).writes, e)
    ensures Told(d, UnitAttestationPlan(d, look).writes, e)
    ensures forall k :: k > 2 && Knows(Register, k, d, e) ==>
              && Knows(Register, k + 1, ApplyAll(d, AttestationPlan(d, o).writes), e)
              && Knows(Register, k + 1, ApplyAll(d, UnitAttestationPlan(d, look).writes), e)
  {
    var p := AttestationPlan(d, o);
    if p.ok { AsideTold(d, p.writes[0], p.writes[1], e); }
    var q := UnitAttestationPlan(d, look);
    if q.ok { AsideTold(d, q.writes[0], q.writes[1], e); }
  }

  /** Publishing the intent to remove the active, registered instance. */
  lemma IntentTold(d: Disk, r: RemoveRec, e: seq<Effect>)
    requires Story(d, e) && Current(d) == Found(r.instance)
    requires r.instance in d.creates && r.instance !in d.removes && r.stage == RemoteOutcomeUnknown
    requires Registered(d, e, r.instance)
    ensures Told(d, [LinkRemove(r), SettleRemove(r.instance)], e)
    ensures var d' := ApplyAll(d, [LinkRemove(r), SettleRemove(r.instance)]);
      d' == d.(removes := d.removes[r.instance := Held(r, true)])
  {
    var d1 := Apply(d, LinkRemove(r));
    var d2 := Apply(d1, SettleRemove(r.instance));
    assert d2.removes == d.removes[r.instance := Held(r, true)];
    assert Confirmed(d, e, r.instance);
    StoryEdit(d, d1, r.instance, e);
    StoryEdit(d, d2, r.instance, e);
    Told2(d, LinkRemove(r), SettleRemove(r.instance), e);
  }

  lemma BeginTold(d: Disk, o: Obs, e: seq<Effect>)
    requires Inv(d) && Story(d, e)
    ensures var p := RemoveBeginPlan(d, o);
      && Told(d, p.writes, e)
      && (p.ok ==> Knows(Remove, 1, ApplyAll(d, p.writes), e))
    ensures var p := ReconcileBeginPlan(d, o);
      && Told(d, p.writes, e)
      && (p.ok ==> Knows(ReconcileCreate, 1, ApplyAll(d, p.writes), e))
  {
    var p := RemoveBeginPlan(d, o);
    if p.ok { IntentTold(d, p.writes[0].r, e); }
    var q := ReconcileBeginPlan(d, o);
    if q.ok { IntentTold(d, q.writes[0].r, e); }
  }

  lemma AdvanceTold(d: Disk, rcall: RCall, o: Obs, e: seq<Effect>)
    requires Inv(d) && Story(d, e) && rcall != Begin
    requires Current(d).Found? && LastOk(e, UnregisterCall, Current(d).rec)
    ensures var p := RemoveAdvancePlan(d, rcall, o);
      Told(d, p.writes, e) && (p.ok ==>
        var d' := ApplyAll(d, p.writes);
        && d'.active == d.active && d'.creates == d.creates
        && Current(d).rec in d'.removes && d'.removes[Current(d).rec].rec.stage != RemoteOutcomeUnknown)
  {
    assert InvAt(d, d.active.value.rec);
    var p := RemoveAdvancePlan(d, rcall, o);
    if p.ok {
      var r := p.writes[0].r;
      assert Confirmed(d, e, r.instance);
      StoryEdit(d, Apply(d, ReplaceRemove(r)), r.instance, e);
      Told1(d, p.writes[0], e);
      assert p.writes == [p.writes[0]];
    }
  }

  lemma RemoveTold(d: Disk, k: nat, rcall: RCall, adopt: Obs, o: Obs, newId: Instance, e: seq<Effect>)
    requires Inv(d) && Story(d, e)
    requires k < |Steps(Remove)| && Steps(Remove)[k] == Ask(AskRemove(rcall)) && Knows(Remove, k, d, e)
    ensures var p := RemoveStagePlan(d, rcall, adopt, o, newId);
      && Told(d, p.writes, e)
      && (p.ok ==> Knows(Remove, k + 1, ApplyAll(d, p.writes), e))
  {
    if rcall != Begin {
      AdvanceTold(d, rcall, o, e);
    } else {
      assert k == 0;
      if Current(d).Missing? {
        var p := AdoptPlan(d, adopt, newId);
        if p.ok {
          NewCycleTold(d, newId, adopt.held.dir, LegacyVerified, e);
          NewCycleLicensed(d, newId, adopt.held.dir, LegacyVerified);
          AllLicensedKeeps(d, p.writes);
          var d1 := ApplyAll(d, p.writes);
          assert Story(d1, e) by { EndTold(d, p.writes, e); }
          BeginTold(d1, o, e);
          ToldConcat(d, p.writes, RemoveBeginPlan(d1, o).writes, e);
        }
      } else {
        BeginTold(d, o, e);
      }
    }
  }

  lemma {:induction false} EndTold(d: Disk, ws: seq<Write>, e: seq<Effect>)
    requires Told(d, ws, e)
    ensures Story(ApplyAll(d, ws), e)
    decreases |ws|
  {
    if ws != [] { EndTold(Apply(d, ws[0]), ws[1..], e); }
  }

  lemma ReconcileTold(d: Disk, k: nat, rcall: RCall, o: Obs, e: seq<Effect>)
    requires Inv(d) && Story(d, e)
    requires k < |Steps(ReconcileCreate)| && Steps(ReconcileCreate)[k] == Ask(AskReconcile(rcall))
    requires Knows(ReconcileCreate, k, d, e)
    ensures var p := ReconcilePlan(d, rcall, o);
      && Told(d, p.writes, e)
      && (p.ok ==> Knows(ReconcileCreate, k + 1, ApplyAll(d, p.writes), e))
  {
    match rcall
    case Begin => BeginTold(d, o, e);
    case ConfirmRemoteRemoved => AdvanceTold(d, rcall, o, e);
    case Complete =>
      AdvanceTold(d, rcall, o, e);
      var p := RemoveAdvancePlan(d, rcall, o);
      if p.ok {
        var d1 := ApplyAll(d, p.writes);
        EndTold(d, p.writes, e);
        var q := ReconcilePlan(d, rcall, o);
        if q.ok {
          var w := q.writes[|p.writes|];
          assert q.writes == p.writes + [w];
          assert InvAt(d, w.c.instance) && InvAt(d, d.active.value.rec);
          assert Confirmed(d1, e, w.c.instance);
          ReplaceCreateTold(d1, w.c, e);
          ToldConcat(d, p.writes, [w], e);
        }
      }
  }

  lemma RequestTold(d: Disk, sc: Script, k: nat, req: Request, adopt: Obs, o: Obs, newId: Instance, e: seq<Effect>)
    requires Inv(d) && Story(d, e)
    requires k < |Steps(sc)| && Steps(sc)[k] == Ask(req) && Knows(sc, k, d, e)
    ensures var p := PlanOf(d, ToCall(req, adopt, o, newId));
      && Told(d, p.writes, e)
      && (p.ok ==> Knows(sc, k + 1, ApplyAll(d, p.writes), e))
  {
    hide Story, Inv;
    match req
    case AskStage(stage) => StageTold(d, k, stage, o.path, newId, e);
    case AskAttestation => AttestationsTold(d, o, o.path, e);
    case AskUnitAttestation => AttestationsTold(d, o, o.path, e);
    case AskRemove(rcall) => RemoveTold(d, k, rcall, adopt, o, newId, e);
    case AskReconcile(rcall) => ReconcileTold(d, k, rcall, o, e);
  }

  /* ------------------------------- The induction ----------------------------- */

  lemma StepKeeps(s: Host, l: Label)
    requires HostOk(s)
    ensures HostOk(Step(s, l))
  {
    hide Inv, Story, Licensed;
    match l
    case Launch(_) =>
    case AskRoot(adopt, obs, newId) =>
      if AtInstr(s.pc) && Steps(s.pc.script)[s.pc.k].Ask? {
        var req := Steps(s.pc.script)[s.pc.k].req;
        RequestTold(s.disk, s.pc.script, s.pc.k, req, adopt, obs, newId, s.effects);
        PlanLicensed(s.disk, ToCall(req, adopt, obs, newId));
      } else if s.pc.MarkUnknown? {
        UnknownTold(s.disk, obs.path, newId, s.effects);
        PlanLicensed(s.disk, CreateStage(OutcomeUnknown, obs.path, newId));
      }
    case RefuseRoot =>
    case WriteOne =>
      if s.pending != [] { LicensedKeepsInv(s.disk, s.pending[0]); }
    case Return =>
    case CallGitHub(outcome) => GitHubKeeps(s, outcome);
    case LocalStep(_) =>
    case Kill =>
  }

  lemma RegisterTold(d: Disk, e: seq<Effect>, outcome: Outcome)
    requires Inv(d) && Story(d, e) && Knows(Register, 1, d, e)
    ensures var x := Effect(RegisterCall, ActiveId(d), outcome);
      && Story(d, e + [x])
      && (outcome.Done? ==> Knows(Register, 2, d, e + [x]))
      && (outcome.Failed? ==> Unmarked(d, e + [x]))
  {
    var x := Effect(RegisterCall, ActiveId(d), outcome);
    forall j ensures Confirmed(d, e + [x], j) { assert Confirmed(d, e, j); }
  }

  lemma UnregisterTold(d: Disk, e: seq<Effect>, outcome: Outcome)
    requires Inv(d) && Story(d, e) && Knows(ReconcileCreate, 1, d, e)
    ensures var x := Effect(UnregisterCall, ActiveId(d), outcome);
      && Story(d, e + [x])
      && (outcome.Done? ==> Knows(Remove, 3, d, e + [x]) && Knows(ReconcileCreate, 2, d, e + [x]))
  {
    var x := Effect(UnregisterCall, ActiveId(d), outcome);
    forall j ensures Confirmed(d, e + [x], j) { assert Confirmed(d, e, j); }
    assert InvAt(d, d.active.value.rec);
  }

  lemma GitHubKeeps(s: Host, outcome: Outcome)
    requires HostOk(s)
    ensures HostOk(Step(s, CallGitHub(outcome)))
  {
    hide Inv, Story;
    if AtInstr(s.pc) && Steps(s.pc.script)[s.pc.k].GitHub? {
      if s.pc.script.Register? {
        RegisterTold(s.disk, s.effects, outcome);
      } else {
        UnregisterTold(s.disk, s.effects, outcome);
      }
    }
  }

  lemma {:induction false} HistoryKeeps(s: Host, history: seq<Label>)
    requires HostOk(s)
    ensures HostOk(Exec(s, history))
    decreases |history|
  {
    if history != [] {
      StepKeeps(s, history[0]);
      HistoryKeeps(Step(s, history[0]), history[1..]);
    }
  }
}
