/**
 * Execution of an admitted operation: every elementary effect it has on the
 * journal, the registration files, the Unit and systemd, in order. An operation
 * may stop after any of them, because a command failed or because it was killed.
 */
module Executor {
  import opened Wrappers
  import opened Journal
  import opened Names
  import opened Binding

  datatype Verb = StartUnit | StopUnit | DisableUnit | EnableUnit | ReloadUnits

  datatype Act =
    | Wrote(w: Write)             // one change of the slot's journal
    | Constrain                   // mode 0600 on .runner and .credentials
    | PublishWrapper              // runsvc.sh of the runner root
    | PublishUnit                 // the Unit file, never over another one
    | UnlinkUnit
    | Systemctl(verb: Verb)

  /** An effect, with the slot it works on and the service it names. */
  datatype Deed = Deed(slot: Slot, service: Option<string>, act: Act)

  /** One look of `validate_unit` at a Unit. */
  datatype UnitLook = UnitRefused | UnitAbsent | UnitPresent

  /** What an operation meets outside the journal. */
  datatype Env = Env(
    linked: bool,           // the directory is a symbolic link
    dirValid: bool,         // validate_runner_dir passes
    look: Look, adopt: Obs, obs: Obs, newId: Instance,
    filesSafe: bool,        // registration files pass the checks of normalize_new_registration
    provenance: bool,       // version, owner and wrapper digest equal the attested ones
    before: UnitLook, between: UnitLook,
    reached: nat)           // effects made before the operation stops

  function Writes(ws: seq<Write>, slot: Slot): seq<Deed> {
    seq(|ws|, i requires 0 <= i < |ws| => Deed(slot, None, Wrote(ws[i])))
  }

  /** `verify_service_install_provenance` */
  predicate InstallDue(d: Disk, e: Env) {
    match Current(d)
    case Found(a) =>
      var created := Read(d.creates, a);
      var att := Read(d.atts, a);
      && created.Found? && created.rec.stage == UnitIncomplete && created.rec.instance == a
      && att.Found? && att.rec.instance == a && att.rec.secure
      && e.look == Seen(created.rec.dir) && e.look == Seen(att.rec.dir)
      && e.provenance
    case _ => false
  }

  /** `normalize_new_registration`, up to the file checks. */
  predicate NormalizeDue(d: Disk, e: Env) {
    match Current(d)
    case Found(a) =>
      var state := Read(d.creates, a);
      state.Found? && state.rec.stage == PermissionIncomplete && e.look == Seen(state.rec.dir) && e.filesSafe
    case _ => false
  }

  const INSTALLATION := [PublishWrapper, PublishUnit, Systemctl(ReloadUnits), Systemctl(EnableUnit)]
  const REMOVAL := [Systemctl(DisableUnit), Systemctl(StopUnit), UnlinkUnit, Systemctl(ReloadUnits)]

  function DeedsOf(slot: Slot, service: Option<string>, acts: seq<Act>): seq<Deed> {
    seq(|acts|, i requires 0 <= i < |acts| => Deed(slot, service, acts[i]))
  }

  /** The effects of `Runtime.privileged` when nothing stops it early. */
  function Perform(d: Disk, a: Admitted, e: Env): seq<Deed> {
    var service := CanonicalService(a.slot.repository, a.slot.runner);
    if !e.dirValid then []
    else
      match a.kind
      case CreateState(stage) => Writes(PlanOf(d, CreateStage(stage, e.look, e.newId)).writes, a.slot)
      case Normalize => if NormalizeDue(d, e) then [Deed(a.slot, None, Constrain)] else []
      case AttestRegistration(_) => Writes(PlanOf(d, CreateAttestation(e.obs)).writes, a.slot)
      case RemoveState(rcall) =>
        if rcall != Begin && (service.None? || e.before != UnitAbsent) then []
        else Writes(PlanOf(d, RemoveStage(rcall, e.adopt, e.obs, e.newId)).writes, a.slot)
      case Install(_) =>
        if service.None? || !InstallDue(d, e) then []
        else
          DeedsOf(a.slot, service, INSTALLATION) +
          (if e.before == UnitPresent then Writes(PlanOf(d, CreateUnitAttestation(e.look)).writes, a.slot) else [])
      case Start(s) =>
        if Some(s) == service && e.before == UnitPresent then DeedsOf(a.slot, service, [Systemctl(StartUnit)]) else []
      case Stop(s) =>
        if Some(s) == service && e.before == UnitPresent then DeedsOf(a.slot, service, [Systemctl(StopUnit)]) else []
      case Uninstall(s) =>
        if Some(s) == service && e.before == UnitPresent then
          DeedsOf(a.slot, service, if e.between == UnitPresent then REMOVAL else REMOVAL[..2])
        else []
      case State(_) => []
  }

  function Cut<T>(s: seq<T>, n: nat): seq<T> {
    if n < |s| then s[..n] else s
  }

  function Do(w: World, x: Deed): World {
    if x.act.Wrote? then w[x.slot := Apply(JournalOf(w, x.slot), x.act.w)] else w
  }

  function DoAll(w: World, xs: seq<Deed>): World
    decreases |xs|
  {
    if xs == [] then w else DoAll(Do(w, xs[0]), xs[1..])
  }

  /** One frame of the child. */
  datatype Frame = Frame(payload: Payload, env: Env)

  function Answered(site: Site, tx: Transaction, w: World, f: Frame): seq<Deed>
    requires Hex(site.sha)
  {
    var a := Authorize(site, tx, w, f.payload, f.env.linked);
    if a.None? then [] else Cut(Perform(JournalOf(w, a.value.slot), a.value, f.env), f.env.reached)
  }

  /** Everything a transaction does, whatever frames its child sends. */
  function Trace(site: Site, tx: Transaction, w: World, frames: seq<Frame>): seq<Deed>
    requires Hex(site.sha)
    decreases |frames|
  {
    if frames == [] then []
    else
      var xs := Answered(site, tx, w, frames[0]);
      xs + Trace(site, tx, DoAll(w, xs), frames[1..])
  }

  lemma {:induction false} DoAllConcat(w: World, xs: seq<Deed>, ys: seq<Deed>)
    ensures DoAll(w, xs + ys) == DoAll(DoAll(w, xs), ys)
    decreases |xs|
  {
    if xs == [] {
      assert xs + ys == ys;
    } else {
      DoAllConcat(Do(w, xs[0]), xs[1..], ys);
      assert (xs + ys)[1..] == xs[1..] + ys;
    }
  }

  /* ------------------------------- The root process ---------------------------- */

  /** The state the root process changes, and the effects it has had. */
  class Root {
    var world: World
    var deeds: seq<Deed>
    var left: nat       // effects the operation under way can still make

    constructor ()
      ensures world == map[] && deeds == []
    {
      world, deeds, left := map[], [], 0;
    }

    /** What an operation that started at (w0, s0) with n effects to live has done. */
    ghost predicate Made(w0: World, s0: seq<Deed>, n: nat, xs: seq<Deed>)
      reads this
    {
      && deeds == s0 + Cut(xs, n) && world == DoAll(w0, Cut(xs, n))
      && left == n - |Cut(xs, n)|
    }

    method Effect(slot: Slot, service: Option<string>, act: Act) returns (alive: bool)
      modifies this
      ensures alive <==> old(left) > 0
      ensures Made(old(world), old(deeds), old(left), [Deed(slot, service, act)])
    {
      ghost var xs := [Deed(slot, service, act)];
      assert DoAll(world, []) == world && DoAll(world, xs) == Do(world, xs[0]);
      if left == 0 { return false; }
      left := left - 1;
      deeds := deeds + [Deed(slot, service, act)];
      if act.Wrote? { world := world[slot := Apply(JournalOf(world, slot), act.w)]; }
      alive := true;
    }

    /** Several effects, until one is not reached. */
    method Effects(slot: Slot, service: Option<string>, acts: seq<Act>) returns (alive: bool)
      modifies this
      ensures alive <==> old(left) >= |acts|
      ensures Made(old(world), old(deeds), old(left), DeedsOf(slot, service, acts))
    {
      ghost var xs := DeedsOf(slot, service, acts);
      ghost var w0, s0, n := world, deeds, left;
      var k := 0;
      while k < |acts|
        invariant k <= |acts| && k <= n
        invariant deeds == s0 + xs[..k] && world == DoAll(w0, xs[..k]) && left == n - k
      {
        ghost var w1 := world;
        alive := Effect(slot, service, acts[k]);
        if !alive {
          assert Cut([xs[k]], 0) == [];
          return;
        }
        assert xs[..k + 1] == xs[..k] + [xs[k]];
        DoAllConcat(w0, xs[..k], [xs[k]]);
        k := k + 1;
      }
      assert xs[..|acts|] == xs;
      alive := true;
    }

    /** The changes of a journal operation. */
    method Journal(slot: Slot, call: Call) returns (alive: bool)
      modifies this
      ensures var ws := PlanOf(JournalOf(old(world), slot), call).writes;
        && (alive <==> old(left) >= |ws|)
        && Made(old(world), old(deeds), old(left), Writes(ws, slot))
    {
      var ws := PlanOf(JournalOf(world, slot), call).writes;
      var acts := seq(|ws|, i requires 0 <= i < |ws| => Wrote(ws[i]));
      assert DeedsOf(slot, None, acts) == Writes(ws, slot);
      alive := Effects(slot, None, acts);
    }

    lemma NothingMade()
      ensures Made(world, deeds, left, [])
    {
    }

    lemma MadeWhole(w0: World, s0: seq<Deed>, n: nat, xs: seq<Deed>)
      requires Made(w0, s0, n, xs) && n >= |xs|
      ensures world == DoAll(w0, xs) && deeds == s0 + xs && left == n - |xs|
    {
    }

    lemma MadeCut(w0: World, s0: seq<Deed>, n: nat, xs: seq<Deed>, ys: seq<Deed>)
      requires Made(w0, s0, n, xs) && n < |xs|
      ensures Made(w0, s0, n, xs + ys)
    {
      CutConcat(xs, ys, n);
    }

    lemma MadeConcat(w0: World, s0: seq<Deed>, n: nat, xs: seq<Deed>, ys: seq<Deed>)
      requires n >= |xs| && Made(DoAll(w0, xs), s0 + xs, n - |xs|, ys)
      ensures Made(w0, s0, n, xs + ys)
    {
      hide DoAll, Do;
      var zs := Cut(ys, n - |xs|);
      CutConcat(xs, ys, n);
      hide Cut;
      DoAllConcat(w0, xs, zs);
      Assoc(s0, xs, zs);
    }

    /** `install_service` */
    method InstallService(a: Admitted, e: Env)
      requires a.kind.Install? && e.dirValid
      modifies this
      ensures Made(old(world), old(deeds), old(left), Perform(JournalOf(old(world), a.slot), a, e))
    {
      hide PlanOf, CanonicalService, InstallDue, DoAll;
      ghost var w0, s0, n := world, deeds, left;
      var d := JournalOf(world, a.slot);
      var service := CanonicalService(a.slot.repository, a.slot.runner);
      if !InstallDue(d, e) || service.None? {
        assert Perform(d, a, e) == [];
        NothingMade();
        return;
      }
      ghost var xs := DeedsOf(a.slot, service, INSTALLATION);
      ghost var ys := if e.before == UnitPresent then Writes(PlanOf(d, CreateUnitAttestation(e.look)).writes, a.slot) else [];
      assert Perform(d, a, e) == xs + ys;
      UnitDeedsKeepJournals(w0, xs);
      hide Perform, DeedsOf, Writes, Made, JournalOf;
      var alive := Effects(a.slot, service, INSTALLATION);
      if !alive {
        MadeCut(w0, s0, n, xs, ys);
        return;
      }
      MadeWhole(w0, s0, n, xs);
      if e.before == UnitPresent {
        alive := Journal(a.slot, CreateUnitAttestation(e.look));
      } else {
        NothingMade();
      }
      MadeConcat(w0, s0, n, xs, ys);
    }

    /** `Runtime.privileged` */
    method Privileged(a: Admitted, e: Env)
      modifies this
      ensures Made(old(world), old(deeds), old(left), Perform(JournalOf(old(world), a.slot), a, e))
    {
      assert Made(world, deeds, left, []);
      if !e.dirValid { return; }
      var service := CanonicalService(a.slot.repository, a.slot.runner);
      var alive;
      match a.kind {
        case CreateState(stage) => alive := Journal(a.slot, CreateStage(stage, e.look, e.newId));
        case Normalize =>
          if NormalizeDue(JournalOf(world, a.slot), e) { alive := Effect(a.slot, None, Constrain); }
        case AttestRegistration(_) => alive := Journal(a.slot, CreateAttestation(e.obs));
        case RemoveState(rcall) =>
          if rcall == ConfirmRemoteRemoved || rcall == Complete {
            if service.None? || e.before != UnitAbsent { return; }
          }
          alive := Journal(a.slot, RemoveStage(rcall, e.adopt, e.obs, e.newId));
        case Install(_) => InstallService(a, e);
        case Start(_) => ServiceAction(a, e);
        case Stop(_) => ServiceAction(a, e);
        case State(_) =>
        case Uninstall(_) => ServiceAction(a, e);
      }
    }

    method ServiceAction(a: Admitted, e: Env)
      requires (a.kind.Start? || a.kind.Stop? || a.kind.Uninstall?) && e.dirValid
      modifies this
      ensures Made(old(world), old(deeds), old(left), Perform(JournalOf(old(world), a.slot), a, e))
    {
      hide PlanOf, CanonicalService;
      ghost var w0, s0, n := world, deeds, left;
      ghost var xs := Perform(JournalOf(world, a.slot), a, e);
      var service := ServiceIn(a.kind);
      if service != CanonicalService(a.slot.repository, a.slot.runner) || e.before != UnitPresent { return; }
      var alive;
      if a.kind.Start? {
        alive := Effects(a.slot, service, [Systemctl(StartUnit)]);
        return;
      }
      if a.kind.Stop? {
        alive := Effects(a.slot, service, [Systemctl(StopUnit)]);
        return;
      }
      // Disable and stop; look again; only then unlink the Unit and reload.
      alive := Effects(a.slot, service, REMOVAL[..2]);
      ghost var us := DeedsOf(a.slot, service, REMOVAL[..2]);
      if e.between != UnitPresent { return; }
      ghost var vs := DeedsOf(a.slot, service, REMOVAL[2..]);
      assert xs == us + vs;
      CutConcat(us, vs, n);
      if !alive { return; }
      alive := Effects(a.slot, service, REMOVAL[2..]);
      DoAllConcat(w0, us, Cut(vs, n - 2));
    }

    /** `handle_root_request`: authorise the frame, then perform it. */
    method Handle(site: Site, tx: Transaction, f: Frame) returns (rejected: bool)
      requires Hex(site.sha)
      modifies this
      ensures rejected <==> Authorize(site, tx, old(world), f.payload, f.env.linked).None?
      ensures deeds == old(deeds) + Answered(site, tx, old(world), f)
      ensures world == DoAll(old(world), Answered(site, tx, old(world), f))
    {
      var a := Authorize(site, tx, world, f.payload, f.env.linked);
      if a.None? { return true; }
      left := f.env.reached;
      Privileged(a.value, f.env);
      rejected := false;
    }

    /** All frames of one transaction, in the order they arrive. */
    method Serve(site: Site, tx: Transaction, frames: seq<Frame>)
      requires Hex(site.sha)
      modifies this
      ensures deeds == old(deeds) + Trace(site, tx, old(world), frames)
      ensures world == DoAll(old(world), Trace(site, tx, old(world), frames))
    {
      hide Answered, Authorize;
      assert deeds + [] == deeds && DoAll(world, []) == world;
      if frames == [] { return; }
      ghost var w0, s0 := world, deeds;
      ghost var xs := Answered(site, tx, world, frames[0]);
      var rejected := Handle(site, tx, frames[0]);
      ghost var rest := Trace(site, tx, world, frames[1..]);
      Serve(site, tx, frames[1..]);
      DoAllConcat(w0, xs, rest);
      assert s0 + xs + rest == s0 + (xs + rest);
    }
  }

  lemma Assoc<T>(a: seq<T>, b: seq<T>, c: seq<T>)
    ensures (a + b) + c == a + (b + c)
  {
  }

  lemma CutConcat<T>(xs: seq<T>, ys: seq<T>, n: nat)
    ensures Cut(xs + ys, n) == if n < |xs| then Cut(xs, n) else xs + Cut(ys, n - |xs|)
  {
  }

  lemma {:induction false} UnitDeedsKeepJournals(w: World, xs: seq<Deed>)
    requires forall k :: 0 <= k < |xs| ==> !xs[k].act.Wrote?
    ensures DoAll(w, xs) == w
    decreases |xs|
  {
    if xs != [] { UnitDeedsKeepJournals(w, xs[1..]); }
  }
}
