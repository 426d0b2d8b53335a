/**
 * The first installation: stages that install objects one by one and record each
 * finished stage, and the administrator credential, whose bytes are journaled
 * before they are published. A run may be killed before any change, and the
 * object being written is then torn; a later run resumes.
 */
module Installer {
  import opened Wrappers

  datatype Identity = Identity(release: string, sha: string, user: string, uid: nat, gid: nat, home: string)

  datatype Object =
    | InstallRoot | CliRoot | WebRoot | CliFile(k: nat) | WebFile(k: nat)
    | WebUser | LockRoot | LockFile | LogRoot | OperationalLock | OperationalLog
    | ArchiveRoot | HooksDir | HookFile | ArchiveCommon | ConfigRoot | ArchiveConf
    | ExecutorUnit | WebConf | WebUnit

  /** An object's bytes and metadata together: what a run of this identity, with
      this bind address, expects; or something else. */
  datatype Content = Wanted(id: Identity, bind: nat, object: Object) | Torn

  const STARTED: nat := 1
  const EXECUTOR_INSTALLED: nat := 5
  const WEB_INSTALLED: nat := 6
  const COMPLETE: nat := 9

  const CLI_FILES: nat := 6

  /** The objects of a stage, in the order they are installed. */
  function Objects(rank: nat, webFiles: nat): seq<Object> {
    match rank
    case 2 =>
      [InstallRoot, CliRoot, WebRoot]
      + seq(CLI_FILES, i requires i >= 0 => CliFile(i)) + seq(webFiles, i requires i >= 0 => WebFile(i))
    case 3 => [WebUser, LockRoot, LockFile, LogRoot, OperationalLock, OperationalLog]
    case 4 => [ArchiveRoot, HooksDir, HookFile, ArchiveCommon, ConfigRoot, ArchiveConf]
    case 5 => [ExecutorUnit]
    case 6 => [ConfigRoot, WebConf, WebUnit]
    case _ => []
  }

  /** The object belongs to some stage. */
  predicate Planned(o: Object, webFiles: nat) {
    exists r :: 2 <= r <= WEB_INSTALLED && o in Objects(r, webFiles)
  }

  lemma IsPlanned(rank: nat, webFiles: nat, o: Object)
    requires 2 <= rank <= WEB_INSTALLED && o in Objects(rank, webFiles)
    ensures Planned(o, webFiles)
  {
    hide Objects;
  }

  /** The objects of a whole installation. */
  predicate Belongs(o: Object, webFiles: nat) {
    (o.CliFile? ==> o.k < 6) && (o.WebFile? ==> o.k < webFiles)
  }

  /** Every object of an installation is installed by some stage, and nothing else. */
  lemma EveryObjectIsPlanned(o: Object, webFiles: nat)
    ensures Planned(o, webFiles) <==> Belongs(o, webFiles)
  {
    if Belongs(o, webFiles) {
      var r := StageOf(o);
      InItsStage(o, webFiles);
      IsPlanned(r, webFiles, o);
    }
  }

  function StageOf(o: Object): nat {
    match o
    case InstallRoot => 2 case CliRoot => 2 case WebRoot => 2 case CliFile(_) => 2 case WebFile(_) => 2
    case WebUser => 3 case LockRoot => 3 case LockFile => 3 case LogRoot => 3 case OperationalLock => 3 case OperationalLog => 3
    case ArchiveRoot => 4 case HooksDir => 4 case HookFile => 4 case ArchiveCommon => 4 case ConfigRoot => 4 case ArchiveConf => 4
    case ExecutorUnit => 5
    case WebConf => 6 case WebUnit => 6
  }

  lemma InItsStage(o: Object, webFiles: nat)
    requires Belongs(o, webFiles)
    ensures o in Objects(StageOf(o), webFiles)
  {
    var os := Objects(StageOf(o), webFiles);
    if o.CliFile? { assert os[3 + o.k] == o; }
    if o.WebFile? { assert os[9 + o.k] == o; }
  }

  lemma WebObjects(webFiles: nat)
    ensures Objects(WEB_INSTALLED, webFiles) == [ConfigRoot, WebConf] + [WebUnit]
    ensures forall o :: o in [ConfigRoot, WebConf] || o in [WebUnit] ==> o in Objects(WEB_INSTALLED, webFiles)
  {
  }

  lemma LastObjects(r: nat, webFiles: nat)
    requires r > WEB_INSTALLED
    ensures Objects(r, webFiles) == []
  {
  }

  datatype Record = Record(id: Identity, attempt: nat, bind: nat, rank: nat)

  datatype Journal = Entry(attempt: nat, release: string, sha: string, auth: string) | TornEntry

  /** `sealed` means owner and mode are set. */
  datatype Credential = Credential(auth: string, sealed: bool)

  datatype Status = Done | Died | Killed

  class Host {
    const webFiles: nat
    const wellFormed: string -> bool        // the shape of a scrypt line
    const tears: Object -> bool             // whether a killed copy leaves something behind
    const works: nat -> bool                // services, smoke test and assigned address, stage by stage

    var record: Option<Record>
    var objects: map<Object, Content>
    var strays: bool                        // temporary state files of killed runs
    var journal: Option<Journal>
    var credential: Option<Credential>
    var budget: nat                         // changes left before the run is killed
    ghost var first: Option<string>         // the bytes first journaled whole

    constructor (webFiles: nat, wellFormed: string -> bool, tears: Object -> bool, works: nat -> bool)
      ensures Valid() && record.None?
      ensures this.webFiles == webFiles && this.wellFormed == wellFormed && this.tears == tears && this.works == works
    {
      this.webFiles, this.wellFormed, this.tears, this.works := webFiles, wellFormed, tears, works;
      record, objects, strays, journal, credential, budget, first := None, map[], false, None, None, 0, None;
    }

    predicate AllInPlace(os: seq<Object>, id: Identity, bind: nat)
      reads this`objects
    {
      forall k :: 0 <= k < |os| ==> os[k] in objects && objects[os[k]] == Wanted(id, bind, os[k])
    }

    /** The credential is published and is what this attempt journaled first. */
    ghost predicate Published(id: Identity, attempt: nat)
      reads this`journal, this`first, this`credential
    {
      && journal.Some? && journal.value.Entry?
      && journal.value.attempt == attempt && journal.value.release == id.release && journal.value.sha == id.sha
      && first == Some(journal.value.auth)
      && credential == Some(Credential(journal.value.auth, true))
    }

    /** A recorded stage means that everything of the stages up to it is in place. */
    ghost predicate Recorded()
      reads this
    {
      record.Some? ==>
        && STARTED <= record.value.rank <= COMPLETE
        && (forall r :: 2 <= r <= record.value.rank ==> AllInPlace(Objects(r, webFiles), record.value.id, record.value.bind))
        && (record.value.rank >= WEB_INSTALLED ==> Published(record.value.id, record.value.attempt))
    }

    /** Nothing else is there: what exists belongs to the recorded attempt or is torn. */
    ghost predicate Traced()
      reads this
    {
      && (record.None? ==> objects == map[] && journal.None? && credential.None?)
      && (record.Some? ==>
            && (forall o :: o in objects ==> objects[o] in {Wanted(record.value.id, record.value.bind, o), Torn} && Planned(o, webFiles))
            && (record.value.rank < EXECUTOR_INSTALLED ==> journal.None?)
            && (journal.Some? && journal.value.Entry? ==>
                  && journal.value.attempt == record.value.attempt && wellFormed(journal.value.auth)
                  && journal.value.release == record.value.id.release && journal.value.sha == record.value.id.sha))
      && (journal.Some? && journal.value.Entry? <==> first.Some?)
      && (first.Some? ==> first == Some(journal.value.auth))
      && (credential.Some? ==> first.Some? && (credential.value.sealed ==> credential.value.auth in {"", first.value}))
    }

    ghost predicate Valid()
      reads this
    {
      Recorded() && Traced()
    }

    /** The damage a kill can do that no later run repairs. */
    ghost predicate Blocked()
      reads this
    {
      || (exists o :: o in objects && objects[o] == Torn)
      || journal == Some(TornEntry)
      || (credential.Some? && first.Some? && credential != Some(Credential(first.value, true)))
      || (strays && (record.None? || record.value.rank >= WEB_INSTALLED))
    }

    /* ------------------------------ Single changes ---------------------------- */

    /** `checked_install`, `checked_directory` and account creation: an object that
        exists must be right, a missing one is made. */
    method CheckedInstall(o: Object, id: Identity, bind: nat) returns (st: Status)
      modifies this`objects, this`budget
      ensures old(o in objects && objects[o] == Wanted(id, bind, o)) ==> st == Done && objects == old(objects) && budget == old(budget)
      ensures old(o in objects && objects[o] != Wanted(id, bind, o)) ==> st == Died && objects == old(objects) && budget == old(budget)
      ensures old(o !in objects && budget > 0) ==>
                st == Done && objects == old(objects)[o := Wanted(id, bind, o)] && budget == old(budget) - 1
      ensures old(o !in objects && budget == 0) ==> st == Killed && objects in {old(objects), old(objects)[o := Torn]} && budget == 0
    {
      if o in objects { return if objects[o] == Wanted(id, bind, o) then Done else Died; }
      if budget == 0 {
        if tears(o) { objects := objects[o := Torn]; }
        return Killed;
      }
      budget := budget - 1;
      objects := objects[o := Wanted(id, bind, o)];
      st := Done;
    }

    /** `write_state`: a temporary file, then a rename over the record. */
    method WriteState(r: Record) returns (st: Status)
      modifies this`record, this`strays, this`budget
      ensures if old(budget) >= 2 then st == Done && record == Some(r) && strays == old(strays) && budget == old(budget) - 2
              else st == Killed && record == old(record) && (old(strays) ==> strays)
    {
      if budget == 0 { return Killed; }
      budget := budget - 1;
      var before := strays;
      strays := true;
      if budget == 0 { return Killed; }
      budget := budget - 1;
      record, strays := Some(r), before;
      st := Done;
    }

    /* ------------------------------- The credential --------------------------- */

    /** `prepare`: only when neither credential nor journal exists. */
    method Prepare(id: Identity, attempt: nat, auth: string) returns (st: Status)
      modifies this`journal, this`first, this`budget
      ensures old(journal.Some? || credential.Some?) || !wellFormed(auth) ==> st == Died && journal == old(journal) && first == old(first)
      ensures old(journal.None? && credential.None?) && wellFormed(auth) ==>
                && st != Died
                && (st.Done? ==> journal == Some(Entry(attempt, id.release, id.sha, auth)) && first == Some(auth))
                && (st.Killed? ==> journal in {None, Some(TornEntry)} && first == old(first))
                && (old(budget) >= 2 ==> st.Done?)
      ensures budget + 2 >= old(budget) >= budget
    {
      if credential.Some? || journal.Some? || !wellFormed(auth) { return Died; }
      if budget == 0 { return Killed; }
      budget := budget - 1;
      journal := Some(TornEntry);
      if budget == 0 { return Killed; }
      budget := budget - 1;
      journal, first := Some(Entry(attempt, id.release, id.sha, auth)), Some(auth);
      st := Done;
    }

    /** `load` */
    function Loaded(id: Identity, attempt: nat): Option<string>
      reads this
    {
      match journal
      case Some(Entry(a, release, sha, auth)) =>
        if a == attempt && release == id.release && sha == id.sha && wellFormed(auth) then Some(auth) else None
      case _ => None
    }

    /** `publish` and `verify`: what they accept is what was journaled first. */
    method Publish(id: Identity, attempt: nat, verifyOnly: bool) returns (st: Status)
      requires journal.Some? && journal.value.Entry? ==> first == Some(journal.value.auth)
      modifies this`credential, this`budget
      ensures st.Done? ==> Published(id, attempt)
      ensures st.Died? ==> credential == old(credential)
      ensures old(Loaded(id, attempt).None?) ==> st.Died?
      ensures old(Loaded(id, attempt).Some? && credential.Some?) ==>
                && (st == if credential == Some(Credential(Loaded(id, attempt).value, true)) then Done else Died)
                && credential == old(credential)
      ensures old(Loaded(id, attempt).Some? && credential.None?) ==>
                && (verifyOnly ==> st.Died?)
                && (!verifyOnly ==> st != Died && (old(budget) >= 3 ==> st.Done?))
      ensures credential.Some? && credential != old(credential) ==>
                Loaded(id, attempt).Some? && (credential.value.sealed ==> credential.value.auth in {"", Loaded(id, attempt).value})
      ensures budget + 3 >= old(budget) >= budget
      ensures verifyOnly || old(credential.Some?) ==> budget == old(budget) && credential == old(credential)
    {
      var expected := Loaded(id, attempt);
      if expected.None? { return Died; }
      if credential.Some? { return if credential.value == Credential(expected.value, true) then Done else Died; }
      if verifyOnly { return Died; }
      if budget == 0 { return Killed; }
      budget := budget - 1;
      credential := Some(Credential("", false));
      if budget == 0 { return Killed; }
      budget := budget - 1;
      credential := Some(Credential("", true));
      if budget == 0 { return Killed; }
      budget := budget - 1;
      credential := Some(Credential(expected.value, true));
      st := if credential.value == Credential(expected.value, true) then Done else Died;
    }

    /* ---------------------------------- Stages -------------------------------- */

    /** What every part of a run keeps of what it finds. */
    twostate predicate Keeps()
      reads this
    {
      && Valid()
      && (forall o :: o in old(objects) ==> o in objects && objects[o] == old(objects)[o])
      && (old(journal).Some? ==> journal == old(journal))
      && (old(credential).Some? ==> credential == old(credential))
      && (old(first).Some? ==> first == old(first))
      && (old(record).Some? ==> record.Some? && record.value.(rank := old(record).value.rank) == old(record).value
                                && old(record).value.rank <= record.value.rank)
    }

    ghost predicate Whole()
      reads this
    {
      && (forall o :: o in objects ==> objects[o] != Torn)
      && journal != Some(TornEntry)
      && (credential.Some? ==> first.Some? && credential == Some(Credential(first.value, true)))
    }

    method InstallOne(o: Object) returns (st: Status)
      requires Valid() && record.Some? && Planned(o, webFiles)
      modifies this`objects, this`budget
      ensures Keeps()
      ensures st.Done? ==> o in objects && objects[o] == Wanted(record.value.id, record.value.bind, o)
      ensures old(Whole()) && old(budget) >= 1 ==> st.Done? && Whole() && budget + 1 >= old(budget)
    {
      hide Objects, Planned, Published;
      st := CheckedInstall(o, record.value.id, record.value.bind);
      assert forall p :: p in old(objects) ==> p in objects && objects[p] == old(objects)[p];
      StillRecorded();
    }

    twostate lemma StillRecorded()
      requires old(Recorded()) && record == old(record) && journal == old(journal) && credential == old(credential) && first == old(first)
      requires forall p :: p in old(objects) ==> p in objects && objects[p] == old(objects)[p]
      ensures Recorded()
    {
      hide Objects;
      if record.Some? {
        forall r | 2 <= r <= record.value.rank ensures AllInPlace(Objects(r, webFiles), record.value.id, record.value.bind) {
          assert old(AllInPlace(Objects(r, webFiles), record.value.id, record.value.bind));
        }
      }
    }

    /** Installs objects one by one; what was done before stays in place. */
    method InstallAll(os: seq<Object>, rank: nat, ghost done: seq<Object>) returns (st: Status)
      requires Valid() && record.Some? && 2 <= rank <= WEB_INSTALLED && forall o :: o in os ==> o in Objects(rank, webFiles)
      requires AllInPlace(done, record.value.id, record.value.bind)
      modifies this`objects, this`budget
      ensures Keeps()
      ensures st.Done? ==> AllInPlace(done + os, record.value.id, record.value.bind)
      ensures old(Whole()) && old(budget) >= |os| ==> st.Done? && Whole() && budget + |os| >= old(budget)
    {
      hide Objects, Planned, Published, Recorded, Traced, Whole;
      var id, bind := record.value.id, record.value.bind;
      for k := 0 to |os|
        invariant Keeps()
        invariant AllInPlace(done + os[..k], id, bind)
        invariant old(Whole()) && old(budget) >= |os| ==> Whole() && budget + k >= old(budget)
      {
        IsPlanned(rank, webFiles, os[k]);
        st := InstallOne(os[k]);
        if !st.Done? { return; }
        assert done + os[..k + 1] == (done + os[..k]) + [os[k]];
      }
      assert os[..|os|] == os;
      st := Done;
    }

    /** Journal first, credential second; an unknown credential is never adopted. */
    method Authenticate(auth: Option<string>) returns (st: Status)
      requires Valid() && record.Some? && EXECUTOR_INSTALLED <= record.value.rank < WEB_INSTALLED
      modifies this`journal, this`credential, this`first, this`budget
      ensures Keeps()
      ensures st.Done? ==> Published(record.value.id, record.value.attempt)
      ensures old(Whole()) && old(budget) >= 5 && (old(first).Some? || (auth.Some? && wellFormed(auth.value)))
        ==> st.Done? && Whole() && budget + 5 >= old(budget)
    {
      hide Objects, AllInPlace, Planned;
      var id, attempt := record.value.id, record.value.attempt;
      if journal.Some? {
        st := Publish(id, attempt, false);
        return;
      }
      if credential.Some? || auth.None? { return Died; }
      st := Prepare(id, attempt, auth.value);
      if !st.Done? { return; }
      st := Publish(id, attempt, false);
    }

    /** The objects a stage has not recorded yet, with the credential in between. */
    method Install(r: nat, auth: Option<string>) returns (st: Status)
      requires Valid() && record.Some? && 2 <= r <= 8 && record.value.rank == r - 1
      modifies this
      ensures Keeps()
      ensures st.Done? ==> AllInPlace(Objects(r, webFiles), record.value.id, record.value.bind)
      ensures st.Done? && r >= WEB_INSTALLED ==> Published(record.value.id, record.value.attempt)
      ensures record == old(record) && strays == old(strays)
      ensures old(Whole()) && old(budget) >= |Objects(r, webFiles)| + 5 && (old(first).Some? || (auth.Some? && wellFormed(auth.value)))
        ==> st.Done? && Whole() && budget + |Objects(r, webFiles)| + 5 >= old(budget)
    {
      hide Objects, Traced, Whole, Published;
      if r > WEB_INSTALLED {
        LastObjects(r, webFiles);
        return Done;
      }
      hide Recorded;
      assert AllInPlace([], record.value.id, record.value.bind);
      if r == WEB_INSTALLED {
        WebObjects(webFiles);
        assert [] + [ConfigRoot, WebConf] == [ConfigRoot, WebConf];
        hide AllInPlace;
        st := InstallAll([ConfigRoot, WebConf], 6, []);
        if !st.Done? { return; }
        st := Authenticate(auth);
        if !st.Done? { return; }
        st := InstallAll([WebUnit], 6, [ConfigRoot, WebConf]);
        return;
      }
      hide AllInPlace;
      assert [] + Objects(r, webFiles) == Objects(r, webFiles);
      st := InstallAll(Objects(r, webFiles), r, []);
    }

    /** A recorded stage is verified again. */
    method VerifyStage(r: nat) returns (st: Status)
      requires Valid() && record.Some? && 2 <= r <= 8 && r <= record.value.rank < COMPLETE
      modifies this`credential, this`budget
      ensures Keeps() && !st.Killed?
      ensures st.Done? && r == WEB_INSTALLED ==> !strays
      ensures old(Whole()) ==> Whole() && budget == old(budget)
      ensures old(Whole()) && works(r) && !(r == WEB_INSTALLED && strays) ==> st.Done?
    {
      hide Objects;
      assert AllInPlace(Objects(r, webFiles), record.value.id, record.value.bind);
      if !AllInPlace(Objects(r, webFiles), record.value.id, record.value.bind) { return Died; }
      if r == WEB_INSTALLED {
        assert Published(record.value.id, record.value.attempt);
        if strays { return Died; }
        st := Publish(record.value.id, record.value.attempt, true);
        return;
      }
      if r > WEB_INSTALLED && !works(r) { return Died; }
      st := Done;
    }

    /** Records a stage whose objects are all in place. */
    method Advance(r: nat) returns (st: Status)
      requires Valid() && record.Some? && 2 <= r <= COMPLETE && record.value.rank == r - 1
      requires AllInPlace(Objects(r, webFiles), record.value.id, record.value.bind)
      requires r >= WEB_INSTALLED ==> Published(record.value.id, record.value.attempt)
      modifies this`record, this`strays, this`budget
      ensures Keeps()
      ensures st.Done? ==> record == Some(old(record.value).(rank := r)) && strays == old(strays)
      ensures !st.Done? ==> st.Killed? && (old(strays) ==> strays)
      ensures old(Whole()) ==> Whole()
      ensures old(budget) >= 2 ==> st.Done? && budget == old(budget) - 2
    {
      hide Objects;
      var before := record.value;
      st := WriteState(record.value.(rank := r));
      if st.Done? {
        forall q | 2 <= q <= r ensures AllInPlace(Objects(q, webFiles), record.value.id, record.value.bind) {
          if q < r { assert old(AllInPlace(Objects(q, webFiles), record.value.id, record.value.bind)); }
        }
        assert Recorded();
      }
    }

    /** One stage: verify what is recorded, or install it and record it. */
    method Stage(r: nat, auth: Option<string>) returns (st: Status)
      requires Valid() && record.Some? && 2 <= r <= 8 && r - 1 <= record.value.rank < COMPLETE
      modifies this
      ensures Keeps()
      ensures st.Done? ==> record == Some(old(record.value).(rank := if old(record.value.rank) >= r then old(record.value.rank) else r))
      ensures st.Done? && old(record.value.rank) >= WEB_INSTALLED && r == WEB_INSTALLED ==> !old(strays)
      ensures !st.Killed? ==> strays == old(strays)
      ensures old(strays) ==> strays
      ensures old(Whole()) && works(r) && old(budget) >= Cost(r) && (old(first).Some? || (auth.Some? && wellFormed(auth.value)))
        && !(old(record.value.rank) >= WEB_INSTALLED && r == WEB_INSTALLED && old(strays))
        ==> st.Done? && Whole() && budget + Cost(r) >= old(budget)
    {
      hide Objects, Whole, Published, Recorded, Traced;
      if record.value.rank >= r {
        st := VerifyStage(r);
        return;
      }
      st := Install(r, auth);
      if !st.Done? { return; }
      if r > WEB_INSTALLED && !works(r) { return Died; }
      st := Advance(r);
    }

    ghost function Cost(r: nat): nat { |Objects(r, webFiles)| + 7 }

    /** What stages r to 8 and the last record cost at most. */
    ghost function Need(r: nat): nat
      decreases 9 - r
    {
      if r > 8 then 2 else Cost(r) + Need(r + 1)
    }

    predicate Untracked()
      reads this
    {
      objects == map[] && journal.None? && credential.None? && !strays
    }

    /** The first record of an attempt. */
    method Begin(r: Record) returns (st: Status)
      requires Valid() && record.None? && Untracked() && r.rank == STARTED
      modifies this`record, this`strays, this`budget
      ensures Keeps()
      ensures st.Done? ==> record == Some(r) && !strays
      ensures !st.Done? ==> st.Killed?
      ensures old(Whole()) ==> Whole()
      ensures old(budget) >= 2 ==> st.Done? && budget == old(budget) - 2
    {
      hide Objects;
      st := WriteState(r);
    }

    lemma Undamaged()
      requires Valid()
      ensures Blocked() <==> !Whole() || (strays && (record.None? || record.value.rank >= WEB_INSTALLED))
    {
      hide Objects;
    }

    lemma CompleteIsWhole()
      requires Valid() && record.Some? && record.value.rank == COMPLETE
      ensures Whole()
    {
      hide Objects;
      forall o | o in objects ensures objects[o] != Torn {
        assert Planned(o, webFiles);
        var r :| 2 <= r <= WEB_INSTALLED && o in Objects(r, webFiles);
        assert AllInPlace(Objects(r, webFiles), record.value.id, record.value.bind);
      }
    }

    lemma CompleteHasAll()
      requires Valid() && record.Some? && record.value.rank == COMPLETE
      ensures Published(record.value.id, record.value.attempt)
      ensures forall o :: Belongs(o, webFiles) ==> o in objects && objects[o] == Wanted(record.value.id, record.value.bind, o)
    {
      hide Objects, Published, Traced;
      forall o | Belongs(o, webFiles)
        ensures o in objects && objects[o] == Wanted(record.value.id, record.value.bind, o)
      {
        InItsStage(o, webFiles);
        assert AllInPlace(Objects(StageOf(o), webFiles), record.value.id, record.value.bind);
      }
    }

    /** Damage is never repaired. */
    twostate lemma DamageStays()
      requires old(Valid()) && Keeps() && Whole()
      ensures old(Whole())
    {
      hide Recorded;
    }

    lemma LastStage()
      requires Valid() && record.Some? && record.value.rank == 8
      ensures AllInPlace(Objects(COMPLETE, webFiles), record.value.id, record.value.bind)
      ensures Published(record.value.id, record.value.attempt)
    {
    }

    /** The stages from the first that is not recorded to the last record. */
    method Stages(auth: Option<string>) returns (st: Status)
      requires Valid() && record.Some? && STARTED <= record.value.rank < COMPLETE
      modifies this
      ensures Keeps()
      ensures st.Done? ==> record == Some(old(record.value).(rank := COMPLETE)) && Whole()
      ensures st.Done? && old(record.value.rank) >= WEB_INSTALLED ==> !old(strays)
      ensures old(Whole()) && (forall k :: works(k)) && (old(first).Some? || (auth.Some? && wellFormed(auth.value)))
        && old(budget) >= Need(2) && !(old(record.value.rank) >= WEB_INSTALLED && old(strays))
        ==> st.Done?
    {
      hide Objects, Published, Whole, Cost, AllInPlace, Recorded, Traced;
      ghost var resumedAt := record.value.rank;
      ghost var fine := old(Whole()) && (forall k :: works(k)) && (old(first).Some? || (auth.Some? && wellFormed(auth.value)))
        && old(budget) >= Need(2) && !(resumedAt >= WEB_INSTALLED && old(strays));
      for r := 2 to 9
        invariant Keeps() && record.Some? && record.value == old(record.value).(rank := if resumedAt >= r then resumedAt else r - 1)
        invariant strays == old(strays)
        invariant fine ==> Whole() && budget >= Need(r)
        invariant r > WEB_INSTALLED && resumedAt >= WEB_INSTALLED ==> !old(strays)
      {
        st := Stage(r, auth);
        if !st.Done? { return; }
      }
      LastStage();
      st := Advance(COMPLETE);
      if st.Done? { CompleteIsWhole(); }
    }

    /** The whole script. A run for another identity, or after completion, changes
        nothing; what was recorded stays; and a run that nothing kills, whose
        services work, completes exactly when no earlier kill left damage behind. */
    method Run(id: Identity, lan: nat, attempt: nat, auth: Option<string>) returns (st: Status)
      requires Valid()
      modifies this
      ensures Keeps()
      ensures old(record.Some? && (record.value.id != id || record.value.rank == COMPLETE)) ==>
                && st.Died? && record == old(record) && objects == old(objects) && strays == old(strays)
                && journal == old(journal) && credential == old(credential)
      ensures st.Done? ==> record.Some? && record.value.id == id && record.value.rank == COMPLETE
      ensures st.Done? ==> record.value == if old(record.Some?) then old(record.value).(rank := COMPLETE) else Record(id, attempt, lan, COMPLETE)
      ensures st.Done? ==>
                && Published(id, record.value.attempt)
                && forall o :: Belongs(o, webFiles) ==> o in objects && objects[o] == Wanted(id, record.value.bind, o)
      ensures old(record.None? || (record.value.id == id && record.value.rank < COMPLETE))
        && (forall k :: works(k)) && (old(first).Some? || (auth.Some? && wellFormed(auth.value))) && old(budget) >= Need(2) + 2
        ==> (st.Done? <==> !old(Blocked()))
    {
      hide Objects, Published, Whole, Cost, AllInPlace;
      Undamaged();
      hide Blocked, Need;
      if record.Some? {
        if record.value.id != id || record.value.rank == COMPLETE { return Died; }
        if record.value.rank < EXECUTOR_INSTALLED && journal.Some? { return Died; }
      } else {
        if !Untracked() { return Died; }
        st := Begin(Record(id, attempt, lan, STARTED));
        if !st.Done? { return; }
      }
      if !works(1) { return Died; }
      hide Recorded, Traced;
      st := Stages(auth);
      if st.Done? {
        DamageStays();
        CompleteHasAll();
      }
    }
  }
}
