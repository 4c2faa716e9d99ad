/** What holds of the gate and of the administrator session over every run. */
module AdminSessionSafety {
  import opened Outcomes
  import opened Accounts
  import opened Authority
  import opened GateSession
  import opened AdminSession
  import opened AdminSessionHistory
  import opened AdminSessionConduct

  // -- the history ------------------------------------------------------------------------------

  ghost predicate TypedAt(log: seq<Entry>, moment: int) {
    exists v :: GateTyped(moment, v) in log
  }

  /** Nothing in the history is from the future, no two gate passwords were typed at one moment, and every
      personal password was proved behind a gate whose password had been typed before. */
  ghost predicate Chronicle(log: seq<Entry>, clock: int) {
    && (forall e :: e in log ==> e.at <= clock)
    && (forall e, f :: e in log && f in log && e.GateTyped? && f.GateTyped? && e.at == f.at ==> e == f)
    && (forall e :: e in log && e.PasswordProved? ==> e.gate.At? && e.gate.moment < e.at && TypedAt(log, e.gate.moment))
  }

  function LastBound(log: seq<Entry>): Option<Entry> {
    if log == [] then None
    else if log[|log| - 1].Bound? then Some(log[|log| - 1])
    else LastBound(log[..|log| - 1])
  }

  lemma LastBoundOf(log: seq<Entry>, e: Entry)
    ensures LastBound(log + [e]) == if e.Bound? then Some(e) else LastBound(log)
  {
    assert (log + [e])[..|log|] == log;
  }

  // -- what a session's entries stand for ----------------------------------------------------------

  /** The pass was typed, then, under that password. */
  ghost predicate GateKept(gate: Gate, log: seq<Entry>) {
    gate.credential.Some? && gate.passedAt.At? ==> GateTyped(gate.passedAt.moment, gate.credential.value) in log
  }

  /** This account's password was proved, for these credentials, however it was hashed then. */
  ghost predicate Knew(log: seq<Entry>, p: Entry, user: UserId, gate: Mark, login: Login) {
    p in log && p.PasswordProved? && p.user == user && p.gate == gate && LoginOf(p.row.CredentialStamp()) == login
  }

  ghost predicate Waits(p: Waiting, log: seq<Entry>) {
    exists e :: Knew(log, e, p.user, p.gate, LoginOf(p.binding.stamp)) && e.at == p.at
  }

  /** The password, then within five minutes a code, both behind this gate. */
  ghost predicate SteppedUp(log: seq<Entry>, p: Entry, c: Entry, user: UserId, gate: Mark, login: Login) {
    && Knew(log, p, user, gate, login)
    && c in log && c.CodeProved? && c.user == user && c.gate == gate
    && p.at < c.at <= p.at + PENDING_LIMIT
  }

  ghost predicate Proved(st: AdminState, log: seq<Entry>) {
    exists p, c :: SteppedUp(log, p, c, st.user, st.gate, LoginOf(st.binding.stamp)) && c.at <= st.verifiedAt
  }

  ghost predicate BoundTo(st: AdminState, log: seq<Entry>, db: Db) {
    && st.user in db.accounts
    && var b := LastBound(log);
       && b.Some? && b.value.Bound? && b.value.user == st.user && b.value.at == st.strongAt
       && BindingOf(b.value.row) == st.binding
       && Witnessed(b.value.row, db.accounts[st.user])
  }

  ghost predicate Invariant(w: World) {
    && Chronicle(w.log, Clock(w.scene))
    && GateKept(w.session.gate, w.log)
    && (w.session.pending.Some? ==> Waits(w.session.pending.value, w.log))
    && (w.session.state.Some? ==>
          Proved(w.session.state.value, w.log) && BoundTo(w.session.state.value, w.log, w.scene.db))
  }

  // -- how the pieces carry over --------------------------------------------------------------------

  ghost predicate Grew(log: seq<Entry>, log': seq<Entry>) { forall e :: e in log ==> e in log' }

  lemma WaitsOn(p: Waiting, log: seq<Entry>, log': seq<Entry>)
    requires Waits(p, log) && Grew(log, log')
    ensures Waits(p, log')
  {
    var e :| Knew(log, e, p.user, p.gate, LoginOf(p.binding.stamp)) && e.at == p.at;
    assert Knew(log', e, p.user, p.gate, LoginOf(p.binding.stamp));
  }

  lemma ProvedOn(st: AdminState, st': AdminState, log: seq<Entry>, log': seq<Entry>)
    requires Proved(st, log) && Grew(log, log')
    requires st'.user == st.user && st'.gate == st.gate && LoginOf(st'.binding.stamp) == LoginOf(st.binding.stamp) && st'.verifiedAt == st.verifiedAt
    ensures Proved(st', log')
  {
    var p, c :| SteppedUp(log, p, c, st.user, st.gate, LoginOf(st.binding.stamp)) && c.at <= st.verifiedAt;
    assert SteppedUp(log', p, c, st.user, st.gate, LoginOf(st.binding.stamp));
  }

  lemma BoundOn(st: AdminState, log: seq<Entry>, log': seq<Entry>, db: Db, db': Db)
    requires BoundTo(st, log, db) && LastBound(log') == LastBound(log) && AllWitnessed(db, db')
    ensures BoundTo(st, log', db')
  {
    assert Witnessed(db.accounts[st.user], db'.accounts[st.user]);
  }

  lemma ChronicleOn(log: seq<Entry>, e: Entry, clock: int)
    requires Chronicle(log, clock) && e.at <= clock
    requires e.GateTyped? ==> forall f :: f in log ==> f.at < e.at
    requires e.PasswordProved? ==> e.gate.At? && e.gate.moment < e.at && TypedAt(log, e.gate.moment)
    ensures Chronicle(log + [e], clock)
  {
    var log' := log + [e];
    forall p | p in log' && p.PasswordProved?
      ensures p.gate.At? && p.gate.moment < p.at && TypedAt(log', p.gate.moment)
    {
      assert TypedAt(log, p.gate.moment);
      var v :| GateTyped(p.gate.moment, v) in log;
      assert GateTyped(p.gate.moment, v) in log';
    }
  }

  /** Time passes, and others change the register: nothing here stops holding. */
  lemma SceneMoves(w: World, scene: Scene)
    requires Invariant(w) && AllWitnessed(w.scene.db, scene.db) && Clock(w.scene) <= Clock(scene)
    ensures Invariant(w.(scene := scene))
  {
    hide Proved, Waits, BoundTo, GateKept, AllWitnessed;
    if w.session.state.Some? {
      BoundOn(w.session.state.value, w.log, w.log, w.scene.db, scene.db);
    }
  }

  lemma {:induction false} ClockMovesOn(db: Db, events: seq<Event>)
    ensures db.clock <= Run(db, events).clock
  {
    hide Accounts.Effect;
    if events != [] {
      ClockMovesOn(db, events[..|events| - 1]);
    }
  }

  lemma Passes(scene: Scene, events: seq<Event>)
    ensures var later := Passing(scene, events);
            AllWitnessed(scene.db, later.db) && Clock(scene) <= Clock(later)
  {
    hide AllWitnessed, Run;
    RunsAreWitnessed(scene.db, events);
    ClockMovesOn(scene.db, events);
  }

  /** A session that only lost entries, or moved its idle stamps, stands for no more than it did. */
  lemma SessionFades(w: World, session: Session)
    requires Invariant(w)
    requires session.gate.credential.Some? && session.gate.passedAt.At? ==>
               session.gate.credential == w.session.gate.credential && session.gate.passedAt == w.session.gate.passedAt
    requires session.pending.Some? ==> session.pending == w.session.pending
    requires session.state.Some? ==>
               w.session.state.Some? && session.state.value == w.session.state.value.(lastSeen := session.state.value.lastSeen)
    ensures Invariant(w.(session := session))
  {
    hide Chronicle, Waits, Proved;
    if session.state.Some? {
      ProvedOn(w.session.state.value, session.state.value, w.log, w.log);
    }
  }

  /** One more proof in the history. */
  lemma Told(w: World, e: Entry)
    requires Invariant(w) && e.at <= Clock(w.scene) && !e.Bound?
    requires e.GateTyped? ==> forall f :: f in w.log ==> f.at < e.at
    requires e.PasswordProved? ==> e.gate.At? && e.gate.moment < e.at && TypedAt(w.log, e.gate.moment)
    ensures Invariant(w.(log := w.log + [e]))
  {
    hide Chronicle, Waits, Proved, Knew, AllWitnessed, Witnessed;
    var log' := w.log + [e];
    ChronicleOn(w.log, e, Clock(w.scene));
    LastBoundOf(w.log, e);
    if w.session.pending.Some? { WaitsOn(w.session.pending.value, w.log, log'); }
    if w.session.state.Some? {
      ProvedOn(w.session.state.value, w.session.state.value, w.log, log');
    }
  }

  // -- one happening at a time ------------------------------------------------------------------------

  /** Everything in the history is past. */
  ghost predicate Past(w: World) { forall e :: e in w.log ==> e.at < Clock(w.scene) }

  lemma TimePasses(w: World, delay: nat)
    requires Invariant(w)
    ensures Invariant(Later(w, delay)) && Past(Later(w, delay))
  {
    SceneMoves(w, Later(w, delay).scene);
  }

  lemma GateStep(w: World, supplied: Version, locked: bool)
    requires Invariant(w) && Past(w)
    ensures Invariant(GatePosted(w, supplied, locked))
  {
    hide Waits, Proved, BoundTo;
    if !(Behind(w.session, w.scene) || locked || w.scene.door.configured != Some(supplied)) {
      Told(w, GateTyped(Clock(w.scene), supplied));
    }
  }

  lemma PersonaStep(w: World, person: Option<UserId>)
    requires Invariant(w) && Behind(w.session, w.scene)
    ensures Invariant(w.(session := PersonaChanged(w.session, w.scene, person)))
  {
    hide Invariant;
    SessionFades(w, PersonaChanged(w.session, w.scene, person));
  }

  lemma ArriveStep(w: World, stale: bool)
    requires Invariant(w)
    ensures Invariant(w.(session := Arrived(w.session, w.scene, stale)))
  {
    hide Invariant;
    SessionFades(w, Arrived(w.session, w.scene, stale));
  }

  /** Checking a password moves no epoch and no credentials. */
  lemma CheckIsWitnessed(scene: Scene, user: UserId, supplied: Text, outdated: bool)
    ensures var checked := PasswordChecked(scene, user, supplied, outdated);
            && AllWitnessed(scene.db, checked.db) && Clock(checked) == Clock(scene)
            && checked.door == scene.door && checked.settings == scene.settings
  {
    hide AllWitnessed;
    OwnStepsAreWitnessed(scene.db, UpgradeStep(user), 0);
    NothingIsWitnessed(scene.db);
  }

  lemma PasswordStep(w: World, user: UserId, supplied: Text, outdated: bool, locked: bool)
    requires Invariant(w) && Past(w)
    ensures Invariant(PasswordPosted(w, user, supplied, outdated, locked))
  {
    hide Invariant, AllWitnessed, PasswordChecked, PasswordIs;
    if Behind(w.session, w.scene) && !locked {
      var scene := PasswordChecked(w.scene, user, supplied, outdated);
      CheckIsWitnessed(w.scene, user, supplied, outdated);
      SceneMoves(w, scene);
      if PasswordIs(w.scene.db, user, supplied) && Eligible(scene.db, user) {
        PasswordWaitsFor(w.(scene := scene), user);
      }
    }
  }

  lemma PasswordWaitsFor(w: World, user: UserId)
    requires Invariant(w) && Past(w) && Behind(w.session, w.scene) && user in w.scene.db.accounts
    ensures var row, gate, now := w.scene.db.accounts[user], w.session.gate.passedAt, Clock(w.scene);
            Invariant(World(w.scene,
              w.session.(pending := Some(Waiting(user, now, BindingOf(row), gate)), sealedEnrolment := false),
              w.log + [PasswordProved(now, user, gate, row)]))
  {
    hide Proved, BoundTo;
    var row, gate, now := w.scene.db.accounts[user], w.session.gate.passedAt, Clock(w.scene);
    var e := PasswordProved(now, user, gate, row);
    assert GateTyped(gate.moment, w.session.gate.credential.value) in w.log;
    Told(w, e);
    assert Knew(w.log + [e], e, user, gate, LoginOf(row.CredentialStamp()));
  }

  lemma PendingFades(w: World)
    requires Invariant(w)
    ensures Invariant(w.(session := PendingAsked(w.session, w.scene)))
    ensures PendingAsked(w.session, w.scene).pending.Some? ==> PendingStands(w.session, w.scene) && PendingAsked(w.session, w.scene) == w.session
  {
    hide Invariant;
    SessionFades(w, PendingAsked(w.session, w.scene));
  }

  lemma EnrolmentShownStep(w: World)
    requires Invariant(w)
    ensures Invariant(EnrolmentShown(w))
  {
    hide Invariant;
    PendingFades(w);
    SessionFades(w.(session := PendingAsked(w.session, w.scene)), EnrolmentShown(w).session);
  }

  /** A pending password behind this pass, and a code in time: what opens is proved. */
  lemma Opens(w: World, user: UserId, c: Entry)
    requires Invariant(w) && StillBound(w.session, w.scene, user) && user in w.scene.db.accounts
    requires c in w.log && c.CodeProved? && c.user == user && c.gate == w.session.gate.passedAt
    requires var p := w.session.pending.value;
             p.user == user && p.gate == c.gate && p.at < c.at <= p.at + PENDING_LIMIT
    ensures var b := Bound(Clock(w.scene), user, w.scene.db.accounts[user]);
            Invariant(World(w.scene, Established(w.session, w.scene, user), w.log + [b]))
  {
    hide Eligible;
    var p := w.session.pending.value;
    var b := Bound(Clock(w.scene), user, w.scene.db.accounts[user]);
    var st := Established(w.session, w.scene, user).state.value;
    ChronicleOn(w.log, b, Clock(w.scene));
    LastBoundOf(w.log, b);
    var e :| Knew(w.log, e, p.user, p.gate, LoginOf(p.binding.stamp)) && e.at == p.at;
    assert SteppedUp(w.log + [b], e, c, user, st.gate, LoginOf(st.binding.stamp));
  }

  lemma CodeOpens(w: World, user: UserId, typedAt: int, after: seq<Event>)
    requires Invariant(w) && w.session.pending.Some?
    requires var p := w.session.pending.value;
             p.user == user && p.gate == w.session.gate.passedAt && p.at < typedAt <= p.at + PENDING_LIMIT
    requires typedAt <= Clock(w.scene)
    ensures Invariant(CodeAccepted(w, user, typedAt, after))
  {
    hide Invariant, AllWitnessed;
    var c := CodeProved(typedAt, user, w.session.gate.passedAt);
    var told := World(Passing(w.scene, after), w.session, w.log + [c]);
    Told(w, c);
    Passes(w.scene, after);
    SceneMoves(w.(log := w.log + [c]), told.scene);
    SessionFades(told, PendingDropped(w.session));
    if StillBound(w.session, told.scene, user) {
      Opens(told, user, c);
    }
  }

  lemma PendingIsRecent(w: World)
    requires Invariant(w) && Past(w) && PendingStands(w.session, w.scene)
    ensures var p := w.session.pending.value;
            p.gate == w.session.gate.passedAt && p.at < Clock(w.scene) <= p.at + PENDING_LIMIT
  {
    var p := w.session.pending.value;
    var e :| Knew(w.log, e, p.user, p.gate, LoginOf(p.binding.stamp)) && e.at == p.at;
  }

  lemma CodeStep(w: World, right: bool, locked: bool, meanwhile: seq<Event>)
    requires Invariant(w) && Past(w)
    ensures Invariant(CodePosted(w, right, locked, meanwhile))
  {
    hide Invariant, CodeAccepted, PendingStands;
    PendingFades(w);
    var asked := w.(session := PendingAsked(w.session, w.scene));
    Passes(asked.scene, meanwhile);
    SceneMoves(asked, Passing(asked.scene, meanwhile));
    if asked.session.pending.Some? {
      PendingIsRecent(asked);
      CodeOpens(asked, asked.session.pending.value.user, Clock(w.scene), meanwhile);
    }
  }

  /** Moving the epoch with one's own enrolment keeps the credentials the password was proved for. */
  lemma EnrolmentMoves(w: World, user: UserId, now: int)
    requires Invariant(w) && user in w.scene.db.accounts && w.session.pending.Some?
    requires w.session.pending.value.user == user
    requires w.session.pending.value.binding == BindingOf(w.scene.db.accounts[user])
    ensures var enrolled := w.scene.(db := FactorEnrolled(w.scene.db, user, now));
            var moved := w.session.pending.value.(binding := BindingOf(enrolled.db.accounts[user]));
            Invariant(World(enrolled, w.session.(pending := Some(moved), sealedEnrolment := false), w.log))
  {
    hide Proved, BoundTo, Chronicle, GateKept, AllWitnessed;
    EnrolmentIsWitnessed(w, user, now);
    var p := w.session.pending.value;
    var enrolled := w.scene.(db := FactorEnrolled(w.scene.db, user, now));
    var moved := p.(binding := BindingOf(enrolled.db.accounts[user]));
    assert Waits(moved, w.log) by {
      var e :| Knew(w.log, e, p.user, p.gate, LoginOf(p.binding.stamp)) && e.at == p.at;
      assert Knew(w.log, e, moved.user, moved.gate, LoginOf(moved.binding.stamp));
    }
  }

  lemma EnrolmentIsWitnessed(w: World, user: UserId, now: int)
    requires Invariant(w) && user in w.scene.db.accounts
    ensures Invariant(w.(scene := w.scene.(db := FactorEnrolled(w.scene.db, user, now))))
  {
    hide Invariant, AllWitnessed;
    OwnStepsAreWitnessed(w.scene.db, EnrolStep(user), now);
    SceneMoves(w, w.scene.(db := FactorEnrolled(w.scene.db, user, now)));
  }

  lemma EnrolmentStep(w: World, right: bool, locked: bool, meanwhile: seq<Event>, after: seq<Event>)
    requires Invariant(w) && Past(w)
    ensures Invariant(EnrolmentPosted(w, right, locked, meanwhile, after))
  {
    hide Invariant, CodeAccepted, PendingStands, FactorEnrolled, BindingOf, AllWitnessed;
    PendingFades(w);
    var asked := w.(session := PendingAsked(w.session, w.scene));
    var later := asked.(scene := Passing(asked.scene, meanwhile));
    Passes(asked.scene, meanwhile);
    SceneMoves(asked, later.scene);
    Passes(later.scene, after);
    SceneMoves(later, Passing(later.scene, after));
    if asked.session.pending.Some? && asked.session.pending.value.user in later.scene.db.accounts {
      PendingIsRecent(asked);
      EnrolmentEnds(later, asked.session.pending.value.user, Clock(w.scene), after);
    }
  }

  /** From the accepted code on: the authenticator is written whatever becomes of the session. */
  lemma EnrolmentEnds(w: World, user: UserId, typedAt: int, after: seq<Event>)
    requires Invariant(w) && user in w.scene.db.accounts && w.session.pending.Some?
    requires var p := w.session.pending.value;
             p.user == user && p.gate == w.session.gate.passedAt && p.at < typedAt <= p.at + PENDING_LIMIT
    requires typedAt <= Clock(w.scene)
    ensures var enrolled := w.scene.(db := FactorEnrolled(w.scene.db, user, Clock(w.scene)));
            var moved := w.session.pending.value.(binding := BindingOf(enrolled.db.accounts[user]));
            && Invariant(World(Passing(enrolled, after), PendingDropped(w.session), w.log))
            && (w.session.pending.value.binding == BindingOf(w.scene.db.accounts[user]) ==>
                  Invariant(CodeAccepted(
                    World(enrolled, w.session.(pending := Some(moved), sealedEnrolment := false), w.log), user, typedAt, after)))
  {
    hide Invariant, CodeAccepted, AllWitnessed;
    var enrolled := w.scene.(db := FactorEnrolled(w.scene.db, user, Clock(w.scene)));
    var moved := w.session.pending.value.(binding := BindingOf(enrolled.db.accounts[user]));
    EnrolmentIsWitnessed(w, user, Clock(w.scene));
    Passes(enrolled, after);
    SceneMoves(w.(scene := enrolled), Passing(enrolled, after));
    SessionFades(w.(scene := Passing(enrolled, after)), PendingDropped(w.session));
    if w.session.pending.value.binding == BindingOf(w.scene.db.accounts[user]) {
      EnrolmentMoves(w, user, Clock(w.scene));
      CodeOpens(World(enrolled, w.session.(pending := Some(moved), sealedEnrolment := false), w.log), user, typedAt, after);
    }
  }

  /** All a re-binding can take in is the same password hashed again: with the epoch unmoved since the session
      held, the credentials are the ones it was bound to, and so is the binding unless the hash is another. */
  lemma ReproofAbsorbsOnlyAHash(w: World, later: Scene)
    requires Invariant(w) && w.session.state.Some? && WhyEnded(w.session, w.scene) == None
    requires AllWitnessed(w.scene.db, later.db)
    requires later.db.accounts[w.session.state.value.user].epoch == w.scene.db.accounts[w.session.state.value.user].epoch
    ensures w.session.state.value.user in later.db.accounts
    ensures var st, now := w.session.state.value, later.db.accounts[w.session.state.value.user];
            && BindingOf(now).epoch == st.binding.epoch
            && LoginOf(now.CredentialStamp()) == LoginOf(st.binding.stamp)
            && (BindingOf(now) == st.binding <==> now.password == st.binding.stamp.password)
  {
    var user := w.session.state.value.user;
    assert Witnessed(w.scene.db.accounts[user], later.db.accounts[user]);
  }

  lemma ReproofTold(w: World, user: UserId)
    requires Invariant(w) && Past(w) && user in w.scene.db.accounts && Behind(w.session, w.scene)
    ensures var now, gate := Clock(w.scene), w.session.gate.passedAt;
            Invariant(w.(log := w.log + [PasswordProved(now, user, gate, w.scene.db.accounts[user]), CodeProved(now, user, gate)]))
  {
    var now, gate := Clock(w.scene), w.session.gate.passedAt;
    var p, c := PasswordProved(now, user, gate, w.scene.db.accounts[user]), CodeProved(now, user, gate);
    assert TypedAt(w.log, gate.moment) by {
      assert GateTyped(gate.moment, w.session.gate.credential.value) in w.log;
    }
    hide Invariant, TypedAt;
    Told(w, p);
    Told(w.(log := w.log + [p]), c);
    assert w.log + [p, c] == w.log + [p] + [c];
  }

  lemma Rebinds(w: World)
    requires Invariant(w) && w.session.state.Some?
    requires var st := w.session.state.value;
             st.user in w.scene.db.accounts && LoginOf(w.scene.db.accounts[st.user].CredentialStamp()) == LoginOf(st.binding.stamp)
    ensures var st, now := w.session.state.value, Clock(w.scene);
            var account := w.scene.db.accounts[st.user];
            Invariant(World(w.scene,
              w.session.(state := Some(st.(binding := BindingOf(account), strongAt := now, lastSeen := now))),
              w.log + [Bound(now, st.user, account)]))
  {
    hide Knew, SteppedUp;
    var st, now := w.session.state.value, Clock(w.scene);
    var account := w.scene.db.accounts[st.user];
    var b := Bound(now, st.user, account);
    ChronicleOn(w.log, b, now);
    LastBoundOf(w.log, b);
    ProvedOn(st, st.(binding := BindingOf(account), strongAt := now, lastSeen := now), w.log, w.log + [b]);
    if w.session.pending.Some? { WaitsOn(w.session.pending.value, w.log, w.log + [b]); }
  }

  lemma ReproofStep(w: World, supplied: Text, outdated: bool, right: bool, locked: bool, meanwhile: seq<Event>)
    requires Invariant(w) && Past(w)
    ensures Invariant(Reproved(w, supplied, outdated, right, locked, meanwhile))
  {
    hide Invariant, AllWitnessed, PasswordChecked, ProvedAgain, PasswordIs, WhyEnded;
    var asked := w.(session := Asked(w.session, w.scene));
    SessionFades(w, asked.session);
    Passes(w.scene, meanwhile);
    SceneMoves(asked, Passing(w.scene, meanwhile));
    if asked.session.state.Some? && !locked {
      var user := asked.session.state.value.user;
      var checked := PasswordChecked(w.scene, user, supplied, outdated);
      var scene := Passing(checked, meanwhile);
      CheckIsWitnessed(w.scene, user, supplied, outdated);
      SceneMoves(asked, checked);
      Passes(checked, meanwhile);
      SceneMoves(asked.(scene := checked), scene);
      if PasswordIs(w.scene.db, user, supplied) && right {
        HeldUntilChecked(asked, supplied, outdated);
        ProvedAgainStep(asked.(scene := checked), scene);
      }
    }
  }

  /** The session the check is made for still holds, but perhaps for the hash. */
  ghost predicate HoldsButForTheHash(w: World) {
    w.session.state.Some?
    && var st := w.session.state.value;
       && st.user in w.scene.db.accounts && Behind(w.session, w.scene)
       && LoginOf(w.scene.db.accounts[st.user].CredentialStamp()) == LoginOf(st.binding.stamp)
  }

  lemma HeldUntilChecked(w: World, supplied: Text, outdated: bool)
    requires w.session.state.Some? && WhyEnded(w.session, w.scene) == None
    ensures HoldsButForTheHash(w.(scene := PasswordChecked(w.scene, w.session.state.value.user, supplied, outdated)))
  {
    hide Eligible, HasPassed;
  }

  lemma ProvedAgainStep(w: World, later: Scene)
    requires Invariant(w) && Past(w) && HoldsButForTheHash(w)
    requires AllWitnessed(w.scene.db, later.db) && Clock(w.scene) <= Clock(later)
    ensures Invariant(ProvedAgain(w, w.session.state.value.user, later))
  {
    hide Invariant, AllWitnessed, HasPassed;
    var user, gate := w.session.state.value.user, w.session.gate.passedAt;
    var row := w.scene.db.accounts[user];
    var log := w.log + [PasswordProved(Clock(w.scene), user, gate, row), CodeProved(Clock(w.scene), user, gate)];
    ReproofTold(w, user);
    SceneMoves(w.(log := log), later);
    SessionFades(World(later, w.session, log), Ended(w.session));
    if Eligible(later.db, user) && later.db.accounts[user].epoch == row.epoch {
      SameLogin(w.scene.db, later.db, user);
      Rebinds(World(later, w.session, log));
    }
  }

  lemma SameLogin(db: Db, later: Db, user: UserId)
    requires AllWitnessed(db, later) && user in db.accounts && user in later.accounts
    requires later.accounts[user].epoch == db.accounts[user].epoch
    ensures LoginOf(later.accounts[user].CredentialStamp()) == LoginOf(db.accounts[user].CredentialStamp())
  {
    assert Witnessed(db.accounts[user], later.accounts[user]);
  }

  lemma QuietStep(w: World, h: Happening)
    requires Invariant(w)
    requires h.Rotate? || h.Flush? || h.Ask? || h.Administer? || h.EndAdministration? || h.SignOut?
    ensures Invariant(AdminSession.Effect(w, h))
  {
    if h.Rotate? {
    } else {
      hide Invariant;
      SessionFades(w, AdminSession.Effect(w, h).session);
    }
  }

  lemma NextKeeps(w: World, m: Moment)
    requires Invariant(w)
    ensures Invariant(Next(w, m))
  {
    hide Invariant, Past, PersonaChanged, Arrived, EnrolmentPosted, Reproved, CodePosted, PasswordPosted, GatePosted, Behind;
    TimePasses(w, m.delay);
    var now := Later(w, m.delay);
    match m.what
    case Elsewhere(events) => Passes(now.scene, events); SceneMoves(now, Passing(now.scene, events));
    case Arrive(stale) => ArriveStep(now, stale);
    case TypeGate(supplied, locked) => GateStep(now, supplied, locked);
    case ChoosePersona(person, selectable) => if Behind(now.session, now.scene) { PersonaStep(now, person); }
    case TypePassword(user, supplied, outdated, locked) => PasswordStep(now, user, supplied, outdated, locked);
    case ShowEnrolment => EnrolmentShownStep(now);
    case TypeCode(right, locked, meanwhile) => CodeStep(now, right, locked, meanwhile);
    case TypeEnrolment(right, locked, meanwhile, after) => EnrolmentStep(now, right, locked, meanwhile, after);
    case Reprove(supplied, outdated, right, locked, meanwhile) => ReproofStep(now, supplied, outdated, right, locked, meanwhile);
    case _ => QuietStep(now, m.what);
  }

  /** A browser nobody has used. */
  predicate Unused(w: World) { w.session == EMPTY && w.log == [] }

  lemma {:induction false} RunsKeep(w: World, moments: seq<Moment>)
    requires Unused(w)
    ensures Invariant(After(w, moments))
  {
    hide Next;
    if moments != [] {
      RunsKeep(w, moments[..|moments| - 1]);
      NextKeeps(After(w, moments[..|moments| - 1]), moments[|moments| - 1]);
    }
  }

  // -- what a run promises -------------------------------------------------------------------------------

  /** The gate password in force was typed, less than the limit ago, in this browser. */
  ghost predicate GateTypedInTime(w: World, typed: int) {
    && w.scene.door.configured.Some?
    && GateTyped(typed, w.scene.door.configured.value) in w.log
    && Clock(w.scene) - typed < w.scene.door.sessionLimit
  }

  /** A moment of some run of a browser nobody had used. */
  ghost predicate Reachable(v: World) {
    exists w, moments, delay :: Unused(w) && v == Later(After(w, moments), delay)
  }

  lemma ReachableKeeps(v: World)
    requires Reachable(v)
    ensures Invariant(v)
  {
    hide Invariant, After;
    var w, moments, delay :| Unused(w) && v == Later(After(w, moments), delay);
    RunsKeep(w, moments);
    TimePasses(After(w, moments), delay);
  }

  lemma RunReaches(w: World, moments: seq<Moment>, delay: nat)
    requires Unused(w)
    ensures Reachable(Later(After(w, moments), delay))
  {
  }

  lemma KeptAndTimely(v: World)
    requires Reachable(v) && Behind(v.session, v.scene)
    ensures v.session.gate.passedAt.At? && GateTypedInTime(v, v.session.gate.passedAt.moment)
  {
    hide Reachable, Waits, Proved, BoundTo, Chronicle;
    ReachableKeeps(v);
  }

  /** Through any number of persona changes, dropped personas and rotations: a session is behind the gate
      only if the password configured now was typed in it, at a moment of the run with no lockout in force, less
      than the absolute limit ago. */
  lemma {:induction false} GateClosesOnTime(w: World, moments: seq<Moment>, delay: nat)
    requires Unused(w)
    ensures var v := Later(After(w, moments), delay);
            Behind(v.session, v.scene) ==>
              && v.session.gate.passedAt.At? && GateTypedInTime(v, v.session.gate.passedAt.moment)
              && WasGiven(w, moments, GateTyped(v.session.gate.passedAt.moment, v.scene.door.configured.value))
  {
    hide After, WasGiven, Reachable, HasPassed;
    var v := Later(After(w, moments), delay);
    if Behind(v.session, v.scene) {
      RunReaches(w, moments, delay);
      KeptAndTimely(v);
      EveryProofWasGiven(w, moments, GateTyped(v.session.gate.passedAt.moment, v.scene.door.configured.value));
    }
  }

  /** Who is verified proved it: behind the very pass still in force, this account's password - with the
      credentials it has now - and then, within five minutes, a code. Nothing its power or credentials
      consist of has moved since the session was last bound to it, it may still administer, and both
      clocks are within their limits. */
  ghost predicate Verified(v: World, user: UserId, p: Entry, c: Entry, row: Account)
    requires v.session.state.Some? && v.session.gate.passedAt.At? && user in v.scene.db.accounts
  {
    var st, now, account := v.session.state.value, Clock(v.scene), v.scene.db.accounts[user];
    && GateTypedInTime(v, v.session.gate.passedAt.moment)
    && SteppedUp(v.log, p, c, user, v.session.gate.passedAt, LoginOf(account.CredentialStamp()))
    && v.session.gate.passedAt.moment < p.at && c.at <= st.verifiedAt
    && LastBound(v.log) == Some(Bound(st.strongAt, user, row))
    && row.epoch == account.epoch && SameProvenState(row, account)
    && IsAdministrator(v.scene.db, user)
    && now - st.verifiedAt < AbsoluteSeconds(v.scene.settings) * SECOND
    && now - st.lastSeen < IdleSeconds(v.scene.settings) * SECOND
  }

  lemma VerifiedWas(v: World, user: UserId)
    requires Reachable(v) && Principal(v.session, v.scene) == Some(user)
    ensures v.session.state.Some? && v.session.gate.passedAt.At? && user in v.scene.db.accounts
    ensures exists p, c, row :: Verified(v, user, p, c, row)
  {
    hide Reachable, Eligible;
    ReachableKeeps(v);
    KeptAndTimely(v);
    EligibleIff(v.scene.db, user);
    var st := v.session.state.value;
    var p, c :| SteppedUp(v.log, p, c, st.user, st.gate, LoginOf(st.binding.stamp)) && c.at <= st.verifiedAt;
    assert Verified(v, user, p, c, LastBound(v.log).value.row);
  }

  /** All of it was typed, rightly and with no lockout in force, at moments of the run. */
  ghost predicate AllGiven(w: World, moments: seq<Moment>, v: World, p: Entry, c: Entry)
    requires v.session.gate.passedAt.At? && v.scene.door.configured.Some?
  {
    && WasGiven(w, moments, GateTyped(v.session.gate.passedAt.moment, v.scene.door.configured.value))
    && WasGiven(w, moments, p) && WasGiven(w, moments, c)
  }

  lemma {:induction false} VerifiedMeansProved(w: World, moments: seq<Moment>, delay: nat)
    requires Unused(w)
    ensures var v := Later(After(w, moments), delay);
            var user := Principal(v.session, v.scene);
            user.Some? ==>
              && v.session.state.Some? && v.session.gate.passedAt.At? && user.value in v.scene.db.accounts
              && v.scene.door.configured.Some?
              && exists p, c, row :: Verified(v, user.value, p, c, row) && AllGiven(w, moments, v, p, c)
  {
    hide After, Principal, WasGiven, Reachable, SameProvenState, IsAdministrator;
    var v := Later(After(w, moments), delay);
    var user := Principal(v.session, v.scene);
    if user.Some? {
      RunReaches(w, moments, delay);
      VerifiedWas(v, user.value);
      var p, c, row :| Verified(v, user.value, p, c, row);
      EveryProofWasGiven(w, moments, GateTyped(v.session.gate.passedAt.moment, v.scene.door.configured.value));
      EveryProofWasGiven(w, moments, p);
      EveryProofWasGiven(w, moments, c);
      assert AllGiven(w, moments, v, p, c);
    }
  }

  ghost predicate RecentlyBound(v: World, user: UserId) {
    var b := LastBound(v.log);
    b.Some? && b.value.Bound? && b.value.user == user && Clock(v.scene) - b.value.at <= ReauthSeconds(v.scene.settings) * SECOND
  }

  lemma FreshIsRecentlyBound(v: World, user: UserId)
    requires Invariant(v) && Principal(v.session, v.scene) == Some(user) && !NeedsFreshProof(v.session, v.scene)
    ensures RecentlyBound(v, user)
  {
    hide WhyEnded, Proved, Chronicle, Waits, ReauthSeconds, LastBound;
  }

  lemma LimitsNest(s: Settings)
    ensures 60 <= ReauthSeconds(s) <= IdleSeconds(s) <= AbsoluteSeconds(s) <= 43200
  {
  }

  /** A change that is not asked for a fresh proof follows password and code by no more than the limit,
      which is never longer than the others, whatever is configured. */
  lemma {:induction false} FreshMeansRecentlyBound(v: World)
    requires Reachable(v)
    ensures var user := Principal(v.session, v.scene);
            user.Some? && !NeedsFreshProof(v.session, v.scene) ==> RecentlyBound(v, user.value)
    ensures 60 <= ReauthSeconds(v.scene.settings) <= IdleSeconds(v.scene.settings)
            <= AbsoluteSeconds(v.scene.settings) <= 43200
  {
    hide *;
    ReachableKeeps(v);
    LimitsNest(v.scene.settings);
    var user := Principal(v.session, v.scene);
    if user.Some? && !NeedsFreshProof(v.session, v.scene) {
      FreshIsRecentlyBound(v, user.value);
    }
  }

  /** A session's latest proof was typed: rightly, with no lockout in force, at a moment of the run after which the
      clock stood where the session says. */
  ghost predicate ProvedAtMoment(w: World, moments: seq<Moment>, st: AdminState) {
    exists k :: 0 <= k < |moments| && IsRightProof(moments[k].what)
      && After(w, moments[..k + 1]).scene.db.clock == st.strongAt
  }

  ghost predicate IsRightProof(h: Happening) {
    (h.TypeCode? || h.TypeEnrolment? || h.Reprove?) && h.right && !h.locked
  }

  lemma {:induction false} ProofsWereTyped(w: World, moments: seq<Moment>)
    requires w.session.state == None
    ensures After(w, moments).session.state.Some? ==> ProvedAtMoment(w, moments, After(w, moments).session.state.value)
  {
    hide AdminSession.Effect;
    if moments != [] {
      var n := |moments| - 1;
      var before := After(w, moments[..n]);
      var now := Later(before, moments[n].delay);
      var v := After(w, moments);
      ProofsWereTyped(w, moments[..n]);
      assert moments[..n + 1] == moments;
      if v.session.state.Some? {
        if now.session.state.Some? && v.session.state.value == now.session.state.value.(lastSeen := v.session.state.value.lastSeen) {
          StillProved(w, moments, before.session.state.value, v.session.state.value);
        } else {
          SessionsOpenRightly(now, moments[n].what);
          assert IsRightProof(moments[n].what);
        }
      }
    }
  }

  lemma StillProved(w: World, moments: seq<Moment>, st: AdminState, st': AdminState)
    requires moments != [] && ProvedAtMoment(w, moments[..|moments| - 1], st) && st'.strongAt == st.strongAt
    ensures ProvedAtMoment(w, moments, st')
  {
    hide After;
    var n := |moments| - 1;
    var k :| 0 <= k < n && IsRightProof(moments[..n][k].what) && After(w, moments[..n][..k + 1]).scene.db.clock == st.strongAt;
    assert moments[..n][..k + 1] == moments[..k + 1] && moments[..n][k] == moments[k];
  }

  /** Choosing a persona, or losing one, is not the administrator's affair: whoever was verified is, by the
      same clocks, behind the same pass; and nothing waiting for a code goes across. */
  lemma {:induction false} PersonaChangesNothing(w: World, h: Happening)
    requires h.ChoosePersona? || h.Arrive?
    requires Behind(w.session, w.scene) && w.scene.door.idleLimit > 0
    ensures var v := AdminSession.Effect(w, h);
            && v.session.state == w.session.state
            && CurrentPass(v.session.gate) == CurrentPass(w.session.gate)
            && Principal(v.session, v.scene) == Principal(w.session, w.scene)
            && (v.session.persona != w.session.persona ==> v.session.pending == None)
            && v.log == w.log && v.scene == w.scene
  {
    hide Eligible, BindingOf;
  }

  /** What counts as the administrator being there. */
  predicate AdministratorActs(h: Happening) {
    h.Administer? || h.TypeCode? || h.TypeEnrolment? || h.Reprove?
  }

  lemma OthersLeaveItAlone(w: World, m: Moment)
    requires !AdministratorActs(m.what)
    ensures Next(w, m).session.state in {None, w.session.state}
  {
  }

  lemma {:induction false} UntouchedOrGone(w: World, moments: seq<Moment>)
    requires forall m :: m in moments ==> !AdministratorActs(m.what)
    ensures After(w, moments).session.state in {None, w.session.state}
    ensures After(w, moments).scene.settings == w.scene.settings
  {
    hide Next;
    if moments != [] {
      var n := |moments| - 1;
      UntouchedOrGone(w, moments[..n]);
      assert moments[n] in moments;
      OthersLeaveItAlone(After(w, moments[..n]), moments[n]);
      SettingsStay(After(w, moments[..n]), moments[n]);
    }
  }

  lemma SettingsStay(w: World, m: Moment)
    ensures Next(w, m).scene.settings == w.scene.settings
  {
  }

  /** An absent administrator's session ends on its own clock. However many pages are read, personas chosen
      or passwords tried in that browser, once the idle limit has passed since the last administration
      request - or the absolute one since the code - nobody is verified. */
  lemma {:induction false} AbsenceEndsIt(w: World, moments: seq<Moment>, delay: nat)
    requires w.session.state.Some?
    requires forall m :: m in moments ==> !AdministratorActs(m.what)
    requires var v, st := Later(After(w, moments), delay), w.session.state.value;
             || Clock(v.scene) - st.lastSeen >= IdleSeconds(w.scene.settings) * SECOND
             || Clock(v.scene) - st.verifiedAt >= AbsoluteSeconds(w.scene.settings) * SECOND
    ensures var v := Later(After(w, moments), delay); Principal(v.session, v.scene) == None
  {
    hide After, Eligible;
    UntouchedOrGone(w, moments);
  }

  // -- and the way in ----------------------------------------------------------------------------------------

  /** A right password, from somebody who may administer, leaves a marker that stands. */
  lemma PasswordWaits(w: World, user: UserId, supplied: Text, outdated: bool)
    requires Behind(w.session, w.scene) && PasswordIs(w.scene.db, user, supplied) && Eligible(w.scene.db, user)
    ensures var v := PasswordPosted(w, user, supplied, outdated, false);
            && PendingStands(v.session, v.scene)
            && v.session.pending.value.user == user && v.session.pending.value.at == Clock(w.scene) == Clock(v.scene)
            && v.scene.db.accounts[user].device == w.scene.db.accounts[user].device
            && v.scene.db.accounts[user].epoch == w.scene.db.accounts[user].epoch
            && v.scene.settings == w.scene.settings
  {
    hide HasPassed;
  }

  /** It stands while the gate does, for five minutes, in a register that stands still. */
  lemma StillWaits(w: World, delay: nat)
    requires PendingStands(w.session, w.scene)
    requires var v := Later(w, delay); Behind(v.session, v.scene) && Clock(v.scene) - w.session.pending.value.at <= PENDING_LIMIT
    ensures var v := Later(w, delay); PendingStands(v.session, v.scene)
  {
    hide HasPassed;
  }

  lemma CodeGoesThrough(w: World, user: UserId)
    requires PendingStands(w.session, w.scene) && w.session.pending.value.user == user
    requires w.scene.db.accounts[user].device.Some?
    ensures var v := AdminSession.Effect(w, TypeCode(true, false, []));
            Principal(v.session, v.scene) == Some(user) && !NeedsFreshProof(v.session, v.scene)
  {
    LimitsNest(w.scene.settings);
    hide AbsoluteSeconds, IdleSeconds, ReauthSeconds, HasPassed;
    assert Passing(w.scene, []) == w.scene;
    assert StillBound(w.session, w.scene, user);
  }

  /** The way in: behind the gate, the right password and then a right code in time open the session, for
      this account, freshly proved - whether or not its hash was made again on the way. */
  lemma {:induction false} StepUpOpens(w: World, user: UserId, supplied: Text, outdated: bool, think: nat)
    requires Behind(w.session, w.scene) && PasswordIs(w.scene.db, user, supplied) && Eligible(w.scene.db, user)
    requires w.scene.db.accounts[user].device.Some? && 1 + think <= PENDING_LIMIT
    requires var typed := AdminSession.Effect(w, TypePassword(user, supplied, outdated, false));
             Behind(typed.session, Later(typed, think).scene)
    ensures var typed := AdminSession.Effect(w, TypePassword(user, supplied, outdated, false));
            var v := Next(typed, Moment(think, TypeCode(true, false, [])));
            Principal(v.session, v.scene) == Some(user) && !NeedsFreshProof(v.session, v.scene)
  {
    hide PasswordPosted, CodePosted, PendingStands, Principal, NeedsFreshProof, HasPassed, Eligible, PasswordIs;
    var typed := AdminSession.Effect(w, TypePassword(user, supplied, outdated, false));
    PasswordWaits(w, user, supplied, outdated);
    StillWaits(typed, think);
    CodeGoesThrough(Later(typed, think), user);
  }

  /** The first way in: without an authenticator yet, the right password and a code from a new one. The
      epoch moves by one and the session is bound to where it moved. */
  lemma {:induction false} EnrolmentOpens(w: World, user: UserId, supplied: Text, outdated: bool, look: nat, think: nat)
    requires Behind(w.session, w.scene) && PasswordIs(w.scene.db, user, supplied) && Eligible(w.scene.db, user)
    requires w.scene.db.accounts[user].device.None? && 2 + look + think <= PENDING_LIMIT
    requires var typed := AdminSession.Effect(w, TypePassword(user, supplied, outdated, false));
             && Behind(typed.session, Later(typed, look).scene)
             && Behind(typed.session, Later(Later(typed, look), think).scene)
    ensures var typed := AdminSession.Effect(w, TypePassword(user, supplied, outdated, false));
            var shown := Next(typed, Moment(look, ShowEnrolment));
            var v := Next(shown, Moment(think, TypeEnrolment(true, false, [], [])));
            && Principal(v.session, v.scene) == Some(user) && !NeedsFreshProof(v.session, v.scene)
            && v.scene.db.accounts[user].device == Some(true)
            && v.scene.db.accounts[user].epoch == w.scene.db.accounts[user].epoch + 1
  {
    hide PasswordPosted, EnrolmentPosted, PendingStands, Principal, NeedsFreshProof, HasPassed, Eligible, PasswordIs;
    var typed := AdminSession.Effect(w, TypePassword(user, supplied, outdated, false));
    PasswordWaits(w, user, supplied, outdated);
    StillWaits(typed, look);
    var shown := Next(typed, Moment(look, ShowEnrolment));
    ShownStillWaits(Later(typed, look), user);
    StillWaits(shown, think);
    EnrolmentGoesThrough(Later(shown, think), user);
  }

  lemma ShownStillWaits(w: World, user: UserId)
    requires PendingStands(w.session, w.scene) && w.session.pending.value.user == user
    requires w.scene.db.accounts[user].device.None?
    ensures EnrolmentShown(w) == w.(session := w.session.(sealedEnrolment := true))
    ensures PendingStands(EnrolmentShown(w).session, w.scene)
  {
    hide HasPassed, Eligible;
  }

  lemma EnrolmentGoesThrough(w: World, user: UserId)
    requires PendingStands(w.session, w.scene) && w.session.pending.value.user == user && w.session.sealedEnrolment
    requires w.scene.db.accounts[user].device.None?
    ensures var v := AdminSession.Effect(w, TypeEnrolment(true, false, [], []));
            && Principal(v.session, v.scene) == Some(user) && !NeedsFreshProof(v.session, v.scene)
            && v.scene.db.accounts[user].device == Some(true)
            && v.scene.db.accounts[user].epoch == w.scene.db.accounts[user].epoch + 1
  {
    LimitsNest(w.scene.settings);
    hide AbsoluteSeconds, IdleSeconds, ReauthSeconds, HasPassed;
    var enrolled := w.scene.(db := FactorEnrolled(w.scene.db, user, Clock(w.scene)));
    assert Passing(w.scene, []) == w.scene && Passing(enrolled, []) == enrolled;
    assert Eligible(enrolled.db, user);
  }

  /** What the re-binding is for: checking the password again may hash it again, which would end the session
      as one whose credentials changed. Proved again, it goes on, for the same account, freshly proved. */
  lemma {:induction false} ReproofOutlivesAnUpgrade(w: World, user: UserId, supplied: Text)
    requires Principal(w.session, w.scene) == Some(user) && PasswordIs(w.scene.db, user, supplied)
    requires w.scene.db.accounts[user].password.value.salt < w.scene.db.nextHash
    ensures var v := AdminSession.Effect(w, Reprove(supplied, true, true, false, []));
            && WhyEnded(w.session, v.scene) == Some(CredentialsChanged)
            && Principal(v.session, v.scene) == Some(user) && !NeedsFreshProof(v.session, v.scene)
  {
    LimitsNest(w.scene.settings);
    hide AbsoluteSeconds, IdleSeconds, ReauthSeconds, HasPassed;
    var checked := PasswordChecked(w.scene, user, supplied, true);
    assert Passing(checked, []) == checked;
    assert Eligible(checked.db, user);
  }
}
