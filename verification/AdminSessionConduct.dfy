/** What each thing that can happen to a browser does to its session, and when exactly somebody is verified. */
module AdminSessionConduct {
  import opened Outcomes
  import opened Capabilities
  import opened Accounts
  import opened GateSession
  import opened AdminSession

  const MICROS := 1_000_000

  // -- the words ------------------------------------------------------------------------------------

  /** Behind the gate: under the password configured now, inside the absolute limit since it was typed and the
      idle limit since the last request - or since it was typed, in a session without a stamp. */
  ghost predicate IsBehind(s: Session, scene: Scene) {
    && scene.door.configured.Some? && s.gate.credential == scene.door.configured
    && s.gate.passedAt.At? && scene.db.clock - s.gate.passedAt.moment < scene.door.sessionLimit
    && s.gate.lastSeen != Garbled
    && (s.gate.lastSeen.At? ==> scene.db.clock - s.gate.lastSeen.moment < scene.door.idleLimit)
    && (s.gate.lastSeen == Absent ==> scene.db.clock - s.gate.passedAt.moment < scene.door.idleLimit)
  }

  /** On, activated, with a password of their own, real where the data is real, and an administrator. */
  ghost predicate IsAdministrator(db: Db, user: UserId) {
    && user in db.accounts
    && var a := db.accounts[user];
       && a.active && a.state == Activated && a.passwordSet && a.password.Some? && !(a.synthetic && db.config.realData)
       && (Resolve(a.role, a.overrides, ManageAccounts) || a.role == TechnicalAdministrator)
  }

  /** The account still signs in with what the session was bound to. */
  ghost predicate StillIs(db: Db, user: UserId, binding: Binding) {
    && user in db.accounts
    && var a := db.accounts[user];
       binding.stamp == Stamp(a.password, a.upn, a.active) && binding.epoch == a.epoch
  }

  function Within(value: Option<int>, low: int, high: int, otherwise: int): int {
    if value.Some? && low <= value.value && value.value <= high then value.value else otherwise
  }

  function Least(a: int, b: int): int { if a < b then a else b }

  /** The limits in seconds: as configured where that makes sense, and none longer than the one above it. */
  lemma LimitsAre(s: Settings)
    ensures AbsoluteSeconds(s) == Within(s.absolute, 300, 43200, 7200)
    ensures IdleSeconds(s) == Least(Within(s.idle, 60, 43200, 900), Within(s.absolute, 300, 43200, 7200))
    ensures ReauthSeconds(s) == Least(Within(s.reauth, 60, 43200, 600), IdleSeconds(s))
  {
  }

  // -- who is verified ----------------------------------------------------------------------------------

  lemma BehindIff(s: Session, scene: Scene)
    ensures Behind(s, scene) <==> IsBehind(s, scene)
  {
  }

  lemma EligibleIff(db: Db, user: UserId)
    ensures Eligible(db, user) <==> IsAdministrator(db, user)
  {
    hide Resolve;
  }

  /** Somebody is verified exactly while their session is behind the pass it was opened behind, both its clocks
      run, their account still signs in with what it did, and they are still an administrator. */
  lemma {:induction false} VerifiedIff(s: Session, scene: Scene, user: UserId)
    ensures Principal(s, scene) == Some(user)
       <==> && s.state.Some? && s.state.value.user == user
            && IsBehind(s, scene) && s.state.value.gate == s.gate.passedAt
            && scene.db.clock - s.state.value.verifiedAt < Within(scene.settings.absolute, 300, 43200, 7200) * MICROS
            && scene.db.clock - s.state.value.lastSeen
                 < Least(Within(scene.settings.idle, 60, 43200, 900), Within(scene.settings.absolute, 300, 43200, 7200)) * MICROS
            && StillIs(scene.db, user, s.state.value.binding) && IsAdministrator(scene.db, user)
  {
    BehindIff(s, scene);
    EligibleIff(scene.db, user);
    LimitsAre(scene.settings);
    hide HasPassed, IsBehind, Behind, Eligible, IsAdministrator, AbsoluteSeconds, IdleSeconds;
  }

  /** A fresh proof is asked for exactly when there is no session, or its last proof is older than the limit. */
  lemma FreshProofIff(s: Session, scene: Scene)
    ensures !NeedsFreshProof(s, scene)
       <==> s.state.Some? && scene.db.clock - s.state.value.strongAt <= ReauthSeconds(scene.settings) * MICROS
  {
  }

  /** A typed password waits five minutes, behind the same pass, for the same account as it was. */
  lemma {:induction false} WaitingIff(s: Session, scene: Scene)
    ensures PendingStands(s, scene)
       <==> && s.pending.Some?
            && scene.db.clock - s.pending.value.at <= 300 * MICROS
            && IsBehind(s, scene) && s.pending.value.gate == s.gate.passedAt
            && StillIs(scene.db, s.pending.value.user, s.pending.value.binding)
            && IsAdministrator(scene.db, s.pending.value.user)
  {
    BehindIff(s, scene);
    if s.pending.Some? { EligibleIff(scene.db, s.pending.value.user); }
    hide HasPassed, IsBehind, Behind, Eligible;
  }

  // -- what happens -------------------------------------------------------------------------------------

  /** The gate opens afresh exactly for the configured password, typed outside it with no lockout in force. */
  lemma {:induction false} TypingAtTheGate(w: World, supplied: Version, locked: bool)
    ensures var v := AdminSession.Effect(w, TypeGate(supplied, locked));
            && v.scene == w.scene
            && v.session == (if !IsBehind(w.session, w.scene) && !locked && w.scene.door.configured == Some(supplied)
                             then w.session.(gate := Gate(At(w.scene.db.clock), At(w.scene.db.clock), Some(supplied)))
                             else w.session)
  {
    BehindIff(w.session, w.scene);
    hide IsBehind;
  }

  /** Behind the gate a request restarts its idle clock once in five minutes and takes off a persona that may no
      longer be worn; outside it, whoever was being somebody, or came in under another password, leaves with
      nothing, and an administrator session and what was pending with it end. */
  lemma {:induction false} Arriving(w: World, stale: bool)
    ensures var s, now := w.session, w.scene.db.clock;
            var v := AdminSession.Effect(w, Arrive(stale)).session;
            var due := !s.gate.lastSeen.At? || now - s.gate.lastSeen.moment >= 300 * MICROS;
            if IsBehind(s, w.scene) then
              && v.gate.passedAt == s.gate.passedAt && v.gate.credential == s.gate.credential && v.state == s.state
              && (if s.persona.Some? && stale
                  then v.persona == None && v.pending == None && v.gate.lastSeen == At(now)
                  else v == s.(gate := s.gate.(lastSeen := if due then At(now) else s.gate.lastSeen)))
            else if s.persona.Some? || (s.gate.passedAt != Absent && !(w.scene.door.configured.Some? && s.gate.credential == w.scene.door.configured))
            then v == Session(Gate(Absent, Absent, None), None, Absent, None, None, false)
            else if s.state.Some? then v == s.(state := None, pending := None, sealedEnrolment := false)
            else v == s
  {
    BehindIff(w.session, w.scene);
    hide HasPassed;
  }

  /** A persona is worn or taken off exactly behind the gate, a worn one only if it may be; the pass and the
      administrator session come along as they were, what was pending does not. */
  lemma {:induction false} ChoosingAPersona(w: World, person: Option<UserId>, selectable: bool)
    ensures var s, now := w.session, w.scene.db.clock;
            var v := AdminSession.Effect(w, ChoosePersona(person, selectable)).session;
            if IsBehind(s, w.scene) && (person == None || selectable)
            then v == Session(Gate(s.gate.passedAt, At(now), s.gate.credential), person,
                              if person == None then Absent else At(now), s.state, None, false)
            else v == s
  {
    BehindIff(w.session, w.scene);
    hide IsBehind;
  }

  /** Asking ends a session that no longer verifies anybody; administering also restarts the idle clock of one that
      does, once in thirty seconds. */
  lemma {:induction false} AskingAndAdministering(w: World)
    ensures var s, now := w.session, w.scene.db.clock;
            var asked, worked := AdminSession.Effect(w, Ask).session, AdminSession.Effect(w, Administer).session;
            if s.state == None then asked == s && worked == s
            else if Principal(s, w.scene) == None then
              asked == worked == s.(state := None, pending := None, sealedEnrolment := false)
            else
              && asked == s
              && worked == s.(state := Some(s.state.value.(
                   lastSeen := if now - s.state.value.lastSeen >= 30 * MICROS then now else s.state.value.lastSeen)))
  {
    hide WhyEnded;
  }

  /** Ending the administrator session leaves the gate and the persona; signing out leaves nothing. */
  lemma Leaving(w: World)
    ensures AdminSession.Effect(w, EndAdministration).session == w.session.(state := None, pending := None, sealedEnrolment := false)
    ensures AdminSession.Effect(w, SignOut).session == Session(Gate(Absent, Absent, None), None, Absent, None, None, false)
    ensures AdminSession.Effect(w, Flush).session == AdminSession.Effect(w, SignOut).session
  {
  }

  /** An administrator session is opened, or proved again, only by what was typed rightly and with no lockout in
      force, and only for an administrator, bound to the account as it is then. */
  lemma {:induction false} SessionsOpenRightly(w: World, h: Happening)
    requires var v := AdminSession.Effect(w, h);
             v.session.state.Some? && (w.session.state.Some? ==>
               v.session.state.value != w.session.state.value.(lastSeen := v.session.state.value.lastSeen))
    ensures (h.TypeCode? || h.TypeEnrolment? || h.Reprove?) && h.right && !h.locked
    ensures h.Reprove? ==> w.session.state.Some? && Principal(w.session, w.scene) == Some(w.session.state.value.user)
    ensures !h.Reprove? ==> PendingStands(w.session, w.scene)
    ensures var v := AdminSession.Effect(w, h); var st := v.session.state.value;
            && st.user == (if h.Reprove? then w.session.state.value.user else w.session.pending.value.user)
            && st.strongAt == st.lastSeen == v.scene.db.clock && st.gate == w.session.gate.passedAt
            && (!h.Reprove? ==> st.verifiedAt == v.scene.db.clock)
            && (h.Reprove? ==> st.verifiedAt == w.session.state.value.verifiedAt)
            && StillIs(v.scene.db, st.user, st.binding) && IsAdministrator(v.scene.db, st.user)
  {
    hide PendingStands, WhyEnded;
    match h
    case TypeCode(_, _, _) => CodesOpenRightly(w, h);
    case TypeEnrolment(_, _, _, _) => EnrolmentsOpenRightly(w, h);
    case Reprove(_, _, _, _, _) => ReproofsRebindRightly(w, h);
    case _ => OthersOpenNothing(w, h);
  }

  lemma OthersOpenNothing(w: World, h: Happening)
    requires !h.TypeCode? && !h.TypeEnrolment? && !h.Reprove?
    ensures var v := AdminSession.Effect(w, h);
            v.session.state.Some? ==>
              (w.session.state.Some? && v.session.state.value == w.session.state.value.(lastSeen := v.session.state.value.lastSeen))
  {
    hide HasPassed, Eligible, Run;
  }

  ghost predicate OpensRightly(w: World, h: Happening, v: World, user: UserId)
    requires v.session.state.Some?
  {
    var st := v.session.state.value;
    && st.user == user && st.strongAt == st.lastSeen == v.scene.db.clock && st.gate == w.session.gate.passedAt
    && StillIs(v.scene.db, st.user, st.binding) && IsAdministrator(v.scene.db, st.user)
  }

  lemma CodesOpenRightly(w: World, h: Happening)
    requires h.TypeCode? && AdminSession.Effect(w, h).session.state != w.session.state
    ensures AdminSession.Effect(w, h).session.state.Some? && h.right && !h.locked && PendingStands(w.session, w.scene)
    ensures var v := AdminSession.Effect(w, h);
            OpensRightly(w, h, v, w.session.pending.value.user) && v.session.state.value.verifiedAt == v.scene.db.clock
  {
    hide HasPassed, Run;
    EligibleIff(AdminSession.Effect(w, h).scene.db, w.session.pending.value.user);
  }

  lemma EnrolmentsOpenRightly(w: World, h: Happening)
    requires h.TypeEnrolment? && AdminSession.Effect(w, h).session.state != w.session.state
    ensures AdminSession.Effect(w, h).session.state.Some? && h.right && !h.locked && PendingStands(w.session, w.scene)
    ensures var v := AdminSession.Effect(w, h);
            OpensRightly(w, h, v, w.session.pending.value.user) && v.session.state.value.verifiedAt == v.scene.db.clock
  {
    hide HasPassed, Run, FactorEnrolled;
    EligibleIff(AdminSession.Effect(w, h).scene.db, w.session.pending.value.user);
  }

  lemma ReproofsRebindRightly(w: World, h: Happening)
    requires h.Reprove? && AdminSession.Effect(w, h).session.state.Some?
    requires AdminSession.Effect(w, h).session.state != w.session.state
    ensures h.right && !h.locked && w.session.state.Some? && Principal(w.session, w.scene) == Some(w.session.state.value.user)
    ensures var v := AdminSession.Effect(w, h);
            && OpensRightly(w, h, v, w.session.state.value.user)
            && v.session.state.value.verifiedAt == w.session.state.value.verifiedAt
  {
    hide HasPassed, Run, HashUpgraded;
    if w.session.state.Some? { EligibleIff(AdminSession.Effect(w, h).scene.db, w.session.state.value.user); }
  }

  /** A right code opens the session exactly when, read once more, the account is still what the password was typed
      for and still an administrator's; a wrong or locked-out one leaves everything for another try. */
  lemma {:induction false} CodeOpensIff(w: World, right: bool, locked: bool, meanwhile: seq<Event>)
    requires PendingStands(w.session, w.scene) && w.scene.db.accounts[w.session.pending.value.user].device.Some?
    ensures var p := w.session.pending.value;
            var v := AdminSession.Effect(w, TypeCode(right, locked, meanwhile));
            && v.scene.db == Run(w.scene.db, meanwhile)
            && if !right || locked then v.session == w.session
               else
                 var now := v.scene.db.clock;
                 && v.session.pending == None
                 && v.session.state == (if StillIs(v.scene.db, p.user, p.binding) && IsAdministrator(v.scene.db, p.user)
                                        then Some(AdminState(p.user, p.binding, w.session.gate.passedAt, now, now, now))
                                        else w.session.state)
  {
    hide HasPassed, Run;
    EligibleIff(Run(w.scene.db, meanwhile), w.session.pending.value.user);
  }

  /** An authenticator is set up in a browser exactly by a right code with no lockout in force, for a standing
      password, a sealed secret and an account that had none at either look. */
  lemma {:induction false} EnrolmentWritesIff(w: World, right: bool, locked: bool, meanwhile: seq<Event>, after: seq<Event>)
    ensures var v := AdminSession.Effect(w, TypeEnrolment(right, locked, meanwhile, after));
            var db := Run(w.scene.db, meanwhile);
            if && PendingStands(w.session, w.scene) && w.session.sealedEnrolment && right && !locked
               && w.scene.db.accounts[w.session.pending.value.user].device == None
               && w.session.pending.value.user in db.accounts && db.accounts[w.session.pending.value.user].device == None
            then
              var user := w.session.pending.value.user;
              v.scene.db == Run(db.(accounts := db.accounts[user :=
                                      db.accounts[user].(device := Some(true), epoch := db.accounts[user].epoch + 1)],
                                    trail := db.trail + [Enrolled(user, db.clock)]), after)
            else v.scene.db == Run(db, after)
  {
    hide HasPassed, Run, Eligible;
  }

  /** A secret is sealed for a standing password of an account without an authenticator, and a marker that no longer
      stands goes. */
  lemma {:induction false} ShowingEnrolment(w: World)
    ensures var v := AdminSession.Effect(w, ShowEnrolment);
            && v.scene == w.scene && v.log == w.log
            && v.session == (if w.session.pending.Some? && !PendingStands(w.session, w.scene)
                             then w.session.(pending := None, sealedEnrolment := false)
                             else if w.session.pending.Some? && w.scene.db.accounts[w.session.pending.value.user].device == None
                             then w.session.(sealedEnrolment := true)
                             else w.session)
  {
    hide HasPassed, Eligible;
  }

  /** A right password leaves a marker exactly behind the gate, with no lockout in force, for an administrator; and
      is hashed again, if that is due, even when it leaves none. */
  lemma {:induction false} TypingAPassword(w: World, user: UserId, supplied: Text, outdated: bool, locked: bool)
    ensures var v := AdminSession.Effect(w, TypePassword(user, supplied, outdated, locked));
            var correct := IsBehind(w.session, w.scene) && !locked
                           && user in w.scene.db.accounts && TextOf(w.scene.db.accounts[user].password) == Some(supplied);
            && v.scene.db == (if correct && outdated then HashUpgraded(w.scene.db, user) else w.scene.db)
            && v.session == (if correct && IsAdministrator(w.scene.db, user)
                             then w.session.(pending := Some(Waiting(user, w.scene.db.clock, BindingOf(v.scene.db.accounts[user]),
                                                                     w.session.gate.passedAt)),
                                             sealedEnrolment := false)
                             else w.session)
  {
    BehindIff(w.session, w.scene);
    EligibleIff(w.scene.db, user);
    EligibleIff(PasswordChecked(w.scene, user, supplied, outdated).db, user);
    hide HasPassed, IsBehind, Behind, Resolve;
  }
}
