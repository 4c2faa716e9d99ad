/** The session services as they run: entries of one browser's session rewritten in place, the register
read afresh between the reads of one request. What each leaves behind is what `AdminSession` says. */
module BrowserSession {
  import opened Outcomes
  import opened Accounts
  import opened GateSession
  import opened AdminSession

  class Browser {
    var scene: Scene
    var passedAt: Mark
    var lastSeen: Mark
    var credential: Option<Version>
    var persona: Option<UserId>
    var personaChosenAt: Mark
    var state: Option<AdminState>
    var pending: Option<Waiting>
    var sealedEnrolment: bool
    ghost var log: seq<Entry>

    constructor (scene: Scene)
      ensures Snapshot() == World(scene, EMPTY, [])
    {
      this.scene, passedAt, lastSeen, credential := scene, Absent, Absent, None;
      persona, personaChosenAt, state, pending, sealedEnrolment, log := None, Absent, None, None, false, [];
    }

    function Kept(): Session
      reads this
    {
      Session(Gate(passedAt, lastSeen, credential), persona, personaChosenAt, state, pending, sealedEnrolment)
    }

    ghost function Snapshot(): World
      reads this
    {
      World(scene, Kept(), log)
    }

    /** What others do to the register while this request is not looking. */
    method Meanwhile(events: seq<Event>)
      modifies this`scene
      ensures scene == Passing(old(scene), events)
    {
      scene := scene.(db := Run(scene.db, events));
    }

    // -- the gate ------------------------------------------------------------------------------------

    method Passed() returns (behind: bool)
      ensures behind == Behind(Kept(), scene)
    {
      var now := Clock(scene);
      if scene.door.configured.None? || credential != scene.door.configured { return false; }
      if !passedAt.At? || now - passedAt.moment >= scene.door.sessionLimit { return false; }
      var seen := passedAt;
      if lastSeen != Absent {
        if lastSeen == Garbled { return false; }
        seen := lastSeen;
      }
      behind := now - seen.moment < scene.door.idleLimit;
    }

    method NoteGateActivity()
      modifies this`lastSeen
      ensures Kept() == old(Kept()).(gate := Noted(old(Kept()).gate, Clock(scene)))
    {
      var now := Clock(scene);
      if !lastSeen.At? || now - lastSeen.moment >= RESOLUTION { lastSeen := At(now); }
    }

    method OpenGate(carried: Option<Pass>)
      modifies this`passedAt, this`lastSeen, this`credential
      ensures Kept() == old(Kept()).(gate := Opened(scene.door, carried, Clock(scene)))
    {
      var now := At(Clock(scene));
      if carried.None? {
        passedAt, credential := now, scene.door.configured;
      } else {
        passedAt := if carried.value.passedAt == Absent then now else carried.value.passedAt;
        credential := carried.value.credential;
      }
      lastSeen := now;
    }

    /** `logout`: the whole session goes. */
    method Logout()
      modifies this`passedAt, this`lastSeen, this`credential, this`persona, this`personaChosenAt, this`state,
               this`pending, this`sealedEnrolment
      ensures Kept() == EMPTY
    {
      passedAt, lastSeen, credential := Absent, Absent, None;
      persona, personaChosenAt, state, pending, sealedEnrolment := None, Absent, None, None, false;
    }

    /** `login`: a session nobody was chosen in, or this person already, keeps its entries. */
    method Login(person: UserId)
      modifies this`passedAt, this`lastSeen, this`credential, this`persona, this`personaChosenAt, this`state,
               this`pending, this`sealedEnrolment
      ensures Kept() == (if old(persona) in {None, Some(person)} then old(Kept()) else EMPTY).(persona := Some(person))
    {
      if persona.Some? && persona.value != person { Logout(); }
      persona := Some(person);
    }

    method PostGate(supplied: Version, locked: bool)
      modifies this
      ensures Snapshot() == GatePosted(old(Snapshot()), supplied, locked)
    {
      var behind := Passed();
      if behind || locked { return; }
      if scene.door.configured.None? || supplied != scene.door.configured.value { return; }
      OpenGate(None);
      log := log + [GateTyped(Clock(scene), supplied)];
    }

    // -- personas --------------------------------------------------------------------------------------

    method DropPending()
      modifies this`pending, this`sealedEnrolment
      ensures Kept() == PendingDropped(old(Kept()))
    {
      pending, sealedEnrolment := None, false;
    }

    /** `restore`: the administrator state back as it was, and only it. */
    method Restore(carried: Option<AdminState>)
      modifies this`pending, this`sealedEnrolment, this`state
      ensures Kept() == PendingDropped(old(Kept())).(state := if carried.Some? then carried else old(state))
    {
      DropPending();
      if carried.Some? { state := carried; }
    }

    /** `act_as`. */
    method ActAs(person: Option<UserId>, selectable: bool)
      modifies this
      ensures Snapshot() == PersonaChosen(old(Snapshot()), person, selectable)
    {
      var behind := Passed();
      if !behind { return; }
      var carried, administrator := CurrentPass(Kept().gate), state;
      if person.None? {
        Logout();
        OpenGate(Some(carried));
        Restore(administrator);
      } else if selectable {
        Login(person.value);
        OpenGate(Some(carried));
        Restore(administrator);
        personaChosenAt := At(Clock(scene));
      }
    }

    /** The middleware. */
    method Enter(stale: bool)
      modifies this
      ensures Snapshot() == old(Snapshot()).(session := Arrived(old(Snapshot()).session, scene, stale))
    {
      var behind := Passed();
      if behind {
        NoteGateActivity();
        if persona.Some? && stale {
          var carried, administrator := CurrentPass(Kept().gate), state;
          Logout();
          OpenGate(Some(carried));
          Restore(administrator);
        }
        return;
      }
      var superseded := OpenedUnderAnother(Kept().gate, scene.door);
      if state.Some? { End(); }
      if superseded { Logout(); }
      if persona.Some? { Logout(); }
    }

    // -- the administrator session ----------------------------------------------------------------------

    method End()
      modifies this`state, this`pending, this`sealedEnrolment
      ensures Kept() == Ended(old(Kept()))
    {
      state := None;
      DropPending();
    }

    /** `verified_administrator`: re-checked every time, and ended when it no longer holds. */
    method VerifiedAdministrator() returns (user: Option<UserId>)
      modifies this`state, this`pending, this`sealedEnrolment
      ensures user == Principal(old(Kept()), scene)
      ensures Kept() == Asked(old(Kept()), scene)
    {
      if state.None? { return None; }
      var st, now := state.value, Clock(scene);
      user := None;
      var behind := Passed();
      if behind && st.gate == passedAt
         && now - st.verifiedAt < AbsoluteSeconds(scene.settings) * SECOND
         && now - st.lastSeen < IdleSeconds(scene.settings) * SECOND
         && st.user in scene.db.accounts && st.binding == BindingOf(scene.db.accounts[st.user]) && Eligible(scene.db, st.user)
      {
        user := Some(st.user);
      } else {
        End();
      }
    }

    method NoteActivity()
      modifies this`state, this`pending, this`sealedEnrolment
      ensures Kept() == Administered(old(Kept()), scene)
    {
      var user := VerifiedAdministrator();
      if user.Some? && Clock(scene) - state.value.lastSeen >= LAST_SEEN_RESOLUTION {
        state := Some(state.value.(lastSeen := Clock(scene)));
      }
    }

    /** `check_password`, which hashes a right password again when its hash is outdated. */
    method CheckPassword(user: UserId, supplied: Text, outdated: bool) returns (correct: bool)
      modifies this`scene
      ensures correct == PasswordIs(old(scene).db, user, supplied)
      ensures scene == PasswordChecked(old(scene), user, supplied, outdated)
      ensures scene.db.accounts.Keys == old(scene).db.accounts.Keys
    {
      if user !in scene.db.accounts || scene.db.accounts[user].password.None? { return false; }
      correct := scene.db.accounts[user].password.value.text == supplied;
      if correct && outdated { scene := scene.(db := HashUpgraded(scene.db, user)); }
    }

    method AttemptPassword(user: UserId, supplied: Text, outdated: bool, locked: bool)
      modifies this
      ensures Snapshot() == PasswordPosted(old(Snapshot()), user, supplied, outdated, locked)
    {
      hide PasswordChecked, PasswordIs, HasPassed;
      var behind := Passed();
      if !behind || locked { return; }
      var correct := CheckPassword(user, supplied, outdated);
      if !correct || !Eligible(scene.db, user) { return; }
      sealedEnrolment := false;
      pending := Some(Waiting(user, Clock(scene), BindingOf(scene.db.accounts[user]), passedAt));
      log := log + [PasswordProved(Clock(scene), user, passedAt, scene.db.accounts[user])];
    }

    method PendingUser() returns (user: Option<UserId>)
      modifies this`pending, this`sealedEnrolment
      ensures Kept() == PendingAsked(old(Kept()), scene)
      ensures user == if pending.Some? then Some(pending.value.user) else None
      ensures user.Some? ==> user.value in scene.db.accounts
    {
      if pending.None? { return None; }
      var p := pending.value;
      var behind := Passed();
      if Clock(scene) - p.at > PENDING_LIMIT || !behind || p.gate != passedAt || !Eligible(scene.db, p.user)
         || p.binding != BindingOf(scene.db.accounts[p.user])
      {
        DropPending();
        return None;
      }
      user := Some(p.user);
    }

    method BeginEnrolment()
      modifies this`pending, this`sealedEnrolment
      ensures Kept() == EnrolmentShown(old(Snapshot())).session
    {
      var user := PendingUser();
      if user.Some? && scene.db.accounts[user.value].device.None? { sealedEnrolment := true; }
    }

    /** `_establish_if_still_bound` and `_establish`, after the code. */
    method Establish(user: UserId, typedAt: int, after: seq<Event>)
      modifies this
      ensures Snapshot() == CodeAccepted(old(Snapshot()), user, typedAt, after)
    {
      hide Run;
      log := log + [CodeProved(typedAt, user, passedAt)];
      Meanwhile(after);
      var waiting := pending;
      DropPending();
      if waiting.None? || !Eligible(scene.db, user) || waiting.value.binding != BindingOf(scene.db.accounts[user]) {
        return;
      }
      var now := Clock(scene);
      state := Some(AdminState(user, BindingOf(scene.db.accounts[user]), passedAt, now, now, now));
      log := log + [Bound(now, user, scene.db.accounts[user])];
    }

    method VerifyCode(right: bool, locked: bool, meanwhile: seq<Event>)
      modifies this
      ensures Snapshot() == CodePosted(old(Snapshot()), right, locked, meanwhile)
    {
      hide Run, CodeAccepted, PendingStands;
      var user := PendingUser();
      if user.None? || scene.db.accounts[user.value].device.None? || locked || !right {
        Meanwhile(meanwhile);
        return;
      }
      Establish(user.value, Clock(scene), meanwhile);
    }

    method ConfirmEnrolment(right: bool, locked: bool, meanwhile: seq<Event>, after: seq<Event>)
      modifies this
      ensures Snapshot() == EnrolmentPosted(old(Snapshot()), right, locked, meanwhile, after)
    {
      hide Run, CodeAccepted, PendingStands;
      var typedAt := Clock(scene);
      var user := PendingUser();
      var ready := user.Some? && scene.db.accounts[user.value].device.None? && sealedEnrolment && !locked;
      Meanwhile(meanwhile);
      if !ready || user.value !in scene.db.accounts || scene.db.accounts[user.value].device.Some? || !right {
        Meanwhile(after);
        return;
      }
      var before := BindingOf(scene.db.accounts[user.value]);
      scene := scene.(db := FactorEnrolled(scene.db, user.value, Clock(scene)));
      if pending.value.binding != before {
        DropPending();
        Meanwhile(after);
        return;
      }
      sealedEnrolment := false;
      pending := Some(pending.value.(binding := BindingOf(scene.db.accounts[user.value])));
      Establish(user.value, typedAt, after);
    }

    method Reauthenticate(supplied: Text, outdated: bool, right: bool, locked: bool, meanwhile: seq<Event>)
      returns (accepted: bool)
      modifies this
      ensures Snapshot() == Reproved(old(Snapshot()), supplied, outdated, right, locked, meanwhile)
    {
      hide Run, PasswordIs, HashUpgraded, HasPassed;
      var user := VerifiedAdministrator();
      if user.None? || locked {
        Meanwhile(meanwhile);
        return false;
      }
      var correct := CheckPassword(user.value, supplied, outdated);
      var row, typedAt := scene.db.accounts[user.value], Clock(scene);
      Meanwhile(meanwhile);
      if !correct || !right { return false; }
      log := log + [PasswordProved(typedAt, user.value, passedAt, row), CodeProved(typedAt, user.value, passedAt)];
      if user.value !in scene.db.accounts || !Eligible(scene.db, user.value)
         || scene.db.accounts[user.value].epoch != row.epoch
      {
        End();
        return false;
      }
      var now := Clock(scene);
      state := Some(state.value.(binding := BindingOf(scene.db.accounts[user.value]), strongAt := now, lastSeen := now));
      log := log + [Bound(now, user.value, scene.db.accounts[user.value])];
      accepted := true;
    }
  }
}
