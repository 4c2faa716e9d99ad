/** The verified administrator session behind the shared gate (`admin_session.py`), with the middleware
and views that carry it through persona changes.

A `World` is one browser's session, the register it is checked against, the configured password and
limits, and a history of what was proved. Every account change made by anybody else is a run of
`Accounts`; a request that reads the register twice lets such a run pass between its reads. */
module AdminSession {
  import opened Outcomes
  import opened Capabilities
  import opened Accounts
  import opened GateSession

  // -- limits ------------------------------------------------------------------------------------

  /** The configured values; `None` where absent or not a number. */
  datatype Settings = Settings(absolute: Option<int>, idle: Option<int>, reauth: Option<int>)

  const PENDING_LIMIT := 300 * SECOND
  const LAST_SEEN_RESOLUTION := 30 * SECOND

  function Setting(value: Option<int>, fallback: int, low: int, high: int): int {
    if value.Some? && low <= value.value <= high then value.value else fallback
  }

  function Min(a: int, b: int): int { if a <= b then a else b }

  function AbsoluteSeconds(s: Settings): int { Setting(s.absolute, 7200, 300, 43200) }

  function IdleSeconds(s: Settings): int { Min(Setting(s.idle, 900, 60, 43200), AbsoluteSeconds(s)) }

  function ReauthSeconds(s: Settings): int { Min(Setting(s.reauth, 600, 60, 43200), IdleSeconds(s)) }

  // -- what a session keeps -----------------------------------------------------------------------

  /** Keyed digest of the credential stamp and the epoch: injective, so those two themselves. */
  datatype Binding = Binding(stamp: Stamp, epoch: nat)

  function BindingOf(a: Account): Binding { Binding(a.CredentialStamp(), a.epoch) }

  datatype AdminState = AdminState(
    user: UserId,
    binding: Binding,
    gate: Mark,
    verifiedAt: int,
    lastSeen: int,
    strongAt: int)

  /** A correct password waiting for its code. */
  datatype Waiting = Waiting(user: UserId, at: int, binding: Binding, gate: Mark)

  datatype Session = Session(
    gate: Gate,
    persona: Option<UserId>,
    personaChosenAt: Mark,
    state: Option<AdminState>,
    pending: Option<Waiting>,
    sealedEnrolment: bool)

  const EMPTY := Session(SHUT, None, Absent, None, None, false)

  /** What a request can see besides its own session. The register's clock is the time. */
  datatype Scene = Scene(db: Db, door: Door, settings: Settings)

  /** What was proved in this browser, oldest first. `Bound` is the account an administrator session was
      last bound to. */
  datatype Entry =
    | GateTyped(at: int, version: Version)
    | PasswordProved(at: int, user: UserId, gate: Mark, row: Account)
    | CodeProved(at: int, user: UserId, gate: Mark)
    | Bound(at: int, user: UserId, row: Account)

  datatype World = World(scene: Scene, session: Session, log: seq<Entry>)

  function Clock(scene: Scene): int { scene.db.clock }

  predicate Behind(session: Session, scene: Scene) { HasPassed(session.gate, scene.door, Clock(scene)) }

  // -- who may hold one ------------------------------------------------------------------------------

  predicate Eligible(db: Db, user: UserId) {
    user in db.accounts
    && var a := db.accounts[user];
       && a.Seated(db.config)
       && (a.Has(ManageAccounts) || a.role == TechnicalAdministrator)
  }

  datatype Ending = GateClosed | AbsoluteTimeout | IdleTimeout | UnknownAccount | CredentialsChanged | NoLongerEligible

  /** `_expiry_reason` and the account checks of `_shared_gate_principal`, in their order. */
  function WhyEnded(session: Session, scene: Scene): Option<Ending>
    requires session.state.Some?
  {
    var st := session.state.value;
    var now := Clock(scene);
    if !Behind(session, scene) || st.gate != session.gate.passedAt then Some(GateClosed)
    else if now - st.verifiedAt >= AbsoluteSeconds(scene.settings) * SECOND then Some(AbsoluteTimeout)
    else if now - st.lastSeen >= IdleSeconds(scene.settings) * SECOND then Some(IdleTimeout)
    else if st.user !in scene.db.accounts then Some(UnknownAccount)
    else if st.binding != BindingOf(scene.db.accounts[st.user]) then Some(CredentialsChanged)
    else if !Eligible(scene.db, st.user) then Some(NoLongerEligible)
    else None
  }

  /** `verified_administrator`'s answer. */
  function Principal(session: Session, scene: Scene): Option<UserId> {
    if session.state.Some? && WhyEnded(session, scene).None? then Some(session.state.value.user) else None
  }

  function PendingDropped(session: Session): Session { session.(pending := None, sealedEnrolment := false) }

  /** `end`: the administrator session and what was pending; the gate and the persona stay. */
  function Ended(session: Session): Session { PendingDropped(session).(state := None) }

  /** Asking who is verified ends a session that no longer is. */
  function Asked(session: Session, scene: Scene): Session {
    if session.state.Some? && WhyEnded(session, scene).Some? then Ended(session) else session
  }

  /** `needs_fresh_proof`. */
  predicate NeedsFreshProof(session: Session, scene: Scene) {
    session.state.None? || Clock(scene) - session.state.value.strongAt > ReauthSeconds(scene.settings) * SECOND
  }

  /** `note_activity`, from administration pages only; rewritten at most every thirty seconds. */
  function Administered(session: Session, scene: Scene): Session {
    var asked := Asked(session, scene);
    if asked.state.Some? && Clock(scene) - asked.state.value.lastSeen >= LAST_SEEN_RESOLUTION
    then asked.(state := Some(asked.state.value.(lastSeen := Clock(scene)))) else asked
  }

  // -- the step-up -------------------------------------------------------------------------------------

  /** `check_password`. */
  predicate PasswordIs(db: Db, user: UserId, supplied: Text) {
    user in db.accounts && TextOf(db.accounts[user].password) == Some(supplied)
  }

  /** What checking it leaves in the register: a right password whose hash is `outdated` is hashed again. */
  function PasswordChecked(scene: Scene, user: UserId, supplied: Text, outdated: bool): Scene {
    if PasswordIs(scene.db, user, supplied) && outdated then scene.(db := HashUpgraded(scene.db, user)) else scene
  }

  /** `pending_user`'s conditions. */
  predicate PendingStands(session: Session, scene: Scene) {
    session.pending.Some?
    && var p := session.pending.value;
       && Clock(scene) - p.at <= PENDING_LIMIT
       && Behind(session, scene) && p.gate == session.gate.passedAt
       && Eligible(scene.db, p.user)
       && p.binding == BindingOf(scene.db.accounts[p.user])
  }

  function PendingAsked(session: Session, scene: Scene): Session {
    if session.pending.Some? && !PendingStands(session, scene) then PendingDropped(session) else session
  }

  /** `_establish_if_still_bound` asks once more, with the account read afresh. */
  predicate StillBound(session: Session, scene: Scene, user: UserId) {
    session.pending.Some? && Eligible(scene.db, user)
    && session.pending.value.binding == BindingOf(scene.db.accounts[user])
  }

  function Established(session: Session, scene: Scene, user: UserId): Session
    requires user in scene.db.accounts
  {
    var now := Clock(scene);
    PendingDropped(session).(state :=
      Some(AdminState(user, BindingOf(scene.db.accounts[user]), session.gate.passedAt, now, now, now)))
  }

  // -- across a persona change --------------------------------------------------------------------------

  /** `carry`, `login` or `logout`, `open_gate` and `restore`: the pass and the administrator session go
      across as they were, what was pending does not. */
  function PersonaChanged(session: Session, scene: Scene, person: Option<UserId>): Session {
    var now := Clock(scene);
    Session(
      Opened(scene.door, Some(CurrentPass(session.gate)), now),
      person,
      if person.Some? then At(now) else Absent,
      session.state,
      None,
      false)
  }

  /** The middleware, once for every request. `stale`: the persona may no longer be acted as. */
  function Arrived(session: Session, scene: Scene, stale: bool): Session {
    if Behind(session, scene) then
      var seen := session.(gate := Noted(session.gate, Clock(scene)));
      if seen.persona.Some? && stale then PersonaChanged(seen, scene, None) else seen
    else if OpenedUnderAnother(session.gate, scene.door) || session.persona.Some? then EMPTY
    else if session.state.Some? then Ended(session)
    else session
  }

  // -- steps ----------------------------------------------------------------------------------------------

  /** What happens next. `locked` and `right` are the throttle's and the code check's answers, `outdated` whether
      a stored hash is to be made again, `meanwhile` and `after` what others did to the register between a
      request's reads of it. */
  datatype Happening =
    | Elsewhere(events: seq<Event>)
    | Rotate(configured: Option<Version>)
    | Flush
    | Arrive(stale: bool)
    | TypeGate(supplied: Version, locked: bool)
    | ChoosePersona(person: Option<UserId>, selectable: bool)
    | Ask
    | Administer
    | TypePassword(user: UserId, supplied: Text, outdated: bool, locked: bool)
    | ShowEnrolment
    | TypeCode(right: bool, locked: bool, meanwhile: seq<Event>)
    | TypeEnrolment(right: bool, locked: bool, meanwhile: seq<Event>, after: seq<Event>)
    | Reprove(supplied: Text, outdated: bool, right: bool, locked: bool, meanwhile: seq<Event>)
    | EndAdministration
    | SignOut

  function Passing(scene: Scene, events: seq<Event>): Scene { scene.(db := Run(scene.db, events)) }

  /** The gate's own page: a session already behind it is not asked again. */
  function GatePosted(w: World, supplied: Version, locked: bool): World {
    if Behind(w.session, w.scene) || locked || w.scene.door.configured != Some(supplied) then w
    else
      w.(session := w.session.(gate := Opened(w.scene.door, None, Clock(w.scene))),
         log := w.log + [GateTyped(Clock(w.scene), supplied)])
  }

  function PersonaChosen(w: World, person: Option<UserId>, selectable: bool): World {
    if !Behind(w.session, w.scene) || (person.Some? && !selectable) then w
    else w.(session := PersonaChanged(w.session, w.scene, person))
  }

  /** `attempt_password`: checked first, then whether its owner may administer. */
  function PasswordPosted(w: World, user: UserId, supplied: Text, outdated: bool, locked: bool): World {
    if !Behind(w.session, w.scene) || locked then w
    else
      var scene := PasswordChecked(w.scene, user, supplied, outdated);
      if !PasswordIs(w.scene.db, user, supplied) || !Eligible(scene.db, user) then w.(scene := scene)
      else
        var row, gate, now := scene.db.accounts[user], w.session.gate.passedAt, Clock(scene);
        World(scene,
          w.session.(pending := Some(Waiting(user, now, BindingOf(row), gate)), sealedEnrolment := false),
          w.log + [PasswordProved(now, user, gate, row)])
  }

  /** `begin_enrolment`. */
  function EnrolmentShown(w: World): World {
    var session := PendingAsked(w.session, w.scene);
    w.(session := if session.pending.Some? && w.scene.db.accounts[session.pending.value.user].device.None?
                  then session.(sealedEnrolment := true) else session)
  }

  /** The end of both step-ups: the code is proved; the account is read again before anything opens. */
  function CodeAccepted(w: World, user: UserId, typedAt: int, after: seq<Event>): World {
    var scene := Passing(w.scene, after);
    var log := w.log + [CodeProved(typedAt, user, w.session.gate.passedAt)];
    if !StillBound(w.session, scene, user) then World(scene, PendingDropped(w.session), log)
    else World(scene, Established(w.session, scene, user), log + [Bound(Clock(scene), user, scene.db.accounts[user])])
  }

  /** `verify_code`. */
  function CodePosted(w: World, right: bool, locked: bool, meanwhile: seq<Event>): World {
    var asked := w.(session := PendingAsked(w.session, w.scene));
    if asked.session.pending.None? || w.scene.db.accounts[asked.session.pending.value.user].device.None?
       || locked || !right
    then asked.(scene := Passing(w.scene, meanwhile))
    else CodeAccepted(asked, asked.session.pending.value.user, Clock(w.scene), meanwhile)
  }

  /** `confirm_enrolment`: the epoch moves with the new authenticator, and the pending marker follows it
      only if nothing else had moved. */
  function EnrolmentPosted(w: World, right: bool, locked: bool, meanwhile: seq<Event>, after: seq<Event>): World {
    var session := PendingAsked(w.session, w.scene);
    var scene := Passing(w.scene, meanwhile);
    if session.pending.None? || w.scene.db.accounts[session.pending.value.user].device.Some? || !session.sealedEnrolment
       || locked || session.pending.value.user !in scene.db.accounts
       || scene.db.accounts[session.pending.value.user].device.Some? || !right
    then World(Passing(scene, after), session, w.log)
    else
      var user := session.pending.value.user;
      var enrolled := scene.(db := FactorEnrolled(scene.db, user, Clock(scene)));
      if session.pending.value.binding != BindingOf(scene.db.accounts[user]) then
        World(Passing(enrolled, after), PendingDropped(session), w.log)
      else
        var moved := session.pending.value.(binding := BindingOf(enrolled.db.accounts[user]));
        CodeAccepted(World(enrolled, session.(pending := Some(moved), sealedEnrolment := false), w.log), user, Clock(w.scene), after)
  }

  /** `reauthenticate`: the binding follows the account unless the epoch moved in between. Checking the
      password may itself have hashed it again. */
  function Reproved(w: World, supplied: Text, outdated: bool, right: bool, locked: bool, meanwhile: seq<Event>): World {
    var session := Asked(w.session, w.scene);
    if session.state.None? || locked then World(Passing(w.scene, meanwhile), session, w.log)
    else
      var user := session.state.value.user;
      var checked := PasswordChecked(w.scene, user, supplied, outdated);
      var scene := Passing(checked, meanwhile);
      if !PasswordIs(w.scene.db, user, supplied) || !right then World(scene, session, w.log)
      else ProvedAgain(World(checked, session, w.log), user, scene)
  }

  /** Password and code are right; the account is read again. */
  function ProvedAgain(w: World, user: UserId, later: Scene): World
    requires w.session.state.Some? && user in w.scene.db.accounts
  {
    var gate, row := w.session.gate.passedAt, w.scene.db.accounts[user];
    var log := w.log + [PasswordProved(Clock(w.scene), user, gate, row), CodeProved(Clock(w.scene), user, gate)];
    if !Eligible(later.db, user) || later.db.accounts[user].epoch != row.epoch then World(later, Ended(w.session), log)
    else
      var now := Clock(later);
      World(later,
        w.session.(state := Some(w.session.state.value.(
          binding := BindingOf(later.db.accounts[user]), strongAt := now, lastSeen := now))),
        log + [Bound(now, user, later.db.accounts[user])])
  }

  function Effect(w: World, h: Happening): World {
    match h
    case Elsewhere(events) => w.(scene := Passing(w.scene, events))
    case Rotate(configured) => w.(scene := w.scene.(door := w.scene.door.(configured := configured)))
    case Flush => w.(session := EMPTY)
    case Arrive(stale) => w.(session := Arrived(w.session, w.scene, stale))
    case TypeGate(supplied, locked) => GatePosted(w, supplied, locked)
    case ChoosePersona(person, selectable) => PersonaChosen(w, person, selectable)
    case Ask => w.(session := Asked(w.session, w.scene))
    case Administer => w.(session := Administered(w.session, w.scene))
    case TypePassword(user, supplied, outdated, locked) => PasswordPosted(w, user, supplied, outdated, locked)
    case ShowEnrolment => EnrolmentShown(w)
    case TypeCode(right, locked, meanwhile) => CodePosted(w, right, locked, meanwhile)
    case TypeEnrolment(right, locked, meanwhile, after) => EnrolmentPosted(w, right, locked, meanwhile, after)
    case Reprove(supplied, outdated, right, locked, meanwhile) => Reproved(w, supplied, outdated, right, locked, meanwhile)
    case EndAdministration => w.(session := Ended(w.session))
    case SignOut => w.(session := EMPTY)
  }

  /** A happening and how much later than the last one it comes: one browser's requests take turns. */
  datatype Moment = Moment(delay: nat, what: Happening)

  function Later(w: World, delay: nat): World {
    w.(scene := w.scene.(db := w.scene.db.(clock := w.scene.db.clock + 1 + delay)))
  }

  function Next(w: World, m: Moment): World { Effect(Later(w, m.delay), m.what) }

  function After(w: World, moments: seq<Moment>): World {
    if moments == [] then w else Next(After(w, moments[..|moments| - 1]), moments[|moments| - 1])
  }
}
