/** The account register: account rows, one-time links and the second-factor audit trail, and what
each administration or credential service does to them (`administration.py`, `credentials.py`,
`tokens.py`, and the rules on `models.User` and `AccountCredentialToken`).

A service runs as one step under its lock. A password is stored as its text and a fresh salt, so no two
hashings give the same hash; a credential stamp is what it digests. Times are whole microseconds. */
module Accounts {
  import opened Outcomes
  import opened Capabilities

  type UserId = nat
  type Selector = nat

  datatype Provisioning = Pending | Invited | Activated
  datatype Purpose = Activation | PasswordReset
  datatype Mode = SharedGate | LocalPassword | OtherMode

  datatype Config = Config(mode: Mode, realData: bool)

  type Text = nat

  /** A stored password: which text, and the salt of this one hashing of it. */
  datatype Hash = Hash(text: Text, salt: nat)

  /** What an account's owner signs in with. */
  datatype Login = Login(text: Option<Text>, upn: string, active: bool)

  function TextOf(password: Option<Hash>): Option<Text> {
    if password.Some? then Some(password.value.text) else None
  }

  /** `credential_stamp`'s material: a link works only while its account still has this one. */
  datatype Stamp = Stamp(password: Option<Hash>, upn: string, active: bool)

  function LoginOf(s: Stamp): Login { Login(TextOf(s.password), s.upn, s.active) }

  /** An account row. `password` is a usable password's hash; `device` a confirmed authenticator, and
      whether the current key still opens its secret. */
  datatype Account = Account(
    upn: string,
    name: string,
    role: Role,
    overrides: Overrides,
    active: bool,
    state: Provisioning,
    epoch: nat,
    password: Option<Hash>,
    passwordSet: bool,
    synthetic: bool,
    approved: bool,
    device: Option<bool>)
  {
    predicate HasLocalPassword() { passwordSet && password.Some? }

    function CredentialStamp(): Stamp { Stamp(password, upn, active) }

    /** `has_capability`: an inactive account holds nothing. */
    predicate Has(c: Capability) { active && Resolve(role, overrides, c) }

    /** `_touches_administration`: a change here needs a delegate's hand. */
    predicate TouchesAdministration() {
      role == TechnicalAdministrator || Has(ManageAccounts)
      || ManageAccounts in overrides || DelegateAdministration in overrides
    }

    predicate HoldsBoth() { Has(ManageAccounts) && Has(DelegateAdministration) }

    /** Signed off for use here: on, activated, with a password, and not synthetic where data is real. */
    predicate Seated(config: Config) {
      active && state == Activated && HasLocalPassword() && !(synthetic && config.realData)
    }
  }

  datatype By = Self | Administrator | Operator

  /** The security trail's rows about second factors, oldest first. */
  datatype FactorEvent =
    | Enrolled(subject: UserId, at: int)
    | Removed(subject: UserId, agent: By, at: int)

  /** A one-time link's row. The verifier's digest proves the holder has the link. */
  datatype Link = Link(
    user: UserId,
    purpose: Purpose,
    digest: nat,
    stamp: Stamp,
    expiresAt: int,
    used: bool,
    invalidated: bool)
  {
    predicate IsLive() { !used && !invalidated }

    predicate IsUsableAt(now: int) { IsLive() && now < expiresAt }
  }

  /** `previewed` holds the links whose set-password form passed its preview and may yet be submitted. */
  datatype Db = Db(
    config: Config,
    accounts: map<UserId, Account>,
    links: map<Selector, Link>,
    trail: seq<FactorEvent>,
    previewed: set<Selector>,
    nextHash: nat,
    clock: int)

  // -- who counts as a full administrator ----------------------------------------------------

  predicate Usable(config: Config, a: Account) {
    a.Seated(config) && a.HoldsBoth() && a.device == Some(true)
  }

  /** The moment of the latest removal of this account's factor by somebody else. */
  function LatestRemoval(trail: seq<FactorEvent>, id: UserId): Option<int> {
    if trail == [] then None
    else
      var before, e := LatestRemoval(trail[..|trail| - 1], id), trail[|trail| - 1];
      if e.Removed? && e.subject == id && e.agent != Self && (before.None? || before.value <= e.at) then Some(e.at)
      else before
  }

  /** A reset took this account's authenticator and nothing was enrolled since. */
  predicate AwaitingReEnrolment(trail: seq<FactorEvent>, id: UserId, a: Account) {
    var removed := LatestRemoval(trail, id);
    a.device.None? && removed.Some?
    && forall k :: 0 <= k < |trail| && trail[k].Enrolled? && trail[k].subject == id ==> trail[k].at < removed.value
  }

  predicate Standing(db: Db, id: UserId)
    requires id in db.accounts
  {
    var a := db.accounts[id];
    Usable(db.config, a) || (a.Seated(db.config) && a.HoldsBoth() && AwaitingReEnrolment(db.trail, id, a))
  }

  function UsableSet(db: Db): set<UserId> {
    set id | id in db.accounts && Usable(db.config, db.accounts[id])
  }

  function StandingSet(db: Db): set<UserId> {
    set id | id in db.accounts && Standing(db, id)
  }

  function DelegateSet(db: Db): set<UserId> {
    set id | id in db.accounts && db.accounts[id].Has(DelegateAdministration)
  }

  // -- who is acting --------------------------------------------------------------------------------

  datatype Via = AdministratorSession | PersonalSignIn

  datatype Actor =
    | Verified(user: UserId, via: Via, epoch: nat)
    | Bare(user: UserId)

  datatype Refusal =
    | NotVerified
    | StaleProof
    | NotAnAdministrator
    | NotADelegate
    | NoSelfChange
    | NoSuchAccount
    | NameRequired
    | AddressUnacceptable
    | NotGrantable
    | FinalAdministrator
    | Continuity
    | NotPending
    | NotActivated
    | AlreadyInactive
    | AlreadyActive
    | AddressFixed
    | LinkNotAllowed

  predicate ProofAccepted(config: Config, actor: Actor) {
    match actor
    case Verified(_, via, _) =>
      (config.mode == SharedGate && via == AdministratorSession) || (config.mode == LocalPassword && via == PersonalSignIn)
    case Bare(_) => config.mode == LocalPassword
  }

  /** The row is still the one the actor was verified against. */
  predicate ProofCurrent(db: Db, actor: Actor) {
    actor.Verified? ==>
      actor.user in db.accounts
      && db.accounts[actor.user].epoch == actor.epoch
      && db.accounts[actor.user].active && db.accounts[actor.user].state == Activated
  }

  predicate ActorHas(db: Db, actor: Actor, c: Capability) {
    actor.user in db.accounts && db.accounts[actor.user].Has(c)
  }

  /** `_begin`, in its order: is the proof accepted, does the actor's row still bear it out, is the power there. */
  function Begin(db: Db, actor: Actor, c: Capability): Option<Refusal> {
    if !ProofAccepted(db.config, actor) then Some(NotVerified)
    else if !ProofCurrent(db, actor) then Some(StaleProof)
    else if !ActorHas(db, actor, c) then Some(if c == DelegateAdministration then NotADelegate else NotAnAdministrator)
    else None
  }

  /** The opening every change to an existing account shares. */
  function Open(db: Db, actor: Actor, c: Capability, user: UserId): Option<Refusal> {
    var begun := Begin(db, actor, c);
    if begun.Some? then begun
    else if user !in db.accounts then Some(NoSuchAccount)
    else None
  }

  predicate NeedsDelegate(db: Db, actor: Actor, user: UserId)
    requires user in db.accounts
  {
    db.accounts[user].TouchesAdministration() && !ActorHas(db, actor, DelegateAdministration)
  }

  /** `_guard_final_administrator` and `_guard_continuity`, asked of the change as written. */
  function Guards(before: Db, after: Db): Option<Refusal> {
    if |DelegateSet(before)| >= 1 && |DelegateSet(after)| == 0 then Some(FinalAdministrator)
    else if |UsableSet(after)| < |UsableSet(before)| && |UsableSet(after)| < 2 then Some(Continuity)
    else if |StandingSet(after)| < |StandingSet(before)| && |StandingSet(after)| < 2 then Some(Continuity)
    else None
  }

  // -- writes ------------------------------------------------------------------------------------------

  function Put(db: Db, id: UserId, a: Account): Db {
    db.(accounts := db.accounts[id := a])
  }

  function Bumped(a: Account): Account { a.(epoch := a.epoch + 1) }

  predicate Outstanding(l: Link, id: UserId, purpose: Option<Purpose>) {
    l.user == id && l.IsLive() && (purpose.None? || l.purpose == purpose.value)
  }

  /** `invalidate_outstanding`. */
  function Invalidate(db: Db, id: UserId, purpose: Option<Purpose>): Db {
    db.(links := map s | s in db.links ::
          if Outstanding(db.links[s], id, purpose) then db.links[s].(invalidated := true) else db.links[s])
  }

  /** A freshly drawn link: where it will be found, and what proves it. */
  datatype Draw = Draw(selector: Selector, digest: nat, lifetime: nat)

  /** `tokens.issue`: supersede what is outstanding, then insert, bound to the credentials of now. */
  function Issue(db: Db, id: UserId, purpose: Purpose, draw: Draw, now: int): Db
    requires id in db.accounts
  {
    var superseded := Invalidate(db, id, Some(purpose));
    superseded.(links := superseded.links[draw.selector :=
      Link(id, purpose, draw.digest, db.accounts[id].CredentialStamp(), now + draw.lifetime, false, false)])
  }

  function Recorded(db: Db, e: FactorEvent): Db { db.(trail := db.trail + [e]) }

  // -- administration ------------------------------------------------------------------------------------

  /** A new sign-in address as the address policy judged it. */
  datatype Address = Address(upn: string, wellFormed: bool, allowedDomain: bool, reasonGiven: bool)

  predicate AddressTaken(db: Db, upn: string, owner: UserId) {
    exists id :: id in db.accounts && id != owner && db.accounts[id].upn == upn
  }

  /** `_clean_address`; an external address is a delegate's decision. */
  function AddressRefusal(db: Db, actor: Actor, address: Address, owner: UserId): Option<Refusal> {
    if !address.wellFormed || AddressTaken(db, address.upn, owner) then Some(AddressUnacceptable)
    else if address.allowedDomain then None
    else if !address.reasonGiven then Some(AddressUnacceptable)
    else if !ActorHas(db, actor, DelegateAdministration) then Some(NotADelegate)
    else None
  }

  function CreateRefusal(db: Db, actor: Actor, id: UserId, name: string, role: Role, address: Address): Option<Refusal> {
    var begun := Begin(db, actor, ManageAccounts);
    if begun.Some? then begun
    else if name == "" then Some(NameRequired)
    else if role == TechnicalAdministrator && !ActorHas(db, actor, DelegateAdministration) then Some(NotADelegate)
    else AddressRefusal(db, actor, address, id)
  }

  function Created(db: Db, id: UserId, name: string, role: Role, address: Address): Db {
    Put(db, id, Account(address.upn, name, role, map[], false, Pending, 0, None, false, !db.config.realData, false, None))
  }

  /** `create_account`, under an identifier nobody has. */
  function CreateAccount(db: Db, actor: Actor, id: UserId, name: string, role: Role, address: Address): Db {
    if id in db.accounts || CreateRefusal(db, actor, id, name, role, address).Some? then db
    else Created(db, id, name, role, address)
  }

  function DeactivateRefusal(db: Db, actor: Actor, user: UserId): Option<Refusal> {
    var entry := Open(db, actor, ManageAccounts, user);
    if entry.Some? then entry
    else if actor.user == user then Some(NoSelfChange)
    else if db.accounts[user].state != Activated then Some(NotActivated)
    else if !db.accounts[user].active then Some(AlreadyInactive)
    else if NeedsDelegate(db, actor, user) then Some(NotADelegate)
    else Guards(db, Put(db, user, db.accounts[user].(active := false)))
  }

  function Deactivated(db: Db, user: UserId): Db
    requires user in db.accounts
  {
    Invalidate(Put(db, user, Bumped(db.accounts[user].(active := false))), user, None)
  }

  function ReactivateRefusal(db: Db, actor: Actor, user: UserId): Option<Refusal> {
    var entry := Open(db, actor, ManageAccounts, user);
    if entry.Some? then entry
    else if actor.user == user then Some(NoSelfChange)
    else if db.accounts[user].state != Activated then Some(NotActivated)
    else if db.accounts[user].active then Some(AlreadyActive)
    else if NeedsDelegate(db, actor, user) then Some(NotADelegate)
    else None
  }

  function Reactivated(db: Db, user: UserId): Db
    requires user in db.accounts
  {
    Put(db, user, Bumped(db.accounts[user].(active := true)))
  }

  function ResetRefusal(db: Db, actor: Actor, user: UserId): Option<Refusal> {
    var entry := Open(db, actor, ManageAccounts, user);
    if entry.Some? then entry
    else if actor.user == user then Some(NoSelfChange)
    else if NeedsDelegate(db, actor, user) then Some(NotADelegate)
    else None
  }

  /** The authenticator goes, and the trail says who took it. */
  function FactorRemoved(db: Db, user: UserId, agent: By, now: int): Db
    requires user in db.accounts
  {
    Recorded(Put(db, user, Bumped(db.accounts[user].(device := None))), Removed(user, agent, now))
  }

  function FactorEnrolled(db: Db, user: UserId, now: int): Db
    requires user in db.accounts
  {
    Recorded(Put(db, user, Bumped(db.accounts[user].(device := Some(true)))), Enrolled(user, now))
  }

  function EmailRefusal(db: Db, actor: Actor, user: UserId, address: Address): Option<Refusal> {
    var entry := Open(db, actor, DelegateAdministration, user);
    if entry.Some? then entry
    else if actor.user == user then Some(NoSelfChange)
    else if db.accounts[user].HasLocalPassword() || db.accounts[user].device.Some? then Some(AddressFixed)
    else AddressRefusal(db, actor, address, user)
  }

  function EmailChanged(db: Db, user: UserId, upn: string): Db
    requires user in db.accounts
  {
    if upn == db.accounts[user].upn then db
    else Invalidate(Put(db, user, Bumped(db.accounts[user].(upn := upn))), user, None)
  }

  function CancelRefusal(db: Db, actor: Actor, user: UserId): Option<Refusal> {
    var entry := Open(db, actor, ManageAccounts, user);
    if entry.Some? then entry
    else if NeedsDelegate(db, actor, user) then Some(NotADelegate)
    else if db.accounts[user].state != Invited then Some(NotPending)
    else None
  }

  function InvitationCancelled(db: Db, user: UserId): Db
    requires user in db.accounts
  {
    Put(Invalidate(db, user, None), user, db.accounts[user].(state := Pending))
  }

  predicate Inviting(a: Account) { a.state != Activated }

  function SetupRefusal(db: Db, actor: Actor, user: UserId): Option<Refusal> {
    var entry := Open(db, actor, ManageAccounts, user);
    if entry.Some? then entry
    else if NeedsDelegate(db, actor, user) then Some(NotADelegate)
    else if !Inviting(db.accounts[user]) && !db.accounts[user].active then Some(AlreadyInactive)
    else None
  }

  function SetupPurpose(a: Account): Purpose {
    if !Inviting(a) && a.HasLocalPassword() then PasswordReset else Activation
  }

  /** The first transaction of `send_setup_link`: approve, and issue. */
  function SetupIssued(db: Db, user: UserId, draw: Draw, now: int): Db
    requires user in db.accounts
  {
    var a := db.accounts[user];
    Issue(Put(db, user, if Inviting(a) then a.(approved := true) else a), user, SetupPurpose(a), draw, now)
  }

  /** Its last transaction: the message left, so the invitation stands if its link still does. */
  function Delivered(db: Db, selector: Selector): Db {
    if selector !in db.links || db.links[selector].user !in db.accounts then db
    else
      var user := db.links[selector].user;
      if db.accounts[user].state == Pending && db.links[selector].IsLive()
      then Put(db, user, db.accounts[user].(state := Invited)) else db
  }

  /** `invalidate_link`, once a message could not be sent: that one link, if still live, is over. */
  function Undelivered(db: Db, selector: Selector): Db {
    if selector in db.links && db.links[selector].IsLive()
    then db.(links := db.links[selector := db.links[selector].(invalidated := true)]) else db
  }

  // -- update_account ----------------------------------------------------------------------------------

  function NewOverrides(a: Account, role: Role, wanted: map<Capability, bool>): Overrides {
    OverridesAfter(role, wanted, a.overrides, Held(a.role, a.overrides))
  }

  predicate PowerChanges(a: Account, role: Role, wanted: map<Capability, bool>) {
    role != a.role || NewOverrides(a, role, wanted) != a.overrides
  }

  /** Some administrative capability is held before or after. */
  predicate ConcernsAdministration(a: Account, role: Role, overrides: Overrides) {
    || Resolve(a.role, a.overrides, ManageAccounts) || Resolve(role, overrides, ManageAccounts)
    || Resolve(a.role, a.overrides, DelegateAdministration) || Resolve(role, overrides, DelegateAdministration)
    || a.TouchesAdministration()
  }

  function PowerRefusal(db: Db, actor: Actor, user: UserId, role: Role, wanted: map<Capability, bool>): Option<Refusal>
    requires user in db.accounts
  {
    var a := db.accounts[user];
    var overrides := NewOverrides(a, role, wanted);
    if actor.user == user then Some(NoSelfChange)
    else if role != a.role && role == TechnicalAdministrator && !ActorHas(db, actor, DelegateAdministration)
      then Some(NotADelegate)
    else if ConcernsAdministration(a, role, overrides) && !ActorHas(db, actor, DelegateAdministration)
      then Some(NotADelegate)
    else if exists c: Capability :: Moved(wanted, Held(a.role, a.overrides), c) && wanted[c] && !MayBeGrantedTo(role, c)
      then Some(NotGrantable)
    else None
  }

  function UpdatedRow(a: Account, name: string, role: Role, wanted: map<Capability, bool>): Account {
    if PowerChanges(a, role, wanted) then a.(name := name, role := role, overrides := NewOverrides(a, role, wanted))
    else a.(name := name)
  }

  /** A save that changes no power is never refused. */
  function SaveRefusal(db: Db, actor: Actor, user: UserId, name: string, role: Role, wanted: map<Capability, bool>)
    : Option<Refusal>
    requires user in db.accounts
  {
    var a := db.accounts[user];
    if !PowerChanges(a, role, wanted) then None
    else
      var power := PowerRefusal(db, actor, user, role, wanted);
      if power.Some? then power else Guards(db, Put(db, user, UpdatedRow(a, name, role, wanted)))
  }

  function UpdateRefusal(db: Db, actor: Actor, user: UserId, name: string, role: Role, wanted: map<Capability, bool>)
    : Option<Refusal>
  {
    var entry := Open(db, actor, ManageAccounts, user);
    if entry.Some? then entry
    else
      var a := db.accounts[user];
      if actor.user != user && NeedsDelegate(db, actor, user) then Some(NotADelegate)
      else if name == "" then Some(NameRequired)
      else SaveRefusal(db, actor, user, name, role, wanted)
  }

  function Updated(db: Db, user: UserId, name: string, role: Role, wanted: map<Capability, bool>): Db
    requires user in db.accounts
  {
    var a := db.accounts[user];
    var row := UpdatedRow(a, name, role, wanted);
    Put(db, user, if PowerChanges(a, role, wanted) then Bumped(row) else row)
  }

  // -- one-time links and passwords ---------------------------------------------------------------------

  /** `link_holder`: the accounts for which a link of this purpose has a use. */
  predicate HolderMay(config: Config, a: Account, purpose: Purpose) {
    && !(a.synthetic && config.realData)
    && match purpose
       case Activation => a.state == Invited || (a.state == Activated && a.active)
       case PasswordReset => a.state == Activated && a.active && a.HasLocalPassword()
  }

  /** `may_receive_administrator_link`. */
  predicate MayReceiveAdministratorLink(config: Config, a: Account) {
    && !(a.state == Activated && !a.active)
    && !(a.synthetic && config.realData)
    && (Resolve(a.role, a.overrides, ManageAccounts) || (a.active && a.role == TechnicalAdministrator))
  }

  /** What somebody presents: the link's selector, its purpose, and a digest of its secret. */
  datatype Proof = Proof(selector: Selector, purpose: Purpose, digest: nat)

  /** The checks `peek` and `consume` share. */
  predicate Opens(db: Db, proof: Proof, now: int) {
    proof.selector in db.links
    && var l := db.links[proof.selector];
       && l.purpose == proof.purpose && l.digest == proof.digest
       && l.user in db.accounts
       && l.IsUsableAt(now)
       && l.stamp == db.accounts[l.user].CredentialStamp()
  }

  predicate PreviewPasses(db: Db, proof: Proof, now: int) {
    Opens(db, proof, now)
    && HolderMay(db.config, db.accounts[db.links[proof.selector].user], proof.purpose)
  }

  /** The unlocked preview: nothing is written, but the form may now be submitted. */
  function Previewed(db: Db, proof: Proof, now: int): Db {
    if PreviewPasses(db, proof, now) then db.(previewed := db.previewed + {proof.selector}) else db
  }

  function Consumed(db: Db, selector: Selector): Db
    requires selector in db.links
  {
    db.(links := db.links[selector := db.links[selector].(used := true)])
  }

  /** A password set: fresh hash, every outstanding link ended, every session ended. */
  function PasswordWritten(db: Db, user: UserId, text: Text): Db
    requires user in db.accounts
  {
    var a := db.accounts[user];
    var activated := a.state == Invited;
    var row := a.(password := Some(Hash(text, db.nextHash)), passwordSet := true,
                  state := if activated then Activated else a.state, active := a.active || activated);
    Invalidate(Put(db, user, Bumped(row)), user, None).(nextHash := db.nextHash + 1)
  }

  /** `set_password_with_link` from the submitted form on. `ask`: whether, under the shared gate, the
      holder must also be somebody who may receive an administrator's link. */
  function SpendLink(db: Db, proof: Proof, ask: bool, text: Text, now: int): Db {
    if proof.selector !in db.previewed || !Opens(db, proof, now) then db
    else
      var user := db.links[proof.selector].user;
      if ask && !MayReceiveAdministratorLink(db.config, db.accounts[user]) then db
      else
        var consumed := Consumed(db, proof.selector);
        // The early return after `consume`: spent, and no password set.
        if !HolderMay(db.config, db.accounts[user], proof.purpose) then consumed
        else PasswordWritten(consumed, user, text)
  }

  /** `change_password`, the current one having been proved. */
  function ChangePassword(db: Db, user: UserId, text: Text): Db {
    if user in db.accounts && db.accounts[user].password.Some? then
      Invalidate(
        Put(db, user, Bumped(db.accounts[user].(password := Some(Hash(text, db.nextHash)), passwordSet := true))), user, None)
        .(nextHash := db.nextHash + 1)
    else db
  }

  /** A right password typed anywhere while the stored hash's parameters are old ones: the same text is
      hashed again. The stamp moves, the epoch does not. */
  function HashUpgraded(db: Db, user: UserId): Db {
    if user in db.accounts && db.accounts[user].password.Some? then
      Put(db, user, db.accounts[user].(password := Some(Hash(db.accounts[user].password.value.text, db.nextHash))))
        .(nextHash := db.nextHash + 1)
    else db
  }

  predicate ResetEligible(config: Config, a: Account) {
    a.state == Activated && a.active && a.HasLocalPassword() && !(a.synthetic && config.realData)
  }

  /** `_send_reset_link`: a job queued under some stamp runs, however much later. */
  function RunMailJob(db: Db, user: UserId, stamp: Stamp, draw: Draw, now: int): Db {
    if user in db.accounts && draw.selector !in db.links && ResetEligible(db.config, db.accounts[user])
       && db.accounts[user].CredentialStamp() == stamp
    then Issue(db, user, PasswordReset, draw, now) else db
  }

  function OperatorLinkRefusal(db: Db, user: UserId): Option<Refusal> {
    if db.config.mode == OtherMode || user !in db.accounts then Some(NoSuchAccount)
    else if !MayReceiveAdministratorLink(db.config, db.accounts[user]) then Some(LinkNotAllowed)
    else if db.accounts[user].state == Pending && !db.accounts[user].approved then Some(LinkNotAllowed)
    else None
  }

  /** `issue_administrator_link`, by the operator. */
  function OperatorLinkIssued(db: Db, user: UserId, draw: Draw, now: int): Db
    requires user in db.accounts
  {
    var a := db.accounts[user];
    Issue(Put(db, user, a.(state := if a.state == Pending then Invited else a.state)), user, SetupPurpose(a), draw, now)
  }

  // -- runs ----------------------------------------------------------------------------------------------

  datatype Step =
    | CreateStep(actor: Actor, user: UserId, name: string, role: Role, address: Address)
    | SetupStep(actor: Actor, user: UserId, draw: Draw)
    | DeliveredStep(selector: Selector)
    | UndeliveredStep(selector: Selector)
    | CancelStep(actor: Actor, user: UserId)
    | UpdateStep(actor: Actor, user: UserId, name: string, role: Role, wanted: map<Capability, bool>)
    | DeactivateStep(actor: Actor, user: UserId)
    | ReactivateStep(actor: Actor, user: UserId)
    | ResetStep(actor: Actor, user: UserId)
    | EmailStep(actor: Actor, user: UserId, address: Address)
    | PreviewStep(proof: Proof)
    | SpendStep(proof: Proof, ask: bool, text: Text)
    | PasswordStep(user: UserId, text: Text)
    | UpgradeStep(user: UserId)
    | MailJobStep(user: UserId, stamp: Stamp, draw: Draw)
    | EnrolStep(user: UserId)
    | RemoveOwnStep(user: UserId)
    | OperatorResetStep(user: UserId, leftovers: bool)
    | OperatorLinkStep(user: UserId, draw: Draw)

  predicate IsAdministration(step: Step) {
    step.CreateStep? || step.SetupStep? || step.CancelStep? || step.UpdateStep? || step.DeactivateStep?
    || step.ReactivateStep? || step.ResetStep? || step.EmailStep?
  }

  /** What one service call does at time `now`. A refused call changes nothing. */
  function Effect(db: Db, step: Step, now: int): Db {
    match step
    case CreateStep(actor, user, name, role, address) => CreateAccount(db, actor, user, name, role, address)
    case SetupStep(actor, user, draw) =>
      if SetupRefusal(db, actor, user).Some? || draw.selector in db.links then db else SetupIssued(db, user, draw, now)
    case DeliveredStep(selector) => Delivered(db, selector)
    case UndeliveredStep(selector) => Undelivered(db, selector)
    case CancelStep(actor, user) =>
      if CancelRefusal(db, actor, user).Some? then db else InvitationCancelled(db, user)
    case UpdateStep(actor, user, name, role, wanted) =>
      if UpdateRefusal(db, actor, user, name, role, wanted).Some? then db else Updated(db, user, name, role, wanted)
    case DeactivateStep(actor, user) =>
      if DeactivateRefusal(db, actor, user).Some? then db else Deactivated(db, user)
    case ReactivateStep(actor, user) =>
      if ReactivateRefusal(db, actor, user).Some? then db else Reactivated(db, user)
    case ResetStep(actor, user) =>
      if ResetRefusal(db, actor, user).Some? then db else FactorRemoved(db, user, Administrator, now)
    case EmailStep(actor, user, address) =>
      if EmailRefusal(db, actor, user, address).Some? then db else EmailChanged(db, user, address.upn)
    case PreviewStep(proof) => Previewed(db, proof, now)
    case SpendStep(proof, ask, text) => SpendLink(db, proof, ask, text, now)
    case PasswordStep(user, text) => ChangePassword(db, user, text)
    case UpgradeStep(user) => HashUpgraded(db, user)
    case MailJobStep(user, stamp, draw) => RunMailJob(db, user, stamp, draw, now)
    case EnrolStep(user) => if user in db.accounts then FactorEnrolled(db, user, now) else db
    case RemoveOwnStep(user) =>
      // Refused in the view whenever the person may administer accounts.
      if user in db.accounts && !db.accounts[user].Has(ManageAccounts) then FactorRemoved(db, user, Self, now) else db
    case OperatorResetStep(user, leftovers) =>
      // Anything at all to remove will do: leftover recovery codes, or an authenticator never confirmed.
      if user in db.accounts && (db.accounts[user].device.Some? || leftovers) then FactorRemoved(db, user, Operator, now) else db
    case OperatorLinkStep(user, draw) =>
      if OperatorLinkRefusal(db, user).Some? || draw.selector in db.links then db else OperatorLinkIssued(db, user, draw, now)
  }

  /** A step and how much later than the last one it comes. Two may fall on the same microsecond. */
  datatype Event = Event(delay: nat, step: Step)

  function Apply(db: Db, e: Event): Db {
    var now := db.clock + e.delay;
    Effect(db, e.step, now).(clock := now)
  }

  function Run(db: Db, events: seq<Event>): Db {
    if events == [] then db else Apply(Run(db, events[..|events| - 1]), events[|events| - 1])
  }

  /** `send_setup_link` as a whole: the link is issued, others work on while the message is on its way, and
      its outcome is written on the register as it then is. */
  function SetupSent(db: Db, actor: Actor, user: UserId, draw: Draw, now: int, meanwhile: seq<Event>, left: bool): Db {
    if SetupRefusal(db, actor, user).Some? then db
    else
      var later := Run(SetupIssued(db, user, draw, now), meanwhile);
      if left then Delivered(later, draw.selector) else Undelivered(later, draw.selector)
  }
}
