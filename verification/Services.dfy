/** The services themselves: each reads rows under its lock, refuses step by step, and writes in place.
What each does to the register is the effect `Accounts` gives it, refusals included. */
module Services {
  import opened Outcomes
  import opened Capabilities
  import opened Accounts

  lemma RowAsUpdated(a: Account, name: string, role: Role, wanted: map<Capability, bool>, overrides: Overrides)
    requires overrides == OverridesAfter(role, wanted, a.overrides, Held(a.role, a.overrides))
    ensures overrides == NewOverrides(a, role, wanted)
    ensures PowerChanges(a, role, wanted) <==> !(role == a.role && overrides == a.overrides)
    ensures UpdatedRow(a, name, role, wanted)
         == if role == a.role && overrides == a.overrides then a.(name := name)
            else a.(name := name, role := role, overrides := overrides)
  {
    hide OverridesAfter, Held;
  }

  lemma {:induction false} ConfigStays(db: Db, events: seq<Event>)
    ensures Run(db, events).config == db.config
  {
    hide Effect;
    if events != [] {
      var n := |events| - 1;
      ConfigStays(db, events[..n]);
      StepKeepsConfig(Run(db, events[..n]), events[n].step, Run(db, events[..n]).clock + events[n].delay);
    }
  }

  lemma StepKeepsConfig(db: Db, step: Step, now: int)
    ensures Effect(db, step, now).config == db.config
  {
  }

  class Register {
    const config: Config
    var accounts: map<UserId, Account>
    var links: map<Selector, Link>
    var trail: seq<FactorEvent>
    var previewed: set<Selector>
    var nextHash: nat
    var clock: int

    constructor (config: Config, accounts: map<UserId, Account>, nextHash: nat, clock: int)
      ensures Snapshot() == Db(config, accounts, map[], [], {}, nextHash, clock)
    {
      this.config, this.accounts, this.links, this.trail := config, accounts, map[], [];
      this.previewed, this.nextHash, this.clock := {}, nextHash, clock;
    }

    function Snapshot(): Db
      reads this
    {
      Db(config, accounts, links, trail, previewed, nextHash, clock)
    }

    // -- the pieces the services share -----------------------------------------------------------

    method BumpEpoch(user: UserId)
      requires user in accounts
      modifies this`accounts
      ensures Snapshot() == Put(old(Snapshot()), user, Bumped(old(accounts)[user]))
    {
      accounts := accounts[user := accounts[user].(epoch := accounts[user].epoch + 1)];
    }

    /** Every unused, uninvalidated link of the person, of one purpose if given, ends. */
    method InvalidateOutstanding(user: UserId, purpose: Option<Purpose>)
      modifies this`links
      ensures Snapshot() == Invalidate(old(Snapshot()), user, purpose)
    {
      links := map s | s in links ::
        if links[s].user == user && !links[s].used && !links[s].invalidated && (purpose.None? || links[s].purpose == purpose.value)
        then links[s].(invalidated := true) else links[s];
    }

    method IssueLink(user: UserId, purpose: Purpose, draw: Draw, now: int)
      requires user in accounts
      modifies this`links
      ensures Snapshot() == Issue(old(Snapshot()), user, purpose, draw, now)
    {
      var stamp := accounts[user].CredentialStamp();
      InvalidateOutstanding(user, Some(purpose));
      links := links[draw.selector := Link(user, purpose, draw.digest, stamp, now + draw.lifetime, false, false)];
    }

    method Record(e: FactorEvent)
      modifies this`trail
      ensures Snapshot() == Recorded(old(Snapshot()), e)
    {
      trail := trail + [e];
    }

    // -- administration -----------------------------------------------------------------------------

    method DeactivateAccount(actor: Actor, user: UserId) returns (refusal: Option<Refusal>)
      modifies this`accounts, this`links
      ensures refusal == DeactivateRefusal(old(Snapshot()), actor, user)
      ensures Snapshot() == if refusal.Some? then old(Snapshot()) else Deactivated(old(Snapshot()), user)
    {
      refusal := Begin(Snapshot(), actor, ManageAccounts);
      if refusal.Some? { return; }
      if user !in accounts { return Some(NoSuchAccount); }
      if actor.user == user { return Some(NoSelfChange); }
      if accounts[user].state != Activated { return Some(NotActivated); }
      if !accounts[user].active { return Some(AlreadyInactive); }
      if NeedsDelegate(Snapshot(), actor, user) { return Some(NotADelegate); }
      var before := Snapshot();
      accounts := accounts[user := accounts[user].(active := false)];
      refusal := Guards(before, Snapshot());
      if refusal.Some? {
        accounts := before.accounts;
        return;
      }
      InvalidateOutstanding(user, None);
      BumpEpoch(user);
    }

    method ReactivateAccount(actor: Actor, user: UserId) returns (refusal: Option<Refusal>)
      modifies this`accounts
      ensures refusal == ReactivateRefusal(old(Snapshot()), actor, user)
      ensures Snapshot() == if refusal.Some? then old(Snapshot()) else Reactivated(old(Snapshot()), user)
    {
      refusal := Begin(Snapshot(), actor, ManageAccounts);
      if refusal.Some? { return; }
      if user !in accounts { return Some(NoSuchAccount); }
      if actor.user == user { return Some(NoSelfChange); }
      if accounts[user].state != Activated { return Some(NotActivated); }
      if accounts[user].active { return Some(AlreadyActive); }
      if NeedsDelegate(Snapshot(), actor, user) { return Some(NotADelegate); }
      accounts := accounts[user := accounts[user].(active := true)];
      BumpEpoch(user);
    }

    method ResetSecondFactor(actor: Actor, user: UserId, now: int) returns (refusal: Option<Refusal>)
      modifies this`accounts, this`trail
      ensures refusal == ResetRefusal(old(Snapshot()), actor, user)
      ensures Snapshot() == if refusal.Some? then old(Snapshot()) else FactorRemoved(old(Snapshot()), user, Administrator, now)
    {
      refusal := Begin(Snapshot(), actor, ManageAccounts);
      if refusal.Some? { return; }
      if user !in accounts { return Some(NoSuchAccount); }
      if actor.user == user { return Some(NoSelfChange); }
      if NeedsDelegate(Snapshot(), actor, user) { return Some(NotADelegate); }
      accounts := accounts[user := accounts[user].(device := None)];
      BumpEpoch(user);
      Record(Removed(user, Administrator, now));
    }

    method ChangeLoginEmail(actor: Actor, user: UserId, address: Address) returns (refusal: Option<Refusal>)
      modifies this`accounts, this`links
      ensures refusal == EmailRefusal(old(Snapshot()), actor, user, address)
      ensures Snapshot() == if refusal.Some? then old(Snapshot()) else EmailChanged(old(Snapshot()), user, address.upn)
    {
      refusal := Begin(Snapshot(), actor, DelegateAdministration);
      if refusal.Some? { return; }
      if user !in accounts { return Some(NoSuchAccount); }
      if actor.user == user { return Some(NoSelfChange); }
      if accounts[user].HasLocalPassword() || accounts[user].device.Some? { return Some(AddressFixed); }
      refusal := AddressRefusal(Snapshot(), actor, address, user);
      if refusal.Some? || address.upn == accounts[user].upn { return; }
      accounts := accounts[user := accounts[user].(upn := address.upn)];
      InvalidateOutstanding(user, None);
      BumpEpoch(user);
    }

    method CancelInvitation(actor: Actor, user: UserId) returns (refusal: Option<Refusal>)
      modifies this`accounts, this`links
      ensures refusal == CancelRefusal(old(Snapshot()), actor, user)
      ensures Snapshot() == if refusal.Some? then old(Snapshot()) else InvitationCancelled(old(Snapshot()), user)
    {
      refusal := Begin(Snapshot(), actor, ManageAccounts);
      if refusal.Some? { return; }
      if user !in accounts { return Some(NoSuchAccount); }
      if NeedsDelegate(Snapshot(), actor, user) { return Some(NotADelegate); }
      if accounts[user].state != Invited { return Some(NotPending); }
      InvalidateOutstanding(user, None);
      accounts := accounts[user := accounts[user].(state := Pending)];
    }

    /** The first transaction: decide, approve, issue. */
    method IssueSetupLink(actor: Actor, user: UserId, draw: Draw, now: int) returns (refusal: Option<Refusal>)
      modifies this`accounts, this`links
      ensures refusal == SetupRefusal(old(Snapshot()), actor, user)
      ensures Snapshot() == if refusal.Some? then old(Snapshot()) else SetupIssued(old(Snapshot()), user, draw, now)
    {
      refusal := Begin(Snapshot(), actor, ManageAccounts);
      if refusal.Some? { return; }
      if user !in accounts { return Some(NoSuchAccount); }
      if NeedsDelegate(Snapshot(), actor, user) { return Some(NotADelegate); }
      var purpose := Activation;
      if accounts[user].state == Pending || accounts[user].state == Invited {
        if !accounts[user].approved { accounts := accounts[user := accounts[user].(approved := true)]; }
      } else {
        if !accounts[user].active { return Some(AlreadyInactive); }
        if accounts[user].HasLocalPassword() { purpose := PasswordReset; }
      }
      assert accounts == SetupIssued(old(Snapshot()), user, draw, now).accounts;
      IssueLink(user, purpose, draw, now);
    }

    /** The last transaction, once the message left. */
    method NoteDelivered(selector: Selector)
      modifies this`accounts
      ensures Snapshot() == Delivered(old(Snapshot()), selector)
    {
      if selector !in links || links[selector].user !in accounts { return; }
      var user := links[selector].user;
      if accounts[user].state == Pending && links[selector].IsLive() {
        accounts := accounts[user := accounts[user].(state := Invited)];
      }
    }

    /** What others do while no lock is held. */
    method Meanwhile(events: seq<Event>)
      modifies this
      ensures Snapshot() == Run(old(Snapshot()), events)
    {
      var later := Run(Snapshot(), events);
      ConfigStays(Snapshot(), events);
      accounts, links, trail := later.accounts, later.links, later.trail;
      previewed, nextHash, clock := later.previewed, later.nextHash, later.clock;
    }

    /** The three transactions together, with whatever others do between the first and the last. `left` says whether the message left. */
    method SendSetupLink(actor: Actor, user: UserId, draw: Draw, now: int, meanwhile: seq<Event>, left: bool)
      returns (refusal: Option<Refusal>)
      modifies this
      ensures refusal == SetupRefusal(old(Snapshot()), actor, user)
      ensures Snapshot() == SetupSent(old(Snapshot()), actor, user, draw, now, meanwhile, left)
    {
      hide SetupRefusal, SetupIssued, Delivered, Undelivered, Run;
      refusal := IssueSetupLink(actor, user, draw, now);
      if refusal.Some? { return; }
      Meanwhile(meanwhile);
      if left {
        NoteDelivered(draw.selector);
      } else {
        InvalidateLink(draw.selector);
      }
    }

    method UpdateAccount(actor: Actor, user: UserId, name: string, role: Role, wanted: map<Capability, bool>)
      returns (refusal: Option<Refusal>)
      modifies this`accounts
      ensures refusal == UpdateRefusal(old(Snapshot()), actor, user, name, role, wanted)
      ensures Snapshot() == if refusal.Some? then old(Snapshot()) else Updated(old(Snapshot()), user, name, role, wanted)
    {
      hide Guards, SaveRefusal, NeedsDelegate, Begin, Updated;
      refusal := Begin(Snapshot(), actor, ManageAccounts);
      if refusal.Some? { return; }
      if user !in accounts { return Some(NoSuchAccount); }
      if actor.user != user && NeedsDelegate(Snapshot(), actor, user) { return Some(NotADelegate); }
      if name == "" { return Some(NameRequired); }
      refusal := Save(actor, user, name, role, wanted);
    }

    /** The body of the save: nothing but the name, or the power it changes, if that may be changed. */
    method Save(actor: Actor, user: UserId, name: string, role: Role, wanted: map<Capability, bool>)
      returns (refusal: Option<Refusal>)
      requires user in accounts
      modifies this`accounts
      ensures refusal == SaveRefusal(old(Snapshot()), actor, user, name, role, wanted)
      ensures Snapshot() == if refusal.Some? then old(Snapshot()) else Updated(old(Snapshot()), user, name, role, wanted)
    {
      hide Guards, PowerRefusal, OverridesAfter, Held, NewOverrides, PowerChanges, UpdatedRow;
      var a := accounts[user];
      var overrides, moved := ComputeOverridesAfter(role, wanted, a.overrides, Held(a.role, a.overrides));
      RowAsUpdated(a, name, role, wanted, overrides);
      if role == a.role && overrides == a.overrides {
        accounts := accounts[user := a.(name := name)];
        return None;
      }
      refusal := CheckPower(actor, user, role, overrides, moved, wanted);
      if refusal.Some? { return; }
      refusal := WritePower(user, a.(name := name, role := role, overrides := overrides));
    }

    /** Write the row, judge the register as it then stands, and roll back if a rule is broken. */
    method WritePower(user: UserId, row: Account) returns (refusal: Option<Refusal>)
      requires user in accounts
      modifies this`accounts
      ensures refusal == Guards(old(Snapshot()), Put(old(Snapshot()), user, row))
      ensures Snapshot() == if refusal.Some? then old(Snapshot()) else Put(old(Snapshot()), user, Bumped(row))
    {
      var before := Snapshot();
      accounts := accounts[user := row];
      refusal := Guards(before, Snapshot());
      if refusal.Some? {
        accounts := before.accounts;
        return;
      }
      BumpEpoch(user);
    }

    /** Authority first, then whether the wishes are grantable. */
    method CheckPower(actor: Actor, user: UserId, role: Role, overrides: Overrides, moved: set<Capability>, wanted: map<Capability, bool>)
      returns (refusal: Option<Refusal>)
      requires user in accounts
      requires overrides == NewOverrides(accounts[user], role, wanted)
      requires forall c :: c in moved <==> Moved(wanted, Held(accounts[user].role, accounts[user].overrides), c)
      ensures refusal == PowerRefusal(Snapshot(), actor, user, role, wanted)
    {
      hide OverridesAfter, Held;
      if actor.user == user { return Some(NoSelfChange); }
      var delegates := ActorHas(Snapshot(), actor, DelegateAdministration);
      if role != accounts[user].role && role == TechnicalAdministrator && !delegates { return Some(NotADelegate); }
      if ConcernsAdministration(accounts[user], role, overrides) && !delegates { return Some(NotADelegate); }
      if exists c :: c in moved && wanted[c] && !MayBeGrantedTo(role, c) { return Some(NotGrantable); }
      refusal := None;
    }

    method CreateNew(actor: Actor, id: UserId, name: string, role: Role, address: Address) returns (refusal: Option<Refusal>)
      requires id !in accounts
      modifies this`accounts
      ensures refusal == CreateRefusal(old(Snapshot()), actor, id, name, role, address)
      ensures Snapshot() == CreateAccount(old(Snapshot()), actor, id, name, role, address)
    {
      refusal := Begin(Snapshot(), actor, ManageAccounts);
      if refusal.Some? { return; }
      if name == "" { return Some(NameRequired); }
      if role == TechnicalAdministrator && !ActorHas(Snapshot(), actor, DelegateAdministration) { return Some(NotADelegate); }
      refusal := AddressRefusal(Snapshot(), actor, address, id);
      if refusal.Some? { return; }
      accounts := accounts[id :=
        Account(address.upn, name, role, map[], false, Pending, 0, None, false, !config.realData, false, None)];
    }

    // -- a person's own credentials --------------------------------------------------------------------

    /** `peek` and `link_holder`: is the set-password form to be shown? */
    method Preview(proof: Proof, now: int) returns (shown: bool)
      modifies this`previewed
      ensures shown == PreviewPasses(old(Snapshot()), proof, now)
      ensures Snapshot() == Previewed(old(Snapshot()), proof, now)
    {
      if !Accounts.Opens(Snapshot(), proof, now) { return false; }
      shown := HolderMay(config, accounts[links[proof.selector].user], proof.purpose);
      if shown { previewed := previewed + {proof.selector}; }
    }

    /** `consume`: spend the link, once. */
    method Consume(proof: Proof, now: int) returns (spent: bool)
      modifies this`links
      ensures spent == Accounts.Opens(old(Snapshot()), proof, now)
      ensures Snapshot() == if spent then Consumed(old(Snapshot()), proof.selector) else old(Snapshot())
    {
      if proof.selector !in links { return false; }
      var l := links[proof.selector];
      if l.purpose != proof.purpose || l.user !in accounts || l.digest != proof.digest { return false; }
      if !l.IsUsableAt(now) || l.stamp != accounts[l.user].CredentialStamp() { return false; }
      links := links[proof.selector := l.(used := true)];
      spent := true;
    }

    /** The submitted form: spend the link on a new password. A form never shown is no good. `set_` says
        whether a password was set. */
    method SetPasswordWithLink(proof: Proof, ask: bool, text: Text, now: int) returns (set_: bool)
      modifies this`accounts, this`links, this`nextHash
      ensures Snapshot() == SpendLink(old(Snapshot()), proof, ask, text, now)
      ensures set_ <==> nextHash != old(nextHash)
    {
      if proof.selector !in previewed { return false; }
      if ask && proof.selector in links && links[proof.selector].user in accounts
         && !MayReceiveAdministratorLink(config, accounts[links[proof.selector].user]) {
        return false;
      }
      var spent := Consume(proof, now);
      if !spent { return false; }
      var user := links[proof.selector].user;
      if !HolderMay(config, accounts[user], proof.purpose) { return false; }
      WritePassword(user, text);
      set_ := true;
    }

    method WritePassword(user: UserId, text: Text)
      requires user in accounts
      modifies this`accounts, this`links, this`nextHash
      ensures Snapshot() == PasswordWritten(old(Snapshot()), user, text)
      ensures nextHash == old(nextHash) + 1
    {
      var row := accounts[user].(password := Some(Hash(text, nextHash)), passwordSet := true);
      if row.state == Invited { row := row.(state := Activated, active := true); }
      accounts := accounts[user := row];
      nextHash := nextHash + 1;
      InvalidateOutstanding(user, None);
      BumpEpoch(user);
    }

    /** The current password was proved; `change_password` from there on. An account with no usable one
        proves none. */
    method SetOwnPassword(user: UserId, text: Text)
      modifies this`accounts, this`links, this`nextHash
      ensures Snapshot() == ChangePassword(old(Snapshot()), user, text)
    {
      if user !in accounts || accounts[user].password.None? { return; }
      accounts := accounts[user := accounts[user].(password := Some(Hash(text, nextHash)), passwordSet := true)];
      nextHash := nextHash + 1;
      InvalidateOutstanding(user, None);
      BumpEpoch(user);
    }

    /** `check_password` on a hash made with old parameters: the same text, hashed again. */
    method UpgradeHash(user: UserId)
      modifies this`accounts, this`nextHash
      ensures Snapshot() == HashUpgraded(old(Snapshot()), user)
    {
      if user !in accounts || accounts[user].password.None? { return; }
      var hash := Hash(accounts[user].password.value.text, nextHash);
      accounts := accounts[user := accounts[user].(password := Some(hash))];
      nextHash := nextHash + 1;
    }

    /** The mail job: issue only if the account is still eligible and its credentials are those the
        request saw. */
    method SendResetLink(user: UserId, stamp: Stamp, draw: Draw, now: int) returns (issued: bool)
      requires draw.selector !in links
      modifies this`links
      ensures Snapshot() == RunMailJob(old(Snapshot()), user, stamp, draw, now)
      ensures issued <==> user in accounts && ResetEligible(config, accounts[user]) && accounts[user].CredentialStamp() == stamp
    {
      if user !in accounts || !ResetEligible(config, accounts[user]) { return false; }
      if accounts[user].CredentialStamp() != stamp { return false; }
      IssueLink(user, PasswordReset, draw, now);
      issued := true;
    }

    /** `invalidate_link`: the message did not leave, so this one link ends. */
    method InvalidateLink(selector: Selector)
      modifies this`links
      ensures Snapshot() == Undelivered(old(Snapshot()), selector)
    {
      if selector in links && !links[selector].used && !links[selector].invalidated {
        links := links[selector := links[selector].(invalidated := true)];
      }
    }
  }
}
