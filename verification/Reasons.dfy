/** A refused service says why, and what it says is so. */
module Reasons {
  import opened Outcomes
  import opened Capabilities
  import opened Accounts
  import opened Decisions

  /** The proof is none this deployment accepts. */
  ghost predicate IsNoProof(db: Db, actor: Actor) {
    db.config.mode != (if actor.Verified? && actor.via == AdministratorSession then SharedGate else LocalPassword)
  }

  /** The proof was one, and the account has moved since. */
  ghost predicate IsStale(db: Db, actor: Actor) {
    && actor.Verified?
    && (actor.user in db.accounts ==>
          var a := db.accounts[actor.user]; a.epoch != actor.epoch || !a.active || a.state != Activated)
  }

  /** What a refusal claims of the register, the actor and the account. */
  ghost predicate IsSo(reason: Refusal, db: Db, actor: Actor, user: UserId) {
    match reason
    case NotVerified => IsNoProof(db, actor)
    case StaleProof => !IsNoProof(db, actor) && IsStale(db, actor)
    case NotAnAdministrator => Proven(db, actor) && !Manages(db, actor.user)
    case NotADelegate => Proven(db, actor) && !Delegates(db, actor.user)
    case NoSelfChange => actor.user == user
    case NoSuchAccount => user !in db.accounts
    case NotActivated => user in db.accounts && db.accounts[user].state != Activated
    case AlreadyInactive => user in db.accounts && db.accounts[user].state == Activated && !db.accounts[user].active
    case AlreadyActive => user in db.accounts && db.accounts[user].active
    case NotPending => user in db.accounts && db.accounts[user].state != Invited
    case AddressFixed =>
      user in db.accounts
      && ((db.accounts[user].passwordSet && db.accounts[user].password.Some?) || db.accounts[user].device.Some?)
    case _ => false
  }

  /** What a guard claims of the register as it would be. */
  ghost predicate WouldCost(reason: Refusal, before: Db, after: Db) {
    match reason
    case FinalAdministrator => DelegateSet(before) != {} && DelegateSet(after) == {}
    case Continuity =>
      || (|UsableSet(after)| < |UsableSet(before)| && |UsableSet(after)| < 2)
      || (|StandingSet(after)| < |StandingSet(before)| && |StandingSet(after)| < 2)
    case _ => false
  }

  /** What a refused address is. */
  ghost predicate IsUnfit(reason: Refusal, db: Db, actor: Actor, address: Address, owner: UserId) {
    match reason
    case AddressUnacceptable =>
      || !address.wellFormed || (!address.allowedDomain && !address.reasonGiven)
      || exists id :: id in db.accounts && id != owner && db.accounts[id].upn == address.upn
    case NotADelegate => !address.allowedDomain && !Delegates(db, actor.user)
    case _ => false
  }

  lemma OpeningIsSo(db: Db, actor: Actor, c: Capability, user: UserId)
    requires IsAdministrative(c) && Open(db, actor, c, user).Some?
    ensures IsSo(Open(db, actor, c, user).value, db, actor, user)
  {
    hide Resolve;
  }

  lemma GuardIsSo(before: Db, after: Db)
    requires Guards(before, after).Some?
    ensures WouldCost(Guards(before, after).value, before, after)
  {
    NoneIsEmpty(DelegateSet(before));
    NoneIsEmpty(DelegateSet(after));
    hide UsableSet, StandingSet, DelegateSet;
  }

  lemma UnfitIsSo(db: Db, actor: Actor, address: Address, owner: UserId)
    requires AddressRefusal(db, actor, address, owner).Some?
    ensures IsUnfit(AddressRefusal(db, actor, address, owner).value, db, actor, address, owner)
  {
    BeginIff(db, actor);
    hide Resolve, Begin, ActorHas, Delegates;
  }

  /** Whatever switching somebody off is refused for is the case, or would be. */
  lemma {:induction false} DeactivateRefusalIsSo(db: Db, actor: Actor, user: UserId)
    requires DeactivateRefusal(db, actor, user).Some?
    ensures var r := DeactivateRefusal(db, actor, user).value;
            || IsSo(r, db, actor, user)
            || (user in db.accounts && WouldCost(r, db, WithRow(db, user, db.accounts[user].(active := false))))
  {
    BeginIff(db, actor);
    if Open(db, actor, ManageAccounts, user).Some? {
      OpeningIsSo(db, actor, ManageAccounts, user);
    } else {
      TouchingIff(db, actor, user);
      var after := WithRow(db, user, db.accounts[user].(active := false));
      if Guards(db, after).Some? { GuardIsSo(db, after); }
    }
    hide Begin, NeedsDelegate, Guards, Proven, Manages, Delegates, Administrative, WouldCost, ActorHas;
  }

  /** Whatever switching on, resetting, cancelling or inviting is refused for is the case. */
  lemma {:induction false} ServiceRefusalsAreSo(db: Db, actor: Actor, user: UserId)
    ensures forall r :: r in {ReactivateRefusal(db, actor, user), ResetRefusal(db, actor, user),
                              CancelRefusal(db, actor, user), SetupRefusal(db, actor, user)} && r.Some? ==>
              IsSo(r.value, db, actor, user)
  {
    BeginIff(db, actor);
    if Open(db, actor, ManageAccounts, user).Some? {
      OpeningIsSo(db, actor, ManageAccounts, user);
    } else {
      TouchingIff(db, actor, user);
    }
    hide Begin, NeedsDelegate, Proven, Manages, Delegates, Administrative, ActorHas;
  }

  lemma {:induction false} AddressRefusalIsSo(db: Db, actor: Actor, user: UserId, address: Address)
    requires EmailRefusal(db, actor, user, address).Some?
    ensures var r := EmailRefusal(db, actor, user, address).value;
            IsSo(r, db, actor, user) || IsUnfit(r, db, actor, address, user)
  {
    BeginIff(db, actor);
    if Open(db, actor, DelegateAdministration, user).Some? {
      OpeningIsSo(db, actor, DelegateAdministration, user);
    } else if AddressRefusal(db, actor, address, user).Some? {
      UnfitIsSo(db, actor, address, user);
    }
    hide Begin, AddressRefusal, Proven, Manages, Delegates, ActorHas, IsUnfit;
  }

  /** A refused creation or save: the same, a missing name, a technical administrator's role, an unfit address, a
      wish the role may not hold, or too few left. */
  lemma {:induction false} CreateRefusalIsSo(db: Db, actor: Actor, id: UserId, name: string, role: Role, address: Address)
    requires CreateRefusal(db, actor, id, name, role, address).Some?
    ensures var r := CreateRefusal(db, actor, id, name, role, address).value;
            || (r in {NotVerified, StaleProof, NotAnAdministrator} && IsSo(r, db, actor, id))
            || (r == NameRequired && name == "")
            || (r == NotADelegate && role == TechnicalAdministrator && !Delegates(db, actor.user))
            || IsUnfit(r, db, actor, address, id)
  {
    BeginIff(db, actor);
    if Open(db, actor, ManageAccounts, id).Some? { OpeningIsSo(db, actor, ManageAccounts, id); }
    if AddressRefusal(db, actor, address, id).Some? { UnfitIsSo(db, actor, address, id); }
    BeginReasons(db, actor);
    hide Begin, AddressRefusal, Proven, Manages, Delegates, IsUnfit;
  }

  lemma BeginReasons(db: Db, actor: Actor)
    ensures var r := Begin(db, actor, ManageAccounts); r.Some? ==> r.value in {NotVerified, StaleProof, NotAnAdministrator}
  {
  }

  lemma {:induction false} SaveRefusalIsSo(db: Db, actor: Actor, user: UserId, name: string, role: Role, wanted: map<Capability, bool>)
    requires UpdateRefusal(db, actor, user, name, role, wanted).Some?
    ensures var r := UpdateRefusal(db, actor, user, name, role, wanted).value;
            || IsSo(r, db, actor, user)
            || (r == NameRequired && name == "")
            || (r == NotGrantable && user in db.accounts
                && exists c :: c in wanted && wanted[c] && c !in Shown(db.accounts[user]) && !MayBeGrantedTo(role, c))
            || (user in db.accounts
                && var a := db.accounts[user];
                   WouldCost(r, db, WithRow(db, user, a.(name := name, role := role, overrides := Saved(a, role, wanted)))))
  {
    BeginIff(db, actor);
    if Open(db, actor, ManageAccounts, user).Some? {
      OpeningIsSo(db, actor, ManageAccounts, user);
    } else {
      var a := db.accounts[user];
      var after := WithRow(db, user, a.(name := name, role := role, overrides := Saved(a, role, wanted)));
      TouchingIff(db, actor, user);
      SavedIs(a, role, wanted);
      WishesIff(a, role, wanted);
      if Guards(db, after).Some? { GuardIsSo(db, after); }
    }
    hide Begin, NeedsDelegate, Guards, Proven, Manages, Delegates, Administrative, WouldCost, OverridesAfter,
      NewOverrides, Saved, ConcernsAdministration, ActorHas, Moved, Held, Shown;
  }
}
