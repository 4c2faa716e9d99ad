/** When each administration service goes through, and what it then leaves: said of the rows alone. */
module Decisions {
  import opened Outcomes
  import opened Capabilities
  import opened Accounts

  // -- the words the rules are said in ----------------------------------------------------------

  /** The actor proved themselves in a way this deployment accepts, and nothing has moved since. */
  ghost predicate Proven(db: Db, actor: Actor) {
    && (db.config.mode == SharedGate ==> actor.Verified? && actor.via == AdministratorSession)
    && (db.config.mode == LocalPassword ==> actor.Bare? || actor.via == PersonalSignIn)
    && db.config.mode != OtherMode
    && (actor.Verified? ==>
          actor.user in db.accounts
          && var a := db.accounts[actor.user]; a.epoch == actor.epoch && a.active && a.state == Activated)
  }

  ghost predicate Manages(db: Db, user: UserId) {
    user in db.accounts && db.accounts[user].active
    && Resolve(db.accounts[user].role, db.accounts[user].overrides, ManageAccounts)
  }

  ghost predicate Delegates(db: Db, user: UserId) {
    user in db.accounts && db.accounts[user].active
    && Resolve(db.accounts[user].role, db.accounts[user].overrides, DelegateAdministration)
  }

  /** An administrator's account, in being or in waiting. */
  ghost predicate Administrative(a: Account) {
    || a.role == TechnicalAdministrator
    || (a.active && Resolve(a.role, a.overrides, ManageAccounts))
    || ManageAccounts in a.overrides || DelegateAdministration in a.overrides
  }

  /** Somebody proven who manages accounts, on an account there is - a delegate, if it is an administrator's. */
  ghost predicate MayTouch(db: Db, actor: Actor, user: UserId) {
    && Proven(db, actor) && Manages(db, actor.user)
    && user in db.accounts && (Administrative(db.accounts[user]) ==> Delegates(db, actor.user))
  }

  /** Enough are left: somebody who delegates, and not fewer than before unless still two, of those who can sign
      in and administer and of those who stand. */
  ghost predicate LeavesEnough(before: Db, after: Db) {
    && (DelegateSet(before) != {} ==> DelegateSet(after) != {})
    && (|UsableSet(after)| >= |UsableSet(before)| || |UsableSet(after)| >= 2)
    && (|StandingSet(after)| >= |StandingSet(before)| || |StandingSet(after)| >= 2)
  }

  ghost function WithRow(db: Db, user: UserId, row: Account): Db { db.(accounts := db.accounts[user := row]) }

  /** None of the person's unused links lives any more. */
  ghost function EndingLinks(db: Db, user: UserId): Db {
    db.(links := map s | s in db.links ::
          if db.links[s].user == user && !db.links[s].used then db.links[s].(invalidated := true) else db.links[s])
  }

  /** A sign-in address somebody may be given. */
  ghost predicate AddressAllowed(db: Db, actor: Actor, address: Address, owner: UserId) {
    && address.wellFormed
    && (forall id :: id in db.accounts && id != owner ==> db.accounts[id].upn != address.upn)
    && (!address.allowedDomain ==> address.reasonGiven && Delegates(db, actor.user))
  }

  // -- the shared opening -----------------------------------------------------------------------

  lemma BeginIff(db: Db, actor: Actor)
    ensures Begin(db, actor, ManageAccounts) == None <==> Proven(db, actor) && Manages(db, actor.user)
    ensures Begin(db, actor, DelegateAdministration) == None <==> Proven(db, actor) && Delegates(db, actor.user)
    ensures ActorHas(db, actor, ManageAccounts) <==> Manages(db, actor.user)
    ensures ActorHas(db, actor, DelegateAdministration) <==> Delegates(db, actor.user)
  {
    hide Resolve;
  }

  lemma TouchingIff(db: Db, actor: Actor, user: UserId)
    requires user in db.accounts
    ensures NeedsDelegate(db, actor, user) <==> Administrative(db.accounts[user]) && !Delegates(db, actor.user)
  {
    hide Resolve;
  }

  lemma GuardsIff(before: Db, after: Db)
    ensures Guards(before, after) == None <==> LeavesEnough(before, after)
  {
    hide UsableSet, StandingSet, DelegateSet;
    NoneIsEmpty(DelegateSet(before));
    NoneIsEmpty(DelegateSet(after));
  }

  lemma NoneIsEmpty(s: set<UserId>)
    ensures |s| == 0 <==> s == {}
  {
  }

  lemma EndingIs(db: Db, user: UserId)
    ensures Invalidate(db, user, None) == EndingLinks(db, user)
  {
    forall s | s in db.links
      ensures Invalidate(db, user, None).links[s] == EndingLinks(db, user).links[s]
    {
    }
  }

  lemma AddressIff(db: Db, actor: Actor, address: Address, owner: UserId)
    ensures AddressRefusal(db, actor, address, owner) == None <==> AddressAllowed(db, actor, address, owner)
  {
    BeginIff(db, actor);
    hide Resolve, ActorHas, Delegates;
  }

  // -- service by service -------------------------------------------------------------------------

  /** A new account is off, pending and nobody's yet: the role it was given and no override, no password, no
      approval; a rehearsal account wherever the data is not real. */
  lemma {:induction false} Creating(db: Db, actor: Actor, id: UserId, name: string, role: Role, address: Address, now: int)
    requires id !in db.accounts
    ensures Effect(db, CreateStep(actor, id, name, role, address), now)
         == if && Proven(db, actor) && Manages(db, actor.user) && name != ""
               && (role == TechnicalAdministrator ==> Delegates(db, actor.user))
               && AddressAllowed(db, actor, address, id)
            then WithRow(db, id, Account(address.upn, name, role, map[], false, Pending, 0, None, false, !db.config.realData, false, None))
            else db
  {
    hide Begin, ActorHas, AddressRefusal, AddressAllowed, Proven, Manages, Delegates;
    BeginIff(db, actor);
    AddressIff(db, actor, address, id);
  }

  lemma {:induction false} Deactivating(db: Db, actor: Actor, user: UserId, now: int)
    ensures Effect(db, DeactivateStep(actor, user), now)
         == if && MayTouch(db, actor, user) && actor.user != user
               && db.accounts[user].state == Activated && db.accounts[user].active
               && LeavesEnough(db, WithRow(db, user, db.accounts[user].(active := false)))
            then EndingLinks(WithRow(db, user, db.accounts[user].(active := false, epoch := db.accounts[user].epoch + 1)), user)
            else db
  {
    hide Begin, NeedsDelegate, Guards, LeavesEnough, Invalidate, EndingLinks, Proven, Manages, Delegates, Administrative;
    BeginIff(db, actor);
    if user in db.accounts {
      TouchingIff(db, actor, user);
      GuardsIff(db, WithRow(db, user, db.accounts[user].(active := false)));
      EndingIs(WithRow(db, user, db.accounts[user].(active := false, epoch := db.accounts[user].epoch + 1)), user);
    }
  }

  lemma {:induction false} Reactivating(db: Db, actor: Actor, user: UserId, now: int)
    ensures Effect(db, ReactivateStep(actor, user), now)
         == if && MayTouch(db, actor, user) && actor.user != user
               && db.accounts[user].state == Activated && !db.accounts[user].active
            then WithRow(db, user, db.accounts[user].(active := true, epoch := db.accounts[user].epoch + 1))
            else db
  {
    hide Begin, NeedsDelegate, Proven, Manages, Delegates, Administrative;
    BeginIff(db, actor);
    if user in db.accounts { TouchingIff(db, actor, user); }
  }

  lemma {:induction false} Resetting(db: Db, actor: Actor, user: UserId, now: int)
    ensures Effect(db, ResetStep(actor, user), now)
         == if MayTouch(db, actor, user) && actor.user != user
            then WithRow(db, user, db.accounts[user].(device := None, epoch := db.accounts[user].epoch + 1))
                   .(trail := db.trail + [Removed(user, Administrator, now)])
            else db
  {
    hide Begin, NeedsDelegate, Proven, Manages, Delegates, Administrative;
    BeginIff(db, actor);
    if user in db.accounts { TouchingIff(db, actor, user); }
  }

  lemma {:induction false} ChangingAddress(db: Db, actor: Actor, user: UserId, address: Address, now: int)
    ensures Effect(db, EmailStep(actor, user, address), now)
         == if && Proven(db, actor) && Delegates(db, actor.user) && user in db.accounts && actor.user != user
               && !(db.accounts[user].passwordSet && db.accounts[user].password.Some?) && db.accounts[user].device == None
               && AddressAllowed(db, actor, address, user) && address.upn != db.accounts[user].upn
            then EndingLinks(WithRow(db, user, db.accounts[user].(upn := address.upn, epoch := db.accounts[user].epoch + 1)), user)
            else db
  {
    hide Begin, AddressRefusal, AddressAllowed, Invalidate, EndingLinks, Proven, Delegates;
    BeginIff(db, actor);
    AddressIff(db, actor, address, user);
    if user in db.accounts {
      EndingIs(WithRow(db, user, db.accounts[user].(upn := address.upn, epoch := db.accounts[user].epoch + 1)), user);
    }
  }

  lemma {:induction false} Cancelling(db: Db, actor: Actor, user: UserId, now: int)
    ensures Effect(db, CancelStep(actor, user), now)
         == if MayTouch(db, actor, user) && db.accounts[user].state == Invited
            then EndingLinks(WithRow(db, user, db.accounts[user].(state := Pending)), user)
            else db
  {
    hide Begin, NeedsDelegate, Invalidate, Proven, Manages, Delegates, Administrative;
    BeginIff(db, actor);
    if user in db.accounts {
      TouchingIff(db, actor, user);
      EndingIs(db, user);
    }
  }

  /** An invitation is approved; a link goes to anybody who is not switched off. What the link is, and that it is
      the only live one, `Links.LinksAreAskedFor` says. */
  lemma {:induction false} SendingSetup(db: Db, actor: Actor, user: UserId, draw: Draw, now: int)
    requires draw.selector !in db.links
    ensures var after := Effect(db, SetupStep(actor, user, draw), now);
            if MayTouch(db, actor, user) && (db.accounts[user].state == Activated ==> db.accounts[user].active)
            then draw.selector in after.links
                 && after == db.(links := after.links, accounts := db.accounts[user :=
                      db.accounts[user].(approved := db.accounts[user].approved || db.accounts[user].state != Activated)])
            else after == db
  {
    hide Begin, NeedsDelegate, Proven, Manages, Delegates, Administrative;
    BeginIff(db, actor);
    if user in db.accounts { TouchingIff(db, actor, user); }
  }

  /** The message's outcome: a pending account becomes an invited one when its link left and still lives. */
  lemma Delivering(db: Db, selector: Selector, now: int)
    ensures Effect(db, DeliveredStep(selector), now)
         == if && selector in db.links && !db.links[selector].used && !db.links[selector].invalidated
               && db.links[selector].user in db.accounts && db.accounts[db.links[selector].user].state == Pending
            then WithRow(db, db.links[selector].user, db.accounts[db.links[selector].user].(state := Invited))
            else db
    ensures Effect(db, UndeliveredStep(selector), now)
         == if selector in db.links && !db.links[selector].used && !db.links[selector].invalidated
            then db.(links := db.links[selector := db.links[selector].(invalidated := true)])
            else db
  {
  }

  /** The whole of it is three steps of a run: the link, what others do while the message is on its way, and the
      outcome, judged on the register as it then is. Refused, it is none of them. */
  lemma {:induction false} SendingWhole(db: Db, actor: Actor, user: UserId, draw: Draw, now: int, meanwhile: seq<Event>, left: bool)
    requires draw.selector !in db.links
    ensures SetupSent(db, actor, user, draw, now, meanwhile, left)
         == if MayTouch(db, actor, user) && (db.accounts[user].state == Activated ==> db.accounts[user].active) then
              Effect(Run(Effect(db, SetupStep(actor, user, draw), now), meanwhile),
                     if left then DeliveredStep(draw.selector) else UndeliveredStep(draw.selector), now)
            else db
  {
    hide Begin, NeedsDelegate, Proven, Manages, Delegates, Administrative, Run, Delivered, Undelivered, SetupIssued;
    BeginIff(db, actor);
    if user in db.accounts { TouchingIff(db, actor, user); }
  }

  // -- saving a page ----------------------------------------------------------------------------------

  ghost function Shown(a: Account): set<Capability> { set c: Capability | Resolve(a.role, a.overrides, c) }

  /** The power the save would leave the account with, and whether that is another than it has. */
  ghost function Saved(a: Account, role: Role, wanted: map<Capability, bool>): Overrides {
    OverridesAfter(role, wanted, a.overrides, Shown(a))
  }

  ghost predicate Repowers(a: Account, role: Role, wanted: map<Capability, bool>) {
    role != a.role || Saved(a, role, wanted) != a.overrides
  }

  /** Administrative power is held before or after, or is on the account's record. */
  ghost predicate TouchesPower(a: Account, role: Role, overrides: Overrides) {
    || Administrative(a)
    || (exists c :: c in {ManageAccounts, DelegateAdministration}
          && (Resolve(a.role, a.overrides, c) || Resolve(role, overrides, c)))
  }

  /** Power is changed by somebody else - a delegate, if any of it is administrative or the role is the technical
      administrator's - to what the role may hold, and leaves enough. */
  ghost predicate MayRepower(db: Db, actor: Actor, user: UserId, role: Role, wanted: map<Capability, bool>, row: Account)
    requires user in db.accounts
  {
    var a := db.accounts[user];
    && actor.user != user
    && (role != a.role && role == TechnicalAdministrator ==> Delegates(db, actor.user))
    && (TouchesPower(a, role, Saved(a, role, wanted)) ==> Delegates(db, actor.user))
    && (forall c :: c in wanted && wanted[c] && c !in Shown(a) ==> MayBeGrantedTo(role, c))
    && LeavesEnough(db, WithRow(db, user, row))
  }

  lemma SavedIs(a: Account, role: Role, wanted: map<Capability, bool>)
    ensures NewOverrides(a, role, wanted) == Saved(a, role, wanted)
    ensures PowerChanges(a, role, wanted) <==> Repowers(a, role, wanted)
  {
    assert Held(a.role, a.overrides) == Shown(a);
    hide OverridesAfter;
  }

  lemma RepoweringIff(db: Db, actor: Actor, user: UserId, role: Role, wanted: map<Capability, bool>, row: Account)
    requires user in db.accounts
    ensures PowerRefusal(db, actor, user, role, wanted) == None && Guards(db, Put(db, user, row)) == None
       <==> MayRepower(db, actor, user, role, wanted, row)
  {
    var a := db.accounts[user];
    BeginIff(db, actor);
    SavedIs(a, role, wanted);
    GuardsIff(db, WithRow(db, user, row));
    ConcernIff(a, role, Saved(a, role, wanted));
    WishesIff(a, role, wanted);
    hide OverridesAfter, NewOverrides, Saved, ConcernsAdministration, TouchesPower, Guards, LeavesEnough;
    hide ActorHas, Delegates, Moved, Held, Shown;
  }

  lemma ConcernIff(a: Account, role: Role, overrides: Overrides)
    ensures ConcernsAdministration(a, role, overrides) <==> TouchesPower(a, role, overrides)
  {
    hide Resolve;
    assert ManageAccounts in {ManageAccounts, DelegateAdministration} && DelegateAdministration in {ManageAccounts, DelegateAdministration};
  }

  lemma WishesIff(a: Account, role: Role, wanted: map<Capability, bool>)
    ensures (exists c: Capability :: Moved(wanted, Held(a.role, a.overrides), c) && wanted[c] && !MayBeGrantedTo(role, c))
       <==> !(forall c :: c in wanted && wanted[c] && c !in Shown(a) ==> MayBeGrantedTo(role, c))
  {
    assert Held(a.role, a.overrides) == Shown(a);
    hide Resolve;
    if c :| c in wanted && wanted[c] && c !in Shown(a) && !MayBeGrantedTo(role, c) {
      assert Moved(wanted, Held(a.role, a.overrides), c);
    }
  }

  /** A save that changes no power writes the name; one that does writes the power and ends every session, if it
      may. One's own account may be renamed and no more. */
  lemma {:induction false} Saving(db: Db, actor: Actor, user: UserId, name: string, role: Role, wanted: map<Capability, bool>, now: int)
    ensures var after := Effect(db, UpdateStep(actor, user, name, role, wanted), now);
            if !(&& Proven(db, actor) && Manages(db, actor.user) && user in db.accounts && name != ""
                 && (actor.user != user && Administrative(db.accounts[user]) ==> Delegates(db, actor.user)))
            then after == db
            else
              var a := db.accounts[user];
              var row := a.(name := name, role := role, overrides := Saved(a, role, wanted));
              if !Repowers(a, role, wanted) then after == WithRow(db, user, a.(name := name))
              else if MayRepower(db, actor, user, role, wanted, row) then after == WithRow(db, user, row.(epoch := a.epoch + 1))
              else after == db
  {
    hide Begin, NeedsDelegate, NewOverrides, Saved, Repowers, PowerChanges, PowerRefusal, Guards, MayRepower;
    hide Proven, Manages, Delegates, Administrative;
    BeginIff(db, actor);
    if user in db.accounts {
      var a := db.accounts[user];
      TouchingIff(db, actor, user);
      SavedIs(a, role, wanted);
      RepoweringIff(db, actor, user, role, wanted, a.(name := name, role := role, overrides := Saved(a, role, wanted)));
    }
  }

  // -- what people do to their own accounts ---------------------------------------------------------------

  /** The current password having been proved: a fresh hash of the new one, and every link and session ended. */
  lemma ChangingPassword(db: Db, user: UserId, text: Text, now: int)
    ensures Effect(db, PasswordStep(user, text), now)
         == if user in db.accounts && db.accounts[user].password.Some?
            then EndingLinks(WithRow(db, user, db.accounts[user].(
                   password := Some(Hash(text, db.nextHash)), passwordSet := true, epoch := db.accounts[user].epoch + 1)), user)
                   .(nextHash := db.nextHash + 1)
            else db
  {
    if user in db.accounts {
      EndingIs(WithRow(db, user, db.accounts[user].(
        password := Some(Hash(text, db.nextHash)), passwordSet := true, epoch := db.accounts[user].epoch + 1)), user);
    }
  }

  /** The stored hash made again: the same text under a salt never drawn, and nothing else. */
  lemma Rehashing(db: Db, user: UserId, now: int)
    ensures Effect(db, UpgradeStep(user), now)
         == if user in db.accounts && db.accounts[user].password.Some?
            then WithRow(db, user, db.accounts[user].(password := Some(Hash(db.accounts[user].password.value.text, db.nextHash))))
                   .(nextHash := db.nextHash + 1)
            else db
  {
  }

  /** An authenticator enrolled, or taken: by its owner only while they do not administer, by the operator only
      where there is something to take. Each ends the account's sessions and is on the trail. */
  lemma FactorsChange(db: Db, user: UserId, leftovers: bool, now: int)
    requires user in db.accounts
    ensures Effect(db, EnrolStep(user), now)
         == WithRow(db, user, db.accounts[user].(device := Some(true), epoch := db.accounts[user].epoch + 1))
              .(trail := db.trail + [Enrolled(user, now)])
    ensures var taken := WithRow(db, user, db.accounts[user].(device := None, epoch := db.accounts[user].epoch + 1));
            && Effect(db, RemoveOwnStep(user), now)
               == (if Manages(db, user) then db else taken.(trail := db.trail + [Removed(user, Self, now)]))
            && Effect(db, OperatorResetStep(user, leftovers), now)
               == (if db.accounts[user].device.Some? || leftovers then taken.(trail := db.trail + [Removed(user, Operator, now)])
                   else db)
  {
    hide Resolve;
  }
}
