/** Who may change an account's power, and what a verified actor's proof is worth. */
module Authority {
  import opened Outcomes
  import opened Capabilities
  import opened Accounts

  // -- every change to power is somebody else's, and authorised --------------------------------

  /** What an account may do: its role, its overrides, and whether it is on. */
  predicate SamePower(a: Account, b: Account) {
    a.role == b.role && a.overrides == b.overrides && a.active == b.active
  }

  /** Somebody else, whose proof still stands, who manages accounts - and who may delegate, if the
      account is or becomes an administrator's. */
  ghost predicate ChangedByAuthority(db: Db, actor: Actor, before: Account, after: Account, user: UserId) {
    && actor.user != user
    && ProofAccepted(db.config, actor) && ProofCurrent(db, actor)
    && ActorHas(db, actor, ManageAccounts)
    && (before.TouchesAdministration() || after.TouchesAdministration() ==> ActorHas(db, actor, DelegateAdministration))
  }

  /** The owner accepting an invitation: the account comes on, with the power it was given. */
  ghost predicate ActivatedByOwner(db: Db, step: Step, before: Account, after: Account, user: UserId) {
    && step.SpendStep? && step.proof.selector in db.links && db.links[step.proof.selector].user == user
    && before.state == Invited && after.state == Activated
    && before.role == after.role && before.overrides == after.overrides && after.active
  }

  /** Whatever a save gives, administrative power after it was held or granted under a delegate's hand. */
  lemma StoredAdministrationIsHeld(role: Role, wanted: map<Capability, bool>, previous: Overrides, shown: set<Capability>)
    ensures var after := OverridesAfter(role, wanted, previous, shown);
            ManageAccounts in after || DelegateAdministration in after ==> Resolve(role, after, ManageAccounts)
  {
    SaveStoresNormalForm(role, wanted, previous, shown);
  }

  /** An account that is an administrator's after a save is one whose save concerned administration. */
  lemma BecomingConcerns(a: Account, role: Role, wanted: map<Capability, bool>)
    requires a.(role := role, overrides := NewOverrides(a, role, wanted)).TouchesAdministration()
    ensures ConcernsAdministration(a, role, NewOverrides(a, role, wanted)) || (role != a.role && role == TechnicalAdministrator)
  {
    hide OverridesAfter;
    StoredAdministrationIsHeld(role, wanted, a.overrides, Held(a.role, a.overrides));
  }

  lemma PowerNeedsAuthority(db: Db, actor: Actor, user: UserId, role: Role, wanted: map<Capability, bool>)
    requires user in db.accounts && PowerRefusal(db, actor, user, role, wanted) == None
    ensures actor.user != user
    ensures var a := db.accounts[user];
            ConcernsAdministration(a, role, NewOverrides(a, role, wanted)) || (role != a.role && role == TechnicalAdministrator)
            ==> ActorHas(db, actor, DelegateAdministration)
  {
    hide OverridesAfter, Held, Moved, ConcernsAdministration;
  }

  lemma UpdatePassedChecks(db: Db, actor: Actor, user: UserId, name: string, role: Role, wanted: map<Capability, bool>)
    requires UpdateRefusal(db, actor, user, name, role, wanted) == None
    ensures Begin(db, actor, ManageAccounts) == None && user in db.accounts
    ensures PowerChanges(db.accounts[user], role, wanted) ==> PowerRefusal(db, actor, user, role, wanted) == None
  {
    hide OverridesAfter, Guards, Held, PowerRefusal;
  }

  lemma UpdateIsAuthorised(db: Db, actor: Actor, user: UserId, name: string, role: Role, wanted: map<Capability, bool>)
    requires UpdateRefusal(db, actor, user, name, role, wanted) == None
    requires user in db.accounts && !SamePower(db.accounts[user], Updated(db, user, name, role, wanted).accounts[user])
    ensures ChangedByAuthority(db, actor, db.accounts[user], Updated(db, user, name, role, wanted).accounts[user], user)
  {
    hide OverridesAfter, Guards, Held, PowerRefusal, UpdateRefusal, NewOverrides;
    var a := db.accounts[user];
    UpdatePassedChecks(db, actor, user, name, role, wanted);
    PowerNeedsAuthority(db, actor, user, role, wanted);
    if Updated(db, user, name, role, wanted).accounts[user].TouchesAdministration() {
      BecomingConcerns(a, role, wanted);
    }
  }

  /** Every committed change to an account's role, overrides or active flag is made by somebody else who
      held the power to make it in the state it was made in - or is its owner activating it. */
  lemma PowerChangesAreAuthorised(db: Db, step: Step, now: int, user: UserId)
    requires user in db.accounts
    requires var after := Effect(db, step, now); !SamePower(db.accounts[user], after.accounts[user])
    ensures var after := Effect(db, step, now).accounts[user]; var before := db.accounts[user];
            || (&& (step.UpdateStep? || step.DeactivateStep? || step.ReactivateStep?) && step.user == user
                && ChangedByAuthority(db, step.actor, before, after, user))
            || ActivatedByOwner(db, step, before, after, user)
  {
    if step.UpdateStep? {
      UpdateIsAuthorised(db, step.actor, step.user, step.name, step.role, step.wanted);
    } else if IsAdministration(step) {
      SwitchingIsAuthorised(db, step, now, user);
    } else {
      OnlyOwnersActivate(db, step, now, user);
    }
  }

  lemma SwitchingIsAuthorised(db: Db, step: Step, now: int, user: UserId)
    requires user in db.accounts && IsAdministration(step) && !step.UpdateStep?
    requires !SamePower(db.accounts[user], Effect(db, step, now).accounts[user])
    ensures (step.DeactivateStep? || step.ReactivateStep?) && step.user == user
    ensures ChangedByAuthority(db, step.actor, db.accounts[user], Effect(db, step, now).accounts[user], user)
  {
    hide Guards, OverridesAfter;
  }

  lemma OnlyOwnersActivate(db: Db, step: Step, now: int, user: UserId)
    requires user in db.accounts && !IsAdministration(step)
    requires !SamePower(db.accounts[user], Effect(db, step, now).accounts[user])
    ensures ActivatedByOwner(db, step, db.accounts[user], Effect(db, step, now).accounts[user], user)
  {
    if !step.SpendStep? { OtherwisePowerStays(db, step, now, user); }
  }

  lemma OtherwisePowerStays(db: Db, step: Step, now: int, user: UserId)
    requires user in db.accounts && !IsAdministration(step) && !step.SpendStep?
    ensures user in Effect(db, step, now).accounts && SamePower(db.accounts[user], Effect(db, step, now).accounts[user])
  {
    hide Resolve, HolderMay, MayReceiveAdministratorLink, ResetEligible, Opens;
  }

  // -- the epoch witnesses every change to power or credentials ---------------------------------------

  /** Everything a verified proof is about: the credentials, the second factor and the power. Hashing the
      same password again is none of it. */
  predicate SameProvenState(a: Account, b: Account) {
    && TextOf(a.password) == TextOf(b.password) && a.passwordSet == b.passwordSet && a.upn == b.upn
    && a.device == b.device && a.synthetic == b.synthetic
    && SamePower(a, b)
  }

  /** The epoch never falls, and while it stands still nothing it stands for has moved. */
  ghost predicate Witnessed(a: Account, b: Account) {
    a.epoch <= b.epoch && (a.epoch == b.epoch ==> SameProvenState(a, b) && (a.state == Activated ==> b.state == Activated))
  }

  ghost predicate AllWitnessed(db: Db, db': Db) {
    forall id :: id in db.accounts ==> id in db'.accounts && Witnessed(db.accounts[id], db'.accounts[id])
  }

  lemma PutIsWitnessed(db: Db, db': Db, id: UserId)
    requires id in db.accounts && id in db'.accounts && Witnessed(db.accounts[id], db'.accounts[id])
    requires db'.accounts == db.accounts[id := db'.accounts[id]]
    ensures AllWitnessed(db, db')
  {
  }

  lemma AdministrationIsWitnessed(db: Db, step: Step, now: int)
    requires IsAdministration(step)
    ensures AllWitnessed(db, Effect(db, step, now))
  {
    hide AllWitnessed, Effect;
    match step
    case CreateStep(_, _, _, _, _) => CreatingIsWitnessed(db, step, now);
    case UpdateStep(_, _, _, _, _) => SavingIsWitnessed(db, step, now);
    case SetupStep(_, _, _) => InvitingIsWitnessed(db, step, now);
    case CancelStep(_, _) => InvitingIsWitnessed(db, step, now);
    case DeactivateStep(_, _) => SwitchingIsWitnessed(db, step, now);
    case ReactivateStep(_, _) => SwitchingIsWitnessed(db, step, now);
    case ResetStep(_, _) => ResettingIsWitnessed(db, step, now);
    case EmailStep(_, _, _) => MovingIsWitnessed(db, step, now);
  }

  lemma CreatingIsWitnessed(db: Db, step: Step, now: int)
    requires step.CreateStep?
    ensures AllWitnessed(db, Effect(db, step, now))
  {
    hide AllWitnessed, CreateRefusal;
    var db' := Effect(db, step, now);
    if db' == db {
      NothingIsWitnessed(db);
    } else {
      CreationIsWitnessed(db, db', step.user);
    }
  }

  lemma SavingIsWitnessed(db: Db, step: Step, now: int)
    requires step.UpdateStep?
    ensures AllWitnessed(db, Effect(db, step, now))
  {
    hide AllWitnessed, Begin, SaveRefusal, NeedsDelegate, NewOverrides;
    var db' := Effect(db, step, now);
    if db' == db {
      NothingIsWitnessed(db);
    } else {
      PutIsWitnessed(db, db', step.user);
    }
  }

  lemma InvitingIsWitnessed(db: Db, step: Step, now: int)
    requires step.SetupStep? || step.CancelStep?
    ensures AllWitnessed(db, Effect(db, step, now))
  {
    hide AllWitnessed, Begin, NeedsDelegate;
    var db' := Effect(db, step, now);
    if db' == db {
      NothingIsWitnessed(db);
    } else {
      PutIsWitnessed(db, db', step.user);
    }
  }

  lemma SwitchingIsWitnessed(db: Db, step: Step, now: int)
    requires step.DeactivateStep? || step.ReactivateStep?
    ensures AllWitnessed(db, Effect(db, step, now))
  {
    hide AllWitnessed, Begin, NeedsDelegate, Guards;
    var db' := Effect(db, step, now);
    if db' == db {
      NothingIsWitnessed(db);
    } else {
      PutIsWitnessed(db, db', step.user);
    }
  }

  lemma ResettingIsWitnessed(db: Db, step: Step, now: int)
    requires step.ResetStep?
    ensures AllWitnessed(db, Effect(db, step, now))
  {
    hide AllWitnessed, Begin, NeedsDelegate;
    var db' := Effect(db, step, now);
    if db' == db {
      NothingIsWitnessed(db);
    } else {
      PutIsWitnessed(db, db', step.user);
    }
  }

  lemma MovingIsWitnessed(db: Db, step: Step, now: int)
    requires step.EmailStep?
    ensures AllWitnessed(db, Effect(db, step, now))
  {
    hide AllWitnessed, Begin, AddressRefusal;
    var db' := Effect(db, step, now);
    if db' == db {
      NothingIsWitnessed(db);
    } else {
      PutIsWitnessed(db, db', step.user);
    }
  }

  lemma NothingIsWitnessed(db: Db)
    ensures AllWitnessed(db, db)
  {
  }

  lemma CreationIsWitnessed(db: Db, db': Db, id: UserId)
    requires id !in db.accounts && id in db'.accounts && db'.accounts == db.accounts[id := db'.accounts[id]]
    ensures AllWitnessed(db, db')
  {
  }

  lemma OwnStepsAreWitnessed(db: Db, step: Step, now: int)
    requires !IsAdministration(step)
    ensures AllWitnessed(db, Effect(db, step, now))
  {
    hide AllWitnessed, Effect;
    if step.SpendStep? {
      SpendingIsWitnessed(db, step, now);
    } else if step.DeliveredStep? || step.OperatorLinkStep? {
      InvitationsAreWitnessed(db, step, now);
    } else if step.PasswordStep? || step.UpgradeStep? {
      HashingIsWitnessed(db, step, now);
    } else if step.EnrolStep? || step.RemoveOwnStep? || step.OperatorResetStep? {
      FactorsAreWitnessed(db, step, now);
    } else {
      LinksAloneAreWitnessed(db, step, now);
    }
  }

  lemma SpendingIsWitnessed(db: Db, step: Step, now: int)
    requires step.SpendStep?
    ensures AllWitnessed(db, Effect(db, step, now))
  {
  }

  lemma InvitationsAreWitnessed(db: Db, step: Step, now: int)
    requires step.DeliveredStep? || step.OperatorLinkStep?
    ensures AllWitnessed(db, Effect(db, step, now))
  {
  }

  lemma HashingIsWitnessed(db: Db, step: Step, now: int)
    requires step.PasswordStep? || step.UpgradeStep?
    ensures AllWitnessed(db, Effect(db, step, now))
  {
  }

  lemma FactorsAreWitnessed(db: Db, step: Step, now: int)
    requires step.EnrolStep? || step.RemoveOwnStep? || step.OperatorResetStep?
    ensures AllWitnessed(db, Effect(db, step, now))
  {
  }

  lemma LinksAloneAreWitnessed(db: Db, step: Step, now: int)
    requires step.UndeliveredStep? || step.PreviewStep? || step.MailJobStep?
    ensures AllWitnessed(db, Effect(db, step, now))
  {
  }

  lemma ApplyIsWitnessed(db: Db, e: Event)
    ensures AllWitnessed(db, Apply(db, e))
  {
    hide Effect;
    var now := db.clock + e.delay;
    if IsAdministration(e.step) {
      AdministrationIsWitnessed(db, e.step, now);
    } else {
      OwnStepsAreWitnessed(db, e.step, now);
    }
  }

  lemma WitnessesChain(a: Db, b: Db, c: Db)
    requires AllWitnessed(a, b) && AllWitnessed(b, c)
    ensures AllWitnessed(a, c)
  {
    forall id | id in a.accounts ensures id in c.accounts && Witnessed(a.accounts[id], c.accounts[id]) {
      assert Witnessed(a.accounts[id], b.accounts[id]) && Witnessed(b.accounts[id], c.accounts[id]);
    }
  }

  lemma {:induction false} RunsAreWitnessed(db: Db, events: seq<Event>)
    ensures AllWitnessed(db, Run(db, events))
  {
    hide Apply;
    if events == [] {
      NothingIsWitnessed(db);
    } else {
      var n := |events| - 1;
      RunsAreWitnessed(db, events[..n]);
      ApplyIsWitnessed(Run(db, events[..n]), events[n]);
      WitnessesChain(db, Run(db, events[..n]), Run(db, events));
    }
  }

  /** Only an actor whose proof still stands changes anything. */
  lemma CommitNeedsCurrentProof(db: Db, step: Step, now: int)
    requires IsAdministration(step) && Effect(db, step, now) != db
    ensures ProofAccepted(db.config, step.actor) && ProofCurrent(db, step.actor) && ActorHas(db, step.actor, ManageAccounts)
  {
  }

  /** A proof is good for nothing once its own account moved: an actor verified in `db` commits a change
      only if, then and at every moment in between, that account's password, address, active flag, role,
      overrides and authenticator were the very ones it was verified with. */
  lemma {:induction false} NothingCommittedOnStaleProof(db: Db, first: seq<Event>, second: seq<Event>, step: Step, now: int)
    requires IsAdministration(step) && step.actor.Verified?
    requires step.actor.user in db.accounts && step.actor.epoch == db.accounts[step.actor.user].epoch
    requires var later := Run(Run(db, first), second); Effect(later, step, now) != later
    ensures var user := step.actor.user; var between := Run(db, first); var later := Run(between, second);
            && user in between.accounts && SameProvenState(db.accounts[user], between.accounts[user])
            && user in later.accounts && SameProvenState(db.accounts[user], later.accounts[user])
            && later.accounts[user].active && later.accounts[user].state == Activated
            && later.accounts[user].Has(ManageAccounts)
  {
    var user := step.actor.user;
    var between := Run(db, first);
    RunsAreWitnessed(db, first);
    RunsAreWitnessed(between, second);
    assert Witnessed(db.accounts[user], between.accounts[user]);
    assert Witnessed(between.accounts[user], Run(between, second).accounts[user]);
    CommitNeedsCurrentProof(Run(between, second), step, now);
  }
}
