/** The two-administrator rule over whole runs: ordinary services never leave fewer than two standing
full administrators once there are two, nor none that can delegate once there is one. */
module AdministratorContinuity {
  import opened Outcomes
  import opened Capabilities
  import opened Accounts

  /** The trail holds nothing from the future. */
  ghost predicate TrailInPast(trail: seq<FactorEvent>, clock: int) {
    forall k :: 0 <= k < |trail| ==> trail[k].at <= clock
  }

  // -- the trail ---------------------------------------------------------------------------------

  lemma LatestRemovalAppend(trail: seq<FactorEvent>, e: FactorEvent, id: UserId)
    ensures var before := LatestRemoval(trail, id);
            LatestRemoval(trail + [e], id)
              == if e.Removed? && e.subject == id && e.agent != Self && (before.None? || before.value <= e.at)
                 then Some(e.at) else before
  {
    assert (trail + [e])[..|trail|] == trail;
  }

  lemma {:induction false} LatestRemovalInPast(trail: seq<FactorEvent>, id: UserId, clock: int)
    requires TrailInPast(trail, clock)
    ensures LatestRemoval(trail, id).Some? ==> LatestRemoval(trail, id).value <= clock
  {
    if trail != [] {
      LatestRemovalInPast(trail[..|trail| - 1], id, clock);
      assert trail[|trail| - 1].at <= clock;
    }
  }

  /** Other people's events change nothing about whom a reset left waiting. */
  lemma AwaitingIgnoresOthers(trail: seq<FactorEvent>, e: FactorEvent, id: UserId, a: Account)
    requires e.subject != id
    ensures AwaitingReEnrolment(trail + [e], id, a) <==> AwaitingReEnrolment(trail, id, a)
  {
    LatestRemovalAppend(trail, e, id);
    var longer := trail + [e];
    assert forall k :: 0 <= k < |trail| ==> longer[k] == trail[k];
    assert longer[|trail|] == e;
  }

  ghost predicate EnrolledAt(trail: seq<FactorEvent>, id: UserId, at: int) {
    exists k :: 0 <= k < |trail| && trail[k].Enrolled? && trail[k].subject == id && trail[k].at == at
  }

  /** A reset leaves a standing full administrator standing - exactly when they did not enrol at the
      very microsecond of the reset, the one tie the trail's times cannot order. */
  lemma ResetKeepsStandingIff(db: Db, user: UserId, agent: By, now: int)
    requires user in db.accounts && TrailInPast(db.trail, now) && agent != Self
    requires db.accounts[user].Seated(db.config) && db.accounts[user].HoldsBoth()
    ensures Standing(FactorRemoved(db, user, agent, now), user) <==> !EnrolledAt(db.trail, user, now)
  {
    var e := Removed(user, agent, now);
    var longer := db.trail + [e];
    LatestRemovalAppend(db.trail, e, user);
    LatestRemovalInPast(db.trail, user, now);
    assert LatestRemoval(longer, user) == Some(now);
    assert forall k :: 0 <= k < |db.trail| ==> longer[k] == db.trail[k];
    if EnrolledAt(db.trail, user, now) {
      var k :| 0 <= k < |db.trail| && db.trail[k].Enrolled? && db.trail[k].subject == user && db.trail[k].at == now;
      assert longer[k].Enrolled? && longer[k].at >= now;
    }
  }

  // -- the sets only grow, except where they are guarded --------------------------------------------

  ghost predicate NoneLost(db: Db, db': Db) {
    StandingSet(db) <= StandingSet(db') && DelegateSet(db) <= DelegateSet(db')
  }

  /** Only accounts and trail decide who stands. */
  lemma SameRowsSameStanding(db: Db, db': Db)
    requires db'.config == db.config && db'.accounts == db.accounts && db'.trail == db.trail
    ensures StandingSet(db') == StandingSet(db) && DelegateSet(db') == DelegateSet(db)
  {
  }

  /** A row rewritten without taking a seat, a power or an authenticator from its account. */
  ghost predicate TakesNothing(config: Config, a: Account, b: Account) {
    && (a.Seated(config) && a.HoldsBoth() ==> b.Seated(config) && b.HoldsBoth() && b.device == a.device)
    && (a.Has(DelegateAdministration) ==> b.Has(DelegateAdministration))
  }

  lemma PutLosesNone(db: Db, db': Db, id: UserId, row: Account)
    requires id in db.accounts && TakesNothing(db.config, db.accounts[id], row)
    requires db'.config == db.config && db'.accounts == db.accounts[id := row] && db'.trail == db.trail
    ensures NoneLost(db, db')
  {
    forall i | i in StandingSet(db) ensures i in StandingSet(db') {
      assert Standing(db, i);
    }
  }

  lemma FactorEventKeepsOthers(db: Db, id: UserId, row: Account, e: FactorEvent, i: UserId)
    requires i in db.accounts && i != id && e.subject == id
    ensures Standing(db, i) <==> Standing(Recorded(Put(db, id, row), e), i)
  {
    AwaitingIgnoresOthers(db.trail, e, i, db.accounts[i]);
  }

  lemma FactorChangeLosesNone(db: Db, id: UserId, device: Option<bool>, e: FactorEvent)
    requires id in db.accounts && e.subject == id
    requires var db' := Recorded(Put(db, id, Bumped(db.accounts[id].(device := device))), e);
             Standing(db, id) ==> Standing(db', id)
    ensures NoneLost(db, Recorded(Put(db, id, Bumped(db.accounts[id].(device := device))), e))
  {
    var row := Bumped(db.accounts[id].(device := device));
    var db' := Recorded(Put(db, id, row), e);
    forall i | i in StandingSet(db) ensures i in StandingSet(db') {
      if i != id { FactorEventKeepsOthers(db, id, row, e, i); }
    }
  }

  lemma ResetLosesNone(db: Db, user: UserId, agent: By, now: int)
    requires user in db.accounts && TrailInPast(db.trail, db.clock) && db.clock <= now && agent != Self
    requires !EnrolledAt(db.trail, user, now)
    ensures NoneLost(db, FactorRemoved(db, user, agent, now))
  {
    if Standing(db, user) {
      ResetKeepsStandingIff(db, user, agent, now);
    }
    FactorChangeLosesNone(db, user, None, Removed(user, agent, now));
  }

  lemma OwnRemovalLosesNone(db: Db, user: UserId, now: int)
    requires user in db.accounts && !db.accounts[user].Has(ManageAccounts)
    ensures NoneLost(db, FactorRemoved(db, user, Self, now))
  {
    FactorChangeLosesNone(db, user, None, Removed(user, Self, now));
  }

  lemma EnrolmentLosesNone(db: Db, user: UserId, now: int)
    requires user in db.accounts
    ensures NoneLost(db, FactorEnrolled(db, user, now))
  {
    FactorChangeLosesNone(db, user, Some(true), Enrolled(user, now));
  }

  lemma CreationLosesNone(db: Db, id: UserId, row: Account)
    requires id !in db.accounts
    ensures NoneLost(db, Put(db, id, row))
  {
    forall i | i in StandingSet(db) ensures i in StandingSet(Put(db, id, row)) {
      assert Standing(db, i);
    }
  }

  // -- ties ----------------------------------------------------------------------------------------------

  /** The step takes somebody's factor at the very moment they enrolled it. */
  ghost predicate Ties(db: Db, step: Step, now: int) {
    (step.ResetStep? || step.OperatorResetStep?) && EnrolledAt(db.trail, step.user, now)
  }

  /** What a tie costs: exactly the account reset stops standing, and nobody else. */
  lemma TieCostsOne(db: Db, user: UserId, agent: By, now: int)
    requires user in db.accounts && TrailInPast(db.trail, now) && agent != Self && EnrolledAt(db.trail, user, now)
    ensures StandingSet(FactorRemoved(db, user, agent, now)) == StandingSet(db) - {user}
  {
    var db' := FactorRemoved(db, user, agent, now);
    if db.accounts[user].Seated(db.config) && db.accounts[user].HoldsBoth() { ResetKeepsStandingIff(db, user, agent, now); }
    forall i | i in db.accounts && i != user ensures Standing(db, i) <==> Standing(db', i) {
      FactorEventKeepsOthers(db, user, db'.accounts[user], Removed(user, agent, now), i);
    }
  }

  // -- the steps without a guard ------------------------------------------------------------------------

  lemma UnguardedAdministrationLosesNone(db: Db, step: Step, now: int)
    requires TrailInPast(db.trail, db.clock) && db.clock <= now
    requires IsAdministration(step) && !step.UpdateStep? && !step.DeactivateStep? && !Ties(db, step, now)
    ensures NoneLost(db, Effect(db, step, now))
  {
    hide StandingSet, DelegateSet;
    var db' := Effect(db, step, now);
    if db' == db { return; }
    match step
    case CreateStep(actor, user, name, role, address) => CreationLosesNone(db, user, db'.accounts[user]);
    case SetupStep(actor, user, draw) => PutLosesNone(db, db', user, db'.accounts[user]);
    case CancelStep(actor, user) => PutLosesNone(db, db', user, db'.accounts[user]);
    case ReactivateStep(actor, user) => PutLosesNone(db, db', user, db'.accounts[user]);
    case ResetStep(actor, user) => ResetLosesNone(db, user, Administrator, now);
    case EmailStep(actor, user, address) => PutLosesNone(db, db', user, db'.accounts[user]);
  }

  lemma SpendLosesNone(db: Db, proof: Proof, ask: bool, text: Text, now: int)
    ensures NoneLost(db, SpendLink(db, proof, ask, text, now))
  {
    var db' := SpendLink(db, proof, ask, text, now);
    if db'.accounts != db.accounts {
      var user := db.links[proof.selector].user;
      PutLosesNone(db, db', user, db'.accounts[user]);
    }
  }

  lemma OwnStepsLoseNone(db: Db, step: Step, now: int)
    requires TrailInPast(db.trail, db.clock) && db.clock <= now && !IsAdministration(step) && !Ties(db, step, now)
    ensures NoneLost(db, Effect(db, step, now))
  {
    hide StandingSet, DelegateSet;
    var db' := Effect(db, step, now);
    if db'.accounts == db.accounts && db'.trail == db.trail {
      SameRowsSameStanding(db, db');
      return;
    }
    match step
    case DeliveredStep(selector) =>
      var user := db.links[selector].user;
      PutLosesNone(db, db', user, db'.accounts[user]);
    case SpendStep(proof, ask, text) => SpendLosesNone(db, proof, ask, text, now);
    case UpgradeStep(user) => PutLosesNone(db, db', user, db'.accounts[user]);
    case PasswordStep(user, _) => PutLosesNone(db, db', user, db'.accounts[user]);
    case EnrolStep(user) => EnrolmentLosesNone(db, user, now);
    case RemoveOwnStep(user) => OwnRemovalLosesNone(db, user, now);
    case OperatorResetStep(user, _) => ResetLosesNone(db, user, Operator, now);
    case OperatorLinkStep(user, draw) => PutLosesNone(db, db', user, db'.accounts[user]);
  }

  // -- the guarded steps -----------------------------------------------------------------------------------

  /** Two standing full administrators stay two, and one delegate stays one. */
  ghost predicate RuleKept(db: Db, db': Db) {
    && (|StandingSet(db)| >= 2 ==> |StandingSet(db')| >= 2)
    && (|DelegateSet(db)| >= 1 ==> |DelegateSet(db')| >= 1)
  }

  lemma GrowingKeepsRule(db: Db, db': Db)
    requires NoneLost(db, db')
    ensures RuleKept(db, db')
  {
    Fewer(StandingSet(db), StandingSet(db'));
    Fewer(DelegateSet(db), DelegateSet(db'));
  }

  lemma Fewer<T>(a: set<T>, b: set<T>)
    requires a <= b
    ensures |a| <= |b|
  {
    assert b == a + (b - a);
  }

  /** The guard looks at the change before the epoch moves and the links end; that is the same set. */
  lemma GuardedKeepsRule(db: Db, written: Db, db': Db, user: UserId)
    requires Guards(db, written) == None
    requires user in written.accounts && user in db'.accounts
    requires db'.config == written.config && db'.trail == written.trail
    requires db'.accounts == written.accounts[user := Bumped(written.accounts[user])]
             || db'.accounts == written.accounts
    ensures RuleKept(db, db')
  {
    forall i | i in written.accounts ensures Standing(written, i) <==> Standing(db', i) { }
    assert StandingSet(written) == StandingSet(db');
    assert DelegateSet(written) == DelegateSet(db');
  }

  lemma DeactivationKeepsRule(db: Db, actor: Actor, user: UserId)
    requires DeactivateRefusal(db, actor, user) == None
    ensures RuleKept(db, Deactivated(db, user))
  {
    GuardedKeepsRule(db, Put(db, user, db.accounts[user].(active := false)), Deactivated(db, user), user);
  }

  lemma UpdateKeepsRule(db: Db, actor: Actor, user: UserId, name: string, role: Role, wanted: map<Capability, bool>)
    requires UpdateRefusal(db, actor, user, name, role, wanted) == None
    ensures RuleKept(db, Updated(db, user, name, role, wanted))
  {
    var a := db.accounts[user];
    var row := UpdatedRow(a, name, role, wanted);
    if PowerChanges(a, role, wanted) {
      GuardedKeepsRule(db, Put(db, user, row), Updated(db, user, name, role, wanted), user);
    } else {
      PutLosesNone(db, Updated(db, user, name, role, wanted), user, row);
      GrowingKeepsRule(db, Updated(db, user, name, role, wanted));
    }
  }

  lemma EffectKeepsRule(db: Db, step: Step, now: int)
    requires TrailInPast(db.trail, db.clock) && db.clock <= now && !Ties(db, step, now)
    ensures RuleKept(db, Effect(db, step, now))
  {
    hide StandingSet, DelegateSet, RuleKept;
    if step.UpdateStep? || step.DeactivateStep? {
      if Effect(db, step, now) == db {
        GrowingKeepsRule(db, db);
      } else if step.UpdateStep? {
        UpdateKeepsRule(db, step.actor, step.user, step.name, step.role, step.wanted);
      } else {
        DeactivationKeepsRule(db, step.actor, step.user);
      }
    } else {
      if IsAdministration(step) {
        UnguardedAdministrationLosesNone(db, step, now);
      } else {
        OwnStepsLoseNone(db, step, now);
      }
      GrowingKeepsRule(db, Effect(db, step, now));
    }
  }

  lemma EffectKeepsTrailInPast(db: Db, step: Step, now: int)
    requires TrailInPast(db.trail, db.clock) && db.clock <= now
    ensures TrailInPast(Effect(db, step, now).trail, now)
  {
  }

  lemma ApplyKeepsRule(db: Db, e: Event)
    requires TrailInPast(db.trail, db.clock) && !Ties(db, e.step, db.clock + e.delay)
    ensures RuleKept(db, Apply(db, e))
    ensures TrailInPast(Apply(db, e).trail, Apply(db, e).clock)
  {
    hide Effect;
    var now := db.clock + e.delay;
    EffectKeepsRule(db, e.step, now);
    EffectKeepsTrailInPast(db, e.step, now);
    SameRowsSameStanding(Effect(db, e.step, now), Apply(db, e));
  }

  /** A reset taking effect at its subject's enrolment moment, when they are one of just two standing. */
  ghost predicate TakesOneOfTwo(db: Db, step: Step, now: int) {
    Ties(db, step, now) && Effect(db, step, now) != db && step.user in StandingSet(db) && |StandingSet(db)| == 2
  }

  lemma TieIsReset(db: Db, step: Step, now: int)
    requires (step.ResetStep? || step.OperatorResetStep?) && Effect(db, step, now) != db
    ensures step.user in db.accounts
    ensures var agent := if step.ResetStep? then Administrator else Operator;
            Effect(db, step, now) == FactorRemoved(db, step.user, agent, now)
  {
    hide Begin, NeedsDelegate;
  }

  lemma StepKeepsTwoIff(db: Db, step: Step, now: int)
    requires TrailInPast(db.trail, db.clock) && db.clock <= now && |StandingSet(db)| >= 2
    ensures |StandingSet(Effect(db, step, now))| >= 2 <==> !TakesOneOfTwo(db, step, now)
  {
    hide StandingSet, DelegateSet, Effect, EnrolledAt;
    if !Ties(db, step, now) {
      EffectKeepsRule(db, step, now);
    } else if Effect(db, step, now) != db {
      TieIsReset(db, step, now);
      TieCostsOne(db, step.user, if step.ResetStep? then Administrator else Operator, now);
      WithoutOne(StandingSet(db), step.user);
    }
  }

  lemma WithoutOne<T>(s: set<T>, x: T)
    ensures |s - {x}| == if x in s then |s| - 1 else |s|
  {
    if x !in s { assert s - {x} == s; }
  }

  /** Two stand at every moment of the run. */
  ghost predicate TwoThroughout(db: Db, events: seq<Event>) {
    |StandingSet(Run(db, events))| >= 2 && (events == [] || TwoThroughout(db, events[..|events| - 1]))
  }

  /** At no moment of the run does a tie take one of two. */
  ghost predicate NoneTaken(db: Db, events: seq<Event>) {
    events == []
    || (var n := |events| - 1;
        var before := Run(db, events[..n]);
        NoneTaken(db, events[..n]) && !TakesOneOfTwo(before, events[n].step, before.clock + events[n].delay))
  }

  /** The rule over whole runs, exactly. Whatever ordinary services run, by whom and in whatever order - a
      reset followed by a switch-off included - two standing full administrators stay at least two at every
      moment, if and only if no reset comes at the very moment of its subject's enrolment while they are one
      of just two. */
  lemma {:induction false} TwoAdministratorsStay(db: Db, events: seq<Event>)
    requires TrailInPast(db.trail, db.clock) && |StandingSet(db)| >= 2
    ensures TwoThroughout(db, events) <==> NoneTaken(db, events)
    ensures TrailInPast(Run(db, events).trail, Run(db, events).clock)
  {
    hide Effect, StandingSet, TakesOneOfTwo;
    if events != [] {
      var n := |events| - 1;
      var before, e := Run(db, events[..n]), events[n];
      var now := before.clock + e.delay;
      TwoAdministratorsStay(db, events[..n]);
      EffectKeepsTrailInPast(before, e.step, now);
      SameRowsSameStanding(Effect(before, e.step, now), Apply(before, e));
      if TwoThroughout(db, events[..n]) {
        TwoNow(db, events[..n]);
        StepKeepsTwoIff(before, e.step, now);
      }
    }
  }

  lemma TwoNow(db: Db, events: seq<Event>)
    requires TwoThroughout(db, events)
    ensures |StandingSet(Run(db, events))| >= 2
  {
  }

  lemma ResetTakesNoDelegate(db: Db, step: Step, now: int)
    requires step.ResetStep? || step.OperatorResetStep?
    ensures DelegateSet(Effect(db, step, now)) == DelegateSet(db)
  {
    forall id | id in db.accounts
      ensures id in Effect(db, step, now).accounts
      ensures Effect(db, step, now).accounts[id].Has(DelegateAdministration) == db.accounts[id].Has(DelegateAdministration)
    {
    }
  }

  /** Ties or no ties, there is always somebody left who can delegate. */
  lemma {:induction false} SomebodyDelegates(db: Db, events: seq<Event>)
    requires TrailInPast(db.trail, db.clock) && |DelegateSet(db)| >= 1
    ensures |DelegateSet(Run(db, events))| >= 1
    ensures TrailInPast(Run(db, events).trail, Run(db, events).clock)
  {
    hide Effect, DelegateSet, StandingSet;
    if events != [] {
      var n := |events| - 1;
      var before, e := Run(db, events[..n]), events[n];
      var now := before.clock + e.delay;
      SomebodyDelegates(db, events[..n]);
      EffectKeepsTrailInPast(before, e.step, now);
      SameRowsSameStanding(Effect(before, e.step, now), Apply(before, e));
      if Ties(before, e.step, now) {
        ResetTakesNoDelegate(before, e.step, now);
      } else {
        ApplyKeepsRule(before, e);
      }
    }
  }

  lemma GuardsDecide(db: Db, actor: Actor, user: UserId)
    requires user in db.accounts && Guards(db, Put(db, user, db.accounts[user].(active := false))).Some?
    ensures DeactivateRefusal(db, actor, user).Some?
  {
    hide Guards, Begin, NeedsDelegate;
  }

  lemma ResetIsKnown(db: Db, actor: Actor, user: UserId)
    requires ResetRefusal(db, actor, user) == None
    ensures user in db.accounts
  {
  }

  /** Of two, one switched off: the guard refuses. */
  lemma SecondMayNotGo(db: Db, user: UserId)
    requires |StandingSet(db)| == 2 && user in StandingSet(db)
    ensures user in db.accounts && Guards(db, Put(db, user, db.accounts[user].(active := false))).Some?
  {
    var written := Put(db, user, db.accounts[user].(active := false));
    forall i | i in StandingSet(written) ensures i in StandingSet(db) - {user} {
      assert Standing(written, i);
    }
    Fewer(StandingSet(written), StandingSet(db) - {user});
    assert |StandingSet(db) - {user}| == 1;
  }

  /** The two-step bypass the standing count exists for: with exactly two standing, whoever resets the
      other's factor is then refused when switching them off. */
  lemma {:induction false} ResetThenDeactivateIsRefused(db: Db, resetBy: Actor, actor: Actor, user: UserId, now: int)
    requires TrailInPast(db.trail, db.clock) && db.clock <= now && !EnrolledAt(db.trail, user, now)
    requires ResetRefusal(db, resetBy, user) == None
    requires |StandingSet(db)| == 2 && user in StandingSet(db)
    ensures user in db.accounts && DeactivateRefusal(FactorRemoved(db, user, Administrator, now), actor, user).Some?
  {
    ResetIsKnown(db, resetBy, user);
    var reset := FactorRemoved(db, user, Administrator, now);
    hide Guards, ResetRefusal, DeactivateRefusal, NoneLost;
    assert StandingSet(reset) == StandingSet(db) by {
      ResetLosesNone(db, user, Administrator, now);
      StandingOnlyGrows(db, reset);
      OthersStandAsBefore(db, user, now);
    }
    SecondMayNotGo(reset, user);
    GuardsDecide(reset, actor, user);
  }

  lemma StandingOnlyGrows(db: Db, db': Db)
    requires NoneLost(db, db')
    ensures StandingSet(db) <= StandingSet(db')
  {
  }

  lemma OthersStandAsBefore(db: Db, user: UserId, now: int)
    requires user in db.accounts
    ensures StandingSet(FactorRemoved(db, user, Administrator, now)) <= StandingSet(db) + {user}
  {
    var reset := FactorRemoved(db, user, Administrator, now);
    forall i | i in StandingSet(reset) && i != user ensures i in StandingSet(db) {
      FactorEventKeepsOthers(db, user, reset.accounts[user], Removed(user, Administrator, now), i);
    }
  }

  // -- those who can sign in now --------------------------------------------------------------------

  /** Who can sign in and administer, in full: on, activated, with a password of their own and not a rehearsal
      account among real data; allowed to manage and to delegate; and with an authenticator that works. */
  lemma UsableMeans(db: Db, id: UserId)
    ensures id in UsableSet(db)
       <==> id in db.accounts
            && var a := db.accounts[id];
               && a.active && a.state == Activated && a.passwordSet && a.password.Some? && !(a.synthetic && db.config.realData)
               && Resolve(a.role, a.overrides, ManageAccounts) && Resolve(a.role, a.overrides, DelegateAdministration)
               && a.device == Some(true)
  {
  }

  ghost predicate ByOthers(e: FactorEvent, id: UserId) { e.Removed? && e.subject == id && e.agent != Self }

  /** Somebody else took this account's authenticator, and it enrolled nothing at that moment or since. */
  ghost predicate TakenAndNotReplaced(trail: seq<FactorEvent>, id: UserId) {
    exists k :: 0 <= k < |trail| && ByOthers(trail[k], id)
      && forall l :: 0 <= l < |trail| && trail[l].Enrolled? && trail[l].subject == id ==> trail[l].at < trail[k].at
  }

  lemma {:induction false} LatestIsOne(trail: seq<FactorEvent>, id: UserId)
    ensures LatestRemoval(trail, id).None? ==> forall k :: 0 <= k < |trail| ==> !ByOthers(trail[k], id)
    ensures LatestRemoval(trail, id).Some? ==>
              && (exists k :: 0 <= k < |trail| && ByOthers(trail[k], id) && trail[k].at == LatestRemoval(trail, id).value)
              && (forall k :: 0 <= k < |trail| && ByOthers(trail[k], id) ==> trail[k].at <= LatestRemoval(trail, id).value)
  {
    if trail != [] {
      var n := |trail| - 1;
      LatestIsOne(trail[..n], id);
      assert forall k :: 0 <= k < n ==> trail[..n][k] == trail[k];
      if LatestRemoval(trail[..n], id).Some? {
        var k :| 0 <= k < n && ByOthers(trail[..n][k], id) && trail[..n][k].at == LatestRemoval(trail[..n], id).value;
        assert ByOthers(trail[k], id);
      }
      if ByOthers(trail[n], id) { assert trail[n].at == trail[n].at; }
    }
  }

  /** Who stands: also those complete but for an authenticator that was taken from them. */
  lemma StandingMeans(db: Db, id: UserId)
    ensures id in StandingSet(db)
       <==> id in UsableSet(db)
            || (id in db.accounts
                && var a := db.accounts[id];
                   && a.active && a.state == Activated && a.passwordSet && a.password.Some? && !(a.synthetic && db.config.realData)
                   && Resolve(a.role, a.overrides, ManageAccounts) && Resolve(a.role, a.overrides, DelegateAdministration)
                   && a.device == None && TakenAndNotReplaced(db.trail, id))
  {
    LatestIsOne(db.trail, id);
  }

  /** Who may hand out administration. */
  lemma DelegatesMean(db: Db, id: UserId)
    ensures id in DelegateSet(db)
       <==> id in db.accounts && db.accounts[id].active
            && Resolve(db.accounts[id].role, db.accounts[id].overrides, DelegateAdministration)
  {
  }

  /** What the guarded steps may cost: none of the three counts falls, but to two or more - or, of delegates, to
      one or more. */
  ghost predicate CostsLittle(db: Db, db': Db) {
    && (|UsableSet(db')| >= |UsableSet(db)| || |UsableSet(db')| >= 2)
    && (|StandingSet(db')| >= |StandingSet(db)| || |StandingSet(db')| >= 2)
    && (|DelegateSet(db')| >= 1 || |DelegateSet(db)| == 0)
  }

  lemma GuardedCostsLittle(db: Db, written: Db, db': Db, user: UserId)
    requires Guards(db, written) == None
    requires user in written.accounts && user in db'.accounts
    requires db'.config == written.config && db'.trail == written.trail
    requires db'.accounts == written.accounts[user := Bumped(written.accounts[user])] || db'.accounts == written.accounts
    ensures CostsLittle(db, db')
  {
    forall i | i in written.accounts
      ensures Standing(written, i) <==> Standing(db', i)
      ensures Usable(written.config, written.accounts[i]) <==> Usable(db'.config, db'.accounts[i])
    {
    }
    assert StandingSet(written) == StandingSet(db');
    assert DelegateSet(written) == DelegateSet(db');
    assert UsableSet(written) == UsableSet(db');
  }

  lemma SwitchingOffPassed(db: Db, actor: Actor, user: UserId)
    requires DeactivateRefusal(db, actor, user) == None
    ensures user in db.accounts && Guards(db, Put(db, user, db.accounts[user].(active := false))) == None
  {
    hide Guards, Begin, NeedsDelegate;
  }

  lemma SwitchingOffCostsLittle(db: Db, actor: Actor, user: UserId, now: int)
    ensures CostsLittle(db, Effect(db, DeactivateStep(actor, user), now))
  {
    hide CostsLittle, DeactivateRefusal, Guards;
    if DeactivateRefusal(db, actor, user) == None {
      SwitchingOffPassed(db, actor, user);
      GuardedCostsLittle(db, Put(db, user, db.accounts[user].(active := false)), Deactivated(db, user), user);
    } else {
      NothingCostsLittle(db);
    }
  }

  lemma NothingCostsLittle(db: Db)
    ensures CostsLittle(db, db)
  {
  }

  lemma SavingPassed(db: Db, actor: Actor, user: UserId, name: string, role: Role, wanted: map<Capability, bool>)
    requires UpdateRefusal(db, actor, user, name, role, wanted) == None
    ensures user in db.accounts
    ensures PowerChanges(db.accounts[user], role, wanted) ==>
              Guards(db, Put(db, user, UpdatedRow(db.accounts[user], name, role, wanted))) == None
  {
    hide Guards, Begin, NeedsDelegate, PowerRefusal, PowerChanges, UpdatedRow;
  }

  lemma SavingCostsLittle(db: Db, actor: Actor, user: UserId, name: string, role: Role, wanted: map<Capability, bool>, now: int)
    ensures CostsLittle(db, Effect(db, UpdateStep(actor, user, name, role, wanted), now))
  {
    hide CostsLittle, UpdateRefusal, Guards, PowerChanges, NewOverrides;
    if UpdateRefusal(db, actor, user, name, role, wanted) != None {
      NothingCostsLittle(db);
    } else {
      SavingPassed(db, actor, user, name, role, wanted);
      if PowerChanges(db.accounts[user], role, wanted) {
        GuardedCostsLittle(db, Put(db, user, UpdatedRow(db.accounts[user], name, role, wanted)),
                           Updated(db, user, name, role, wanted), user);
      } else {
        RenamingCostsLittle(db, Updated(db, user, name, role, wanted), user, name);
      }
    }
  }

  lemma RenamingCostsLittle(db: Db, db': Db, user: UserId, name: string)
    requires user in db.accounts && db' == Put(db, user, db.accounts[user].(name := name))
    ensures CostsLittle(db, db')
  {
    forall i | i in db.accounts ensures Standing(db, i) <==> Standing(db', i) { }
    assert StandingSet(db) == StandingSet(db') && DelegateSet(db) == DelegateSet(db') && UsableSet(db) == UsableSet(db');
  }

  /** No switch-off and no save costs the department its two. */
  lemma {:induction false} GuardedStepsCostLittle(db: Db, step: Step, now: int)
    requires step.DeactivateStep? || step.UpdateStep?
    ensures CostsLittle(db, Effect(db, step, now))
  {
    hide CostsLittle, Effect;
    if step.DeactivateStep? {
      SwitchingOffCostsLittle(db, step.actor, step.user, now);
    } else {
      SavingCostsLittle(db, step.actor, step.user, step.name, step.role, step.wanted, now);
    }
  }

  ghost predicate IsReset(step: Step) { step.ResetStep? || step.OperatorResetStep? }

  lemma AdministrationKeepsUsable(db: Db, step: Step, now: int)
    requires IsAdministration(step) && !step.DeactivateStep? && !step.UpdateStep? && !IsReset(step)
    ensures UsableSet(db) <= UsableSet(Effect(db, step, now))
  {
    hide Begin, NeedsDelegate, AddressRefusal, Resolve;
  }

  lemma OwnStepsKeepUsable(db: Db, step: Step, now: int)
    requires !IsAdministration(step) && !IsReset(step)
    ensures UsableSet(db) <= UsableSet(Effect(db, step, now))
  {
    hide Resolve, HolderMay, MayReceiveAdministratorLink, ResetEligible, Opens;
  }

  lemma ResetCostsItsSubject(db: Db, step: Step, now: int)
    requires IsReset(step) && Effect(db, step, now) != db
    ensures UsableSet(Effect(db, step, now)) == UsableSet(db) - {step.user}
  {
    TieIsReset(db, step, now);
    hide Effect, Resolve;
  }

  /** A reset that takes the working authenticator of one of just two. */
  ghost predicate TakesOneOfTwoUsable(db: Db, step: Step, now: int) {
    IsReset(step) && Effect(db, step, now) != db && step.user in UsableSet(db) && |UsableSet(db)| == 2
  }

  lemma StepKeepsTwoUsableIff(db: Db, step: Step, now: int)
    requires |UsableSet(db)| >= 2
    ensures |UsableSet(Effect(db, step, now))| >= 2 <==> !TakesOneOfTwoUsable(db, step, now)
  {
    hide UsableSet, Effect, StandingSet, DelegateSet;
    if IsReset(step) {
      if Effect(db, step, now) != db {
        ResetCostsItsSubject(db, step, now);
        WithoutOne(UsableSet(db), step.user);
      }
    } else if step.DeactivateStep? || step.UpdateStep? {
      GuardedStepsCostLittle(db, step, now);
    } else {
      if IsAdministration(step) {
        AdministrationKeepsUsable(db, step, now);
      } else {
        OwnStepsKeepUsable(db, step, now);
      }
      Fewer(UsableSet(db), UsableSet(Effect(db, step, now)));
    }
  }

  ghost predicate TwoUsableThroughout(db: Db, events: seq<Event>) {
    |UsableSet(Run(db, events))| >= 2 && (events == [] || TwoUsableThroughout(db, events[..|events| - 1]))
  }

  ghost predicate NoneDisarmed(db: Db, events: seq<Event>) {
    events == []
    || (var n := |events| - 1;
        var before := Run(db, events[..n]);
        NoneDisarmed(db, events[..n]) && !TakesOneOfTwoUsable(before, events[n].step, before.clock + events[n].delay))
  }

  lemma SameRowsSameUsable(db: Db, db': Db)
    requires db'.config == db.config && db'.accounts == db.accounts
    ensures UsableSet(db') == UsableSet(db)
  {
  }

  lemma TwoUsableNow(db: Db, events: seq<Event>)
    requires TwoUsableThroughout(db, events)
    ensures |UsableSet(Run(db, events))| >= 2
  {
  }

  /** The same of those who can sign in and administer now: over every run two of them stay two at every moment,
      if and only if nobody's reset takes the authenticator of one of just two. */
  lemma {:induction false} TwoUsableStay(db: Db, events: seq<Event>)
    requires |UsableSet(db)| >= 2
    ensures TwoUsableThroughout(db, events) <==> NoneDisarmed(db, events)
  {
    hide Effect, UsableSet, TakesOneOfTwoUsable;
    if events != [] {
      var n := |events| - 1;
      var before, e := Run(db, events[..n]), events[n];
      var now := before.clock + e.delay;
      TwoUsableStay(db, events[..n]);
      SameRowsSameUsable(Effect(before, e.step, now), Apply(before, e));
      if TwoUsableThroughout(db, events[..n]) {
        TwoUsableNow(db, events[..n]);
        StepKeepsTwoUsableIff(before, e.step, now);
      }
    }
  }
}
