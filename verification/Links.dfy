/** One-time links over whole runs: how long a link works, and what spending one does. */
module Links {
  import opened Outcomes
  import opened Capabilities
  import opened Accounts

  /** The database constraint on a row, and salts that were really drawn. */
  ghost predicate RowOk(a: Account, nextHash: nat) {
    && (a.state != Activated ==> !a.active)
    && (a.password.Some? ==> a.password.value.salt < nextHash)
  }

  predicate SwitchedOff(a: Account) { a.state == Activated && !a.active }

  /** A link whose account's password was hashed again since: the hash it is bound to never returns. */
  ghost predicate Superseded(stamp: Stamp, a: Account, nextHash: nat) {
    stamp.password.Some? && stamp.password.value.salt < nextHash && a.password != stamp.password
  }

  /** A link that is still live belongs to an account that is not switched off and to its present
      credentials, unless it is superseded; and if its form was previewed, its holder may still set a
      password with it. */
  ghost predicate LinkOk(db: Db, s: Selector)
    requires s in db.links
  {
    var l := db.links[s];
    && l.user in db.accounts
    && (l.IsLive() ==>
          && (l.stamp == db.accounts[l.user].CredentialStamp() || Superseded(l.stamp, db.accounts[l.user], db.nextHash))
          && LoginOf(l.stamp) == LoginOf(db.accounts[l.user].CredentialStamp())
          && !SwitchedOff(db.accounts[l.user])
          && (s in db.previewed ==> HolderMay(db.config, db.accounts[l.user], l.purpose)))
  }

  ghost predicate OneLive(db: Db) {
    forall s, t :: s in db.links && t in db.links && s != t
      && db.links[s].IsLive() && db.links[t].IsLive() && db.links[s].user == db.links[t].user
      ==> db.links[s].purpose != db.links[t].purpose
  }

  /** What every step keeps. */
  ghost predicate WellFormed(db: Db) {
    && (forall id :: id in db.accounts ==> RowOk(db.accounts[id], db.nextHash))
    && (forall s :: s in db.links ==> LinkOk(db, s))
    && OneLive(db)
    && db.previewed <= db.links.Keys
  }

  /** A register with no links yet is well-formed when its rows meet the database's constraint. */
  lemma StartsWellFormed(db: Db)
    requires db.links == map[] && db.previewed == {}
    requires forall id :: id in db.accounts ==> RowOk(db.accounts[id], db.nextHash)
    ensures WellFormed(db)
  {
  }

  // -- each kind of write keeps it -----------------------------------------------------------

  /** A row rewritten without moving the credentials or taking anything from a link's holder. */
  ghost predicate GentleOn(config: Config, a: Account, b: Account) {
    && a.CredentialStamp() == b.CredentialStamp()
    && (SwitchedOff(b) ==> SwitchedOff(a))
    && (forall p :: HolderMay(config, a, p) ==> HolderMay(config, b, p))
  }

  lemma PutKeeps(db: Db, id: UserId, row: Account)
    requires WellFormed(db) && id in db.accounts && RowOk(row, db.nextHash)
    requires GentleOn(db.config, db.accounts[id], row)
    ensures WellFormed(Put(db, id, row))
  {
    var db' := Put(db, id, row);
    forall s | s in db'.links ensures LinkOk(db', s) {
      assert LinkOk(db, s);
    }
  }

  /** A row rewritten in any way, its links all ended. */
  lemma PutAndInvalidateKeeps(db: Db, id: UserId, row: Account)
    requires WellFormed(db) && id in db.accounts && RowOk(row, db.nextHash)
    ensures WellFormed(Invalidate(Put(db, id, row), id, None))
    ensures Invalidate(Put(db, id, row), id, None) == Put(Invalidate(db, id, None), id, row)
  {
    var db' := Invalidate(Put(db, id, row), id, None);
    forall s | s in db'.links ensures LinkOk(db', s) {
      assert LinkOk(db, s);
    }
  }

  lemma InvalidateKeeps(db: Db, id: UserId, purpose: Option<Purpose>)
    requires WellFormed(db)
    ensures WellFormed(Invalidate(db, id, purpose))
  {
    var db' := Invalidate(db, id, purpose);
    forall s | s in db'.links ensures LinkOk(db', s) {
      assert LinkOk(db, s);
    }
  }

  lemma IssueKeeps(db: Db, id: UserId, purpose: Purpose, draw: Draw, now: int)
    requires WellFormed(db) && id in db.accounts && draw.selector !in db.links && !SwitchedOff(db.accounts[id])
    ensures WellFormed(Issue(db, id, purpose, draw, now))
  {
    var superseded := Invalidate(db, id, Some(purpose));
    InvalidateKeeps(db, id, Some(purpose));
    var db' := Issue(db, id, purpose, draw, now);
    forall s | s in db'.links ensures LinkOk(db', s) {
      if s != draw.selector { assert LinkOk(superseded, s); }
    }
  }

  lemma ReactivateKeeps(db: Db, id: UserId)
    requires WellFormed(db) && id in db.accounts && SwitchedOff(db.accounts[id])
    ensures WellFormed(Reactivated(db, id))
  {
    var db' := Reactivated(db, id);
    forall s | s in db'.links ensures LinkOk(db', s) {
      assert LinkOk(db, s);
    }
  }

  /** One link ended, by use or otherwise. */
  lemma EndingOneKeeps(db: Db, s: Selector, used: bool, invalidated: bool)
    requires WellFormed(db) && s in db.links && (used || invalidated)
    ensures WellFormed(db.(links := db.links[s := db.links[s].(used := used, invalidated := invalidated)]))
  {
    var db' := db.(links := db.links[s := db.links[s].(used := used, invalidated := invalidated)]);
    forall t | t in db'.links ensures LinkOk(db', t) {
      assert LinkOk(db, t);
    }
  }

  lemma MoreHashesKeep(db: Db, more: nat)
    requires WellFormed(db) && db.nextHash <= more
    ensures WellFormed(db.(nextHash := more))
  {
    forall s | s in db.links ensures LinkOk(db.(nextHash := more), s) { assert LinkOk(db, s); }
  }

  lemma CreateKeeps(db: Db, id: UserId, row: Account)
    requires WellFormed(db) && id !in db.accounts && RowOk(row, db.nextHash)
    ensures WellFormed(Put(db, id, row))
  {
    forall s | s in db.links ensures LinkOk(Put(db, id, row), s) { assert LinkOk(db, s); }
  }

  lemma TrailKeeps(db: Db, trail: seq<FactorEvent>, clock: int)
    requires WellFormed(db)
    ensures WellFormed(db.(trail := trail, clock := clock))
  {
    var db' := db.(trail := trail, clock := clock);
    forall s | s in db'.links ensures LinkOk(db', s) { assert LinkOk(db, s); }
  }

  lemma PreviewKeeps(db: Db, proof: Proof, now: int)
    requires WellFormed(db)
    ensures WellFormed(Previewed(db, proof, now))
  {
    var db' := Previewed(db, proof, now);
    forall s | s in db'.links ensures LinkOk(db', s) { assert LinkOk(db, s); }
  }

  lemma PasswordKeeps(db: Db, id: UserId, row: Account)
    requires WellFormed(db) && id in db.accounts && RowOk(row, db.nextHash + 1)
    ensures WellFormed(Invalidate(Put(db, id, row), id, None).(nextHash := db.nextHash + 1))
  {
    MoreHashesKeep(db, db.nextHash + 1);
    PutAndInvalidateKeeps(db.(nextHash := db.nextHash + 1), id, row);
    assert Invalidate(Put(db, id, row), id, None).(nextHash := db.nextHash + 1)
        == Invalidate(Put(db.(nextHash := db.nextHash + 1), id, row), id, None);
  }

  // -- every step keeps it -----------------------------------------------------------------------

  /** The early return after `consume` cannot be reached: if a previewed link still opens, its holder
      may still set a password with it, whatever was done between the preview and the submission. */
  lemma EarlyReturnUnreachable(db: Db, proof: Proof, now: int)
    requires WellFormed(db) && proof.selector in db.previewed && Opens(db, proof, now)
    ensures HolderMay(db.config, db.accounts[db.links[proof.selector].user], proof.purpose)
  {
    assert LinkOk(db, proof.selector);
  }

  lemma PasswordWrittenKeeps(db: Db, user: UserId, text: Text)
    requires WellFormed(db) && user in db.accounts
    ensures WellFormed(PasswordWritten(db, user, text))
  {
    var a := db.accounts[user];
    var activated := a.state == Invited;
    PasswordKeeps(db, user, Bumped(a.(password := Some(Hash(text, db.nextHash)), passwordSet := true,
                  state := if activated then Activated else a.state, active := a.active || activated)));
  }

  lemma SpendKeeps(db: Db, proof: Proof, ask: bool, text: Text, now: int)
    requires WellFormed(db)
    ensures WellFormed(SpendLink(db, proof, ask, text, now))
  {
    if proof.selector in db.previewed && Opens(db, proof, now) {
      EarlyReturnUnreachable(db, proof, now);
      var l := db.links[proof.selector];
      EndingOneKeeps(db, proof.selector, true, l.invalidated);
      PasswordWrittenKeeps(Consumed(db, proof.selector), l.user, text);
    }
  }

  lemma SetupKeeps(db: Db, user: UserId, draw: Draw, now: int)
    requires WellFormed(db) && user in db.accounts && draw.selector !in db.links && !SwitchedOff(db.accounts[user])
    ensures WellFormed(SetupIssued(db, user, draw, now))
  {
    var a := db.accounts[user];
    var row := if Inviting(a) then a.(approved := true) else a;
    PutKeeps(db, user, row);
    IssueKeeps(Put(db, user, row), user, SetupPurpose(a), draw, now);
  }

  lemma OperatorLinkKeeps(db: Db, user: UserId, draw: Draw, now: int)
    requires WellFormed(db) && user in db.accounts && draw.selector !in db.links && !SwitchedOff(db.accounts[user])
    ensures WellFormed(OperatorLinkIssued(db, user, draw, now))
  {
    var a := db.accounts[user];
    var row := a.(state := if a.state == Pending then Invited else a.state);
    PutKeeps(db, user, row);
    IssueKeeps(Put(db, user, row), user, SetupPurpose(a), draw, now);
  }

  lemma DeliveredKeeps(db: Db, selector: Selector)
    requires WellFormed(db)
    ensures WellFormed(Delivered(db, selector))
  {
    if Delivered(db, selector) != db {
      var user := db.links[selector].user;
      PutKeeps(db, user, db.accounts[user].(state := Invited));
    }
  }

  lemma FactorKeeps(db: Db, user: UserId, device: Option<bool>, e: FactorEvent)
    requires WellFormed(db) && user in db.accounts
    ensures WellFormed(Recorded(Put(db, user, Bumped(db.accounts[user].(device := device))), e))
  {
    PutKeeps(db, user, Bumped(db.accounts[user].(device := device)));
    TrailKeeps(Put(db, user, Bumped(db.accounts[user].(device := device))), db.trail + [e], db.clock);
  }

  lemma UpdateKeeps(db: Db, user: UserId, name: string, role: Role, wanted: map<Capability, bool>)
    requires WellFormed(db) && user in db.accounts
    ensures WellFormed(Updated(db, user, name, role, wanted))
  {
    var a := db.accounts[user];
    var row := UpdatedRow(a, name, role, wanted);
    PutKeeps(db, user, if PowerChanges(a, role, wanted) then Bumped(row) else row);
  }

  lemma AdministrationKeeps(db: Db, step: Step, now: int)
    requires WellFormed(db) && IsAdministration(step)
    ensures WellFormed(Effect(db, step, now))
  {
    hide WellFormed;
    if Effect(db, step, now) == db { return; }
    match step
    case CreateStep(actor, user, name, role, address) =>
      CreateKeeps(db, user, Created(db, user, name, role, address).accounts[user]);
    case SetupStep(actor, user, draw) => SetupKeeps(db, user, draw, now);
    case CancelStep(actor, user) =>
      NotYetActive(db, user);
      PutAndInvalidateKeeps(db, user, db.accounts[user].(state := Pending));
    case UpdateStep(actor, user, name, role, wanted) => UpdateKeeps(db, user, name, role, wanted);
    case DeactivateStep(actor, user) => DeactivateKeeps(db, user);
    case ReactivateStep(actor, user) => ReactivateKeeps(db, user);
    case ResetStep(actor, user) => FactorKeeps(db, user, None, Removed(user, Administrator, now));
    case EmailStep(actor, user, address) => EmailKeeps(db, user, address.upn);
  }

  lemma NotYetActive(db: Db, user: UserId)
    requires WellFormed(db) && user in db.accounts && db.accounts[user].state != Activated
    ensures RowOk(db.accounts[user].(state := Pending), db.nextHash)
  {
    assert RowOk(db.accounts[user], db.nextHash);
  }

  lemma DeactivateKeeps(db: Db, user: UserId)
    requires WellFormed(db) && user in db.accounts
    ensures WellFormed(Deactivated(db, user))
  {
    PutAndInvalidateKeeps(db, user, Bumped(db.accounts[user].(active := false)));
  }

  lemma EmailKeeps(db: Db, user: UserId, upn: string)
    requires WellFormed(db) && user in db.accounts
    ensures WellFormed(EmailChanged(db, user, upn))
  {
    PutAndInvalidateKeeps(db, user, Bumped(db.accounts[user].(upn := upn)));
  }

  lemma ChangeKeeps(db: Db, user: UserId, text: Text)
    requires WellFormed(db)
    ensures WellFormed(ChangePassword(db, user, text))
  {
    if user in db.accounts && db.accounts[user].password.Some? {
      PasswordKeeps(db, user, Bumped(db.accounts[user].(password := Some(Hash(text, db.nextHash)), passwordSet := true)));
    }
  }

  /** Hashing a password again leaves its links live in their rows, and superseded. */
  lemma UpgradeKeeps(db: Db, user: UserId)
    requires WellFormed(db)
    ensures WellFormed(HashUpgraded(db, user))
  {
    var db' := HashUpgraded(db, user);
    if user in db.accounts { assert RowOk(db.accounts[user], db.nextHash); }
    forall s | s in db'.links ensures LinkOk(db', s) {
      assert LinkOk(db, s);
    }
  }

  lemma OwnStepsKeep(db: Db, step: Step, now: int)
    requires WellFormed(db) && !IsAdministration(step)
    ensures WellFormed(Effect(db, step, now))
  {
    hide WellFormed;
    if Effect(db, step, now) == db { return; }
    match step
    case DeliveredStep(selector) => DeliveredKeeps(db, selector);
    case UndeliveredStep(selector) => EndingOneKeeps(db, selector, db.links[selector].used, true);
    case PreviewStep(proof) => PreviewKeeps(db, proof, now);
    case SpendStep(proof, ask, text) => SpendKeeps(db, proof, ask, text, now);
    case PasswordStep(user, text) => ChangeKeeps(db, user, text);
    case UpgradeStep(user) => UpgradeKeeps(db, user);
    case MailJobStep(user, stamp, draw) => IssueKeeps(db, user, PasswordReset, draw, now);
    case EnrolStep(user) => FactorKeeps(db, user, Some(true), Enrolled(user, now));
    case RemoveOwnStep(user) => FactorKeeps(db, user, None, Removed(user, Self, now));
    case OperatorResetStep(user, _) => FactorKeeps(db, user, None, Removed(user, Operator, now));
    case OperatorLinkStep(user, draw) => OperatorLinkKeeps(db, user, draw, now);
  }

  lemma ApplyKeepsWellFormed(db: Db, e: Event)
    requires WellFormed(db)
    ensures WellFormed(Apply(db, e))
  {
    hide Effect;
    hide WellFormed;
    var now := db.clock + e.delay;
    if IsAdministration(e.step) {
      AdministrationKeeps(db, e.step, now);
    } else {
      OwnStepsKeep(db, e.step, now);
    }
    var after := Effect(db, e.step, now);
    TrailKeeps(after, after.trail, now);
    assert after.(trail := after.trail, clock := now) == after.(clock := now);
  }

  /** Every run of every service, in any interleaving, keeps the register well-formed: at most one
      live link per person and purpose, each bound to the credentials of now. */
  lemma {:induction false} RunsStayWellFormed(db: Db, events: seq<Event>)
    requires WellFormed(db)
    ensures WellFormed(Run(db, events))
  {
    hide Apply;
    hide WellFormed;
    if events != [] {
      RunsStayWellFormed(db, events[..|events| - 1]);
      ApplyKeepsWellFormed(Run(db, events[..|events| - 1]), events[|events| - 1]);
    }
  }

  // -- a dead link stays dead ------------------------------------------------------------------------

  /** Links are never deleted, re-addressed or revived; accounts are never deleted. */
  ghost predicate LinksOnlyEnd(db: Db, db': Db) {
    && db'.config == db.config
    && db.accounts.Keys <= db'.accounts.Keys
    && db.links.Keys <= db'.links.Keys
    && forall s :: s in db.links ==> Ends(db.links[s], db'.links[s])
  }

  ghost predicate Ends(l: Link, l': Link) {
    && l'.user == l.user && l'.purpose == l.purpose && l'.digest == l.digest && l'.stamp == l.stamp
    && (l.used ==> l'.used)
    && (l.used != l'.used ==> l.IsLive())
    && (!l.IsLive() ==> !l'.IsLive())
  }

  lemma Chain(a: Db, b: Db, c: Db)
    requires LinksOnlyEnd(a, b) && LinksOnlyEnd(b, c)
    ensures LinksOnlyEnd(a, c)
  {
    forall s | s in a.links ensures Ends(a.links[s], c.links[s]) {
      assert Ends(a.links[s], b.links[s]) && Ends(b.links[s], c.links[s]);
    }
  }

  lemma InvalidateEnds(db: Db, id: UserId, purpose: Option<Purpose>)
    ensures LinksOnlyEnd(db, Invalidate(db, id, purpose))
  {
  }

  lemma IssueEnds(db: Db, id: UserId, purpose: Purpose, draw: Draw, now: int)
    requires id in db.accounts && draw.selector !in db.links
    ensures LinksOnlyEnd(db, Issue(db, id, purpose, draw, now))
  {
  }

  lemma SameLinksEnd(db: Db, db': Db)
    requires db'.config == db.config && db.accounts.Keys <= db'.accounts.Keys && db'.links == db.links
    ensures LinksOnlyEnd(db, db')
  {
  }

  lemma AdministrationEnds(db: Db, step: Step, now: int)
    requires IsAdministration(step)
    ensures LinksOnlyEnd(db, Effect(db, step, now))
  {
    hide LinksOnlyEnd, Begin, NeedsDelegate, Guards, SaveRefusal, AddressRefusal;
    var db' := Effect(db, step, now);
    if step.SetupStep? && db' != db {
      var row := db'.accounts[step.user];
      SameLinksEnd(db, Put(db, step.user, row));
      IssueEnds(Put(db, step.user, row), step.user, SetupPurpose(db.accounts[step.user]), step.draw, now);
      Chain(db, Put(db, step.user, row), db');
    } else if (step.CancelStep? || step.DeactivateStep? || step.EmailStep?) && db' != db {
      InvalidateEnds(db, step.user, None);
      SameLinksEnd(Invalidate(db, step.user, None), db');
      Chain(db, Invalidate(db, step.user, None), db');
    } else {
      SameLinksEnd(db, db');
    }
  }

  lemma PasswordEnds(db: Db, user: UserId, text: Text)
    requires user in db.accounts
    ensures LinksOnlyEnd(db, PasswordWritten(db, user, text)) && LinksOnlyEnd(db, ChangePassword(db, user, text))
  {
    hide LinksOnlyEnd;
    var ended := Invalidate(db, user, None);
    InvalidateEnds(db, user, None);
    SameLinksEnd(ended, PasswordWritten(db, user, text));
    Chain(db, ended, PasswordWritten(db, user, text));
    if db.accounts[user].password.Some? {
      SameLinksEnd(ended, ChangePassword(db, user, text));
      Chain(db, ended, ChangePassword(db, user, text));
    } else {
      SameLinksEnd(db, ChangePassword(db, user, text));
    }
  }

  lemma ConsumingEnds(db: Db, selector: Selector)
    requires selector in db.links && db.links[selector].IsLive()
    ensures LinksOnlyEnd(db, Consumed(db, selector))
  {
  }

  lemma SpendEnds(db: Db, proof: Proof, ask: bool, text: Text, now: int)
    ensures LinksOnlyEnd(db, SpendLink(db, proof, ask, text, now))
  {
    hide LinksOnlyEnd, PasswordWritten, Consumed, HolderMay, MayReceiveAdministratorLink;
    var db' := SpendLink(db, proof, ask, text, now);
    if db' == db {
      SameLinksEnd(db, db');
    } else {
      var consumed := Consumed(db, proof.selector);
      ConsumingEnds(db, proof.selector);
      if db' != consumed {
        ConsumingKeepsAccounts(db, proof.selector);
        PasswordEnds(consumed, db.links[proof.selector].user, text);
        Chain(db, consumed, db');
      }
    }
  }

  lemma ConsumingKeepsAccounts(db: Db, selector: Selector)
    requires selector in db.links
    ensures Consumed(db, selector).accounts == db.accounts
  {
  }

  lemma OperatorLinkEnds(db: Db, user: UserId, draw: Draw, now: int)
    requires user in db.accounts && draw.selector !in db.links
    ensures LinksOnlyEnd(db, OperatorLinkIssued(db, user, draw, now))
  {
    hide LinksOnlyEnd;
    var a := db.accounts[user];
    var put := Put(db, user, a.(state := if a.state == Pending then Invited else a.state));
    SameLinksEnd(db, put);
    IssueEnds(put, user, SetupPurpose(a), draw, now);
    Chain(db, put, OperatorLinkIssued(db, user, draw, now));
  }

  lemma UndeliveredEnds(db: Db, selector: Selector)
    ensures LinksOnlyEnd(db, Undelivered(db, selector))
  {
  }

  lemma OwnStepsEnd(db: Db, step: Step, now: int)
    requires !IsAdministration(step)
    ensures LinksOnlyEnd(db, Effect(db, step, now))
  {
    hide LinksOnlyEnd, SpendLink, ChangePassword, OperatorLinkIssued, Undelivered, Issue, OperatorLinkRefusal;
    var db' := Effect(db, step, now);
    if db' == db {
      SameLinksEnd(db, db');
      return;
    }
    match step
    case SpendStep(proof, ask, text) => SpendEnds(db, proof, ask, text, now);
    case PasswordStep(user, text) => ChangeEnds(db, user, text);
    case MailJobStep(user, _, draw) => IssueEnds(db, user, PasswordReset, draw, now);
    case OperatorLinkStep(user, draw) => OperatorLinkIsKnown(db, user); OperatorLinkEnds(db, user, draw, now);
    case UndeliveredStep(selector) => UndeliveredEnds(db, selector);
    case _ => SameLinksEnd(db, db');
  }

  lemma ChangeEnds(db: Db, user: UserId, text: Text)
    ensures LinksOnlyEnd(db, ChangePassword(db, user, text))
  {
    if user in db.accounts { PasswordEnds(db, user, text); }
  }

  lemma OperatorLinkIsKnown(db: Db, user: UserId)
    ensures OperatorLinkRefusal(db, user).None? ==> user in db.accounts
  {
  }

  lemma ApplyOnlyEndsLinks(db: Db, e: Event)
    ensures LinksOnlyEnd(db, Apply(db, e))
  {
    hide Effect;
    var now := db.clock + e.delay;
    if IsAdministration(e.step) {
      AdministrationEnds(db, e.step, now);
    } else {
      OwnStepsEnd(db, e.step, now);
    }
  }

  lemma {:induction false} RunsOnlyEndLinks(db: Db, events: seq<Event>)
    ensures LinksOnlyEnd(db, Run(db, events))
  {
    hide Apply;
    if events != [] {
      var n := |events| - 1;
      RunsOnlyEndLinks(db, events[..n]);
      ApplyOnlyEndsLinks(Run(db, events[..n]), events[n]);
      Chain(db, Run(db, events[..n]), Run(db, events));
    }
  }

  // -- salts are never drawn twice -----------------------------------------------------------------

  /** A password is what it was, or one hashed with a salt drawn since. */
  ghost predicate SaltsMoveOn(db: Db, db': Db) {
    && db.nextHash <= db'.nextHash
    && forall id :: id in db.accounts ==> id in db'.accounts && Rehashed(db.accounts[id], db'.accounts[id], db.nextHash)
  }

  ghost predicate Rehashed(a: Account, b: Account, drawn: nat) {
    a.password == b.password || (b.password.Some? && b.password.value.salt >= drawn)
  }

  lemma SaltsChain(a: Db, b: Db, c: Db)
    requires SaltsMoveOn(a, b) && SaltsMoveOn(b, c)
    ensures SaltsMoveOn(a, c)
  {
    forall id | id in a.accounts ensures id in c.accounts && Rehashed(a.accounts[id], c.accounts[id], a.nextHash) {
      assert Rehashed(a.accounts[id], b.accounts[id], a.nextHash) && Rehashed(b.accounts[id], c.accounts[id], b.nextHash);
    }
  }

  lemma AdministrationDrawsNone(db: Db, step: Step, now: int)
    requires IsAdministration(step)
    ensures SaltsMoveOn(db, Effect(db, step, now))
  {
    hide Begin, NeedsDelegate, Guards, SaveRefusal, AddressRefusal, NewOverrides, Outstanding;
  }

  lemma OwnStepsDrawAfresh(db: Db, step: Step, now: int)
    requires !IsAdministration(step)
    ensures SaltsMoveOn(db, Effect(db, step, now))
  {
    hide HolderMay, MayReceiveAdministratorLink, ResetEligible, Outstanding, Resolve;
  }

  lemma {:induction false} RunsMoveSaltsOn(db: Db, events: seq<Event>)
    ensures SaltsMoveOn(db, Run(db, events))
  {
    hide SaltsMoveOn, Effect;
    if events == [] {
      NothingDrawn(db, db);
    } else {
      var n := |events| - 1;
      var before, e := Run(db, events[..n]), events[n];
      var now := before.clock + e.delay;
      RunsMoveSaltsOn(db, events[..n]);
      if IsAdministration(e.step) {
        AdministrationDrawsNone(before, e.step, now);
      } else {
        OwnStepsDrawAfresh(before, e.step, now);
      }
      NothingDrawn(Effect(before, e.step, now), Apply(before, e));
      SaltsChain(before, Effect(before, e.step, now), Apply(before, e));
      SaltsChain(db, before, Run(db, events));
    }
  }

  lemma NothingDrawn(db: Db, db': Db)
    requires db'.accounts == db.accounts && db'.nextHash == db.nextHash
    ensures SaltsMoveOn(db, db')
  {
  }

  // -- the guarantees ------------------------------------------------------------------------------

  /** Ended, or bound to a hash that never returns: nobody can spend it any more. */
  ghost predicate Dead(db: Db, s: Selector)
    requires s in db.links && db.links[s].user in db.accounts
  {
    !db.links[s].IsLive() || Superseded(db.links[s].stamp, db.accounts[db.links[s].user], db.nextHash)
  }

  /** Presenting a dead link does nothing at all. */
  lemma DeadLinkDoesNothing(db: Db, proof: Proof, ask: bool, text: Text, now: int)
    requires proof.selector in db.links && db.links[proof.selector].user in db.accounts && Dead(db, proof.selector)
    ensures Effect(db, SpendStep(proof, ask, text), now) == db
  {
  }

  /** Dead links stay dead. */
  lemma DeadStaysDead(db: Db, events: seq<Event>, s: Selector)
    requires s in db.links && db.links[s].user in db.accounts && Dead(db, s)
    ensures var d := Run(db, events); s in d.links && d.links[s].user in d.accounts && Dead(d, s)
  {
    RunsOnlyEndLinks(db, events);
    RunsMoveSaltsOn(db, events);
    assert Ends(db.links[s], Run(db, events).links[s]);
    assert Rehashed(db.accounts[db.links[s].user], Run(db, events).accounts[db.links[s].user], db.nextHash);
  }

  /** A link issued before its account's password, address or active flag moved - or before the password
      was merely hashed again - is dead once it has; and its row says so, unless that was all. */
  lemma MovedCredentialsEndLinks(db: Db, events: seq<Event>, s: Selector)
    requires WellFormed(db) && s in db.links
    requires var d := Run(db, events); var user := db.links[s].user;
             user in db.accounts && user in d.accounts ==> d.accounts[user].CredentialStamp() != db.accounts[user].CredentialStamp()
    ensures var d := Run(db, events); s in d.links && d.links[s].user in d.accounts && Dead(d, s)
    ensures var d := Run(db, events); var user := db.links[s].user;
            user in db.accounts && user in d.accounts
            && LoginOf(d.accounts[user].CredentialStamp()) != LoginOf(db.accounts[user].CredentialStamp())
            ==> !d.links[s].IsLive()
  {
    hide Run, Superseded;
    RunsStayWellFormed(db, events);
    RunsOnlyEndLinks(db, events);
    assert LinkOk(db, s) && LinkOk(Run(db, events), s);
    assert Ends(db.links[s], Run(db, events).links[s]);
    if Superseded(db.links[s].stamp, db.accounts[db.links[s].user], db.nextHash) {
      DeadStaysDead(db, events, s);
    }
  }

  /** No link outlives the credentials it was issued under. Whatever services run in whatever order -
      issuing, spending, mail jobs long delayed, administration, hash upgrades, an account switched off and
      back on so that its stamp returns - a link that existed before the credentials moved is never spent
      after. */
  lemma {:induction false} NoLinkOutlivesItsCredentials(db: Db, first: seq<Event>, moving: seq<Event>, later: seq<Event>,
                                                        s: Selector, proof: Proof, ask: bool, text: Text, now: int)
    requires WellFormed(db) && s in Run(db, first).links && proof.selector == s
    requires var d1 := Run(db, first); var d2 := Run(d1, moving); var user := d1.links[s].user;
             user in d1.accounts && user in d2.accounts
             ==> d1.accounts[user].CredentialStamp() != d2.accounts[user].CredentialStamp()
    ensures var d2 := Run(Run(db, first), moving); var d3 := Run(d2, later);
            && s in d2.links && s in d3.links
            && d3.links[s].used == d2.links[s].used
            && Effect(d3, SpendStep(proof, ask, text), now) == d3
  {
    hide Run, Effect, WellFormed, Superseded;
    var d1 := Run(db, first);
    var d2 := Run(d1, moving);
    RunsStayWellFormed(db, first);
    MovedCredentialsEndLinks(d1, moving, s);
    DeadStaysDead(d2, later, s);
    DeadLinkDoesNothing(Run(d2, later), proof, ask, text, now);
    DeadIsNeverUsed(d2, later, s);
  }

  /** A dead link is spent later only if it was spent before. */
  lemma {:induction false} DeadIsNeverUsed(db: Db, events: seq<Event>, s: Selector)
    requires s in db.links && db.links[s].user in db.accounts && Dead(db, s)
    ensures s in Run(db, events).links && Run(db, events).links[s].used == db.links[s].used
  {
    hide Effect, Dead;
    if events != [] {
      var n := |events| - 1;
      var before, e := Run(db, events[..n]), events[n];
      var now := before.clock + e.delay;
      DeadIsNeverUsed(db, events[..n], s);
      DeadStaysDead(db, events[..n], s);
      UseNeedsItsSpend(before, e.step, now, s);
    }
  }

  /** Only presenting a link that is not dead spends it. */
  lemma UseNeedsItsSpend(db: Db, step: Step, now: int, s: Selector)
    requires s in db.links && db.links[s].user in db.accounts && Dead(db, s)
    ensures s in Effect(db, step, now).links && Effect(db, step, now).links[s].used == db.links[s].used
  {
    hide Dead;
    if IsAdministration(step) {
      AdministrationEnds(db, step, now);
      AdministrationUsesNone(db, step, now);
    } else if step.SpendStep? {
      if step.proof.selector == s {
        DeadLinkDoesNothing(db, step.proof, step.ask, step.text, now);
      } else {
        SpendingUsesOne(db, step.proof, step.ask, step.text, now, s);
      }
    } else {
      OwnStepsEnd(db, step, now);
      OwnStepsUseNone(db, step, now);
    }
  }

  lemma SpendingUsesOne(db: Db, proof: Proof, ask: bool, text: Text, now: int, s: Selector)
    requires s in db.links && s != proof.selector
    ensures var db' := SpendLink(db, proof, ask, text, now); s in db'.links && db'.links[s].used == db.links[s].used
  {
  }

  ghost predicate UsesUnchanged(db: Db, db': Db) {
    forall s :: s in db.links && s in db'.links ==> db'.links[s].used == db.links[s].used
  }

  lemma AdministrationUsesNone(db: Db, step: Step, now: int)
    requires IsAdministration(step)
    ensures UsesUnchanged(db, Effect(db, step, now))
  {
  }

  lemma OwnStepsUseNone(db: Db, step: Step, now: int)
    requires !IsAdministration(step) && !step.SpendStep?
    ensures UsesUnchanged(db, Effect(db, step, now))
  {
  }

  /** What a link spent means: in the same transaction its holder's row gets a password hashed as none ever was,
      is active and activated, and ends its sessions; nothing else of any row moves, the holder has no live
      link left, and nobody else's is touched. */
  ghost predicate PasswordCame(db: Db, accounts: map<UserId, Account>, links: map<Selector, Link>, user: UserId, text: Text) {
    && user in db.accounts && user in accounts
    && accounts == db.accounts[user := db.accounts[user].(
         password := Some(Hash(text, db.nextHash)), passwordSet := true, state := Activated, active := true,
         epoch := db.accounts[user].epoch + 1)]
    && (forall id :: id in db.accounts && db.accounts[id].password.Some? ==> db.accounts[id].password.value.salt != db.nextHash)
    && links.Keys == db.links.Keys
    && (forall s :: s in links && links[s].user == user ==> links[s].used || links[s].invalidated)
    && (forall s :: s in links && db.links[s].user != user ==> links[s] == db.links[s])
  }

  lemma SpendingSetsPassword(db: Db, proof: Proof, ask: bool, text: Text, now: int, s: Selector)
    requires WellFormed(db) && s in db.links && !db.links[s].used
    requires SpendLink(db, proof, ask, text, now).links[s].used
    ensures proof.selector == s
    ensures var after := SpendLink(db, proof, ask, text, now); PasswordCame(db, after.accounts, after.links, db.links[s].user, text)
  {
    EarlyReturnUnreachable(db, proof, now);
    forall id | id in db.accounts && db.accounts[id].password.Some? ensures db.accounts[id].password.value.salt != db.nextHash {
      assert RowOk(db.accounts[id], db.nextHash);
    }
  }

  // -- what it takes to use a link ---------------------------------------------------------------

  /** The link itself, in hand and in time: its selector, the secret behind its digest, its purpose; neither
      used nor ended, and issued for the credentials its owner has now. */
  ghost predicate HeldInTime(db: Db, proof: Proof, s: Selector, now: int) {
    && s == proof.selector && s in db.links
    && var l := db.links[s];
       && l.digest == proof.digest && l.purpose == proof.purpose
       && !l.used && !l.invalidated && now < l.expiresAt
       && l.user in db.accounts
       && var a := db.accounts[l.user]; l.stamp == Stamp(a.password, a.upn, a.active)
  }

  /** Whose password a link of this purpose may set. */
  ghost predicate MaySet(config: Config, a: Account, purpose: Purpose) {
    && (a.synthetic ==> !config.realData)
    && (a.state == Activated ==> a.active)
    && a.state != Pending
    && (purpose == PasswordReset ==> a.state == Activated && a.passwordSet && a.password.Some?)
  }

  /** Who may set their own password by link behind the shared gate. */
  ghost predicate MayAdminister(config: Config, a: Account) {
    && (a.synthetic ==> !config.realData)
    && (a.state == Activated ==> a.active)
    && (Resolve(a.role, a.overrides, ManageAccounts) || (a.active && a.role == TechnicalAdministrator))
  }

  /** The form is shown exactly to whoever holds the link, in time, for somebody it may set a password of. */
  lemma ShownIff(db: Db, proof: Proof, now: int)
    requires proof.selector !in db.previewed
    ensures proof.selector in Effect(db, PreviewStep(proof), now).previewed
       <==> HeldInTime(db, proof, proof.selector, now)
            && MaySet(db.config, db.accounts[db.links[proof.selector].user], proof.purpose)
    ensures Effect(db, PreviewStep(proof), now).previewed <= db.previewed + {proof.selector}
  {
  }

  /** A link is spent exactly by whoever holds it, in time, after its form was shown - and who may administer,
      where that is asked. */
  lemma SpendsIff(db: Db, proof: Proof, ask: bool, text: Text, now: int)
    requires WellFormed(db) && proof.selector in db.links && !db.links[proof.selector].used
    ensures Effect(db, SpendStep(proof, ask, text), now).links[proof.selector].used
       <==> && proof.selector in db.previewed && HeldInTime(db, proof, proof.selector, now)
            && (ask ==> MayAdminister(db.config, db.accounts[db.links[proof.selector].user]))
  {
    hide WellFormed, PasswordWritten;
    if Opens(db, proof, now) && proof.selector in db.previewed {
      EarlyReturnUnreachable(db, proof, now);
      WritingKeepsUses(Consumed(db, proof.selector), db.links[proof.selector].user, text);
    }
  }

  /** A submitted form changes nothing but rows, links and the next salt; and not even those, unless it spends. */
  lemma SpendingIsAll(db: Db, proof: Proof, ask: bool, text: Text, now: int)
    requires WellFormed(db)
    ensures var after := Effect(db, SpendStep(proof, ask, text), now);
            after == db || after == db.(accounts := after.accounts, links := after.links, nextHash := db.nextHash + 1)
    ensures proof.selector in db.links && !db.links[proof.selector].used
            && !Effect(db, SpendStep(proof, ask, text), now).links[proof.selector].used
            ==> Effect(db, SpendStep(proof, ask, text), now) == db
  {
    hide WellFormed, PasswordWritten;
    if Opens(db, proof, now) && proof.selector in db.previewed {
      EarlyReturnUnreachable(db, proof, now);
      WritingIsAll(Consumed(db, proof.selector), db.links[proof.selector].user, text);
    }
  }

  lemma WritingIsAll(db: Db, user: UserId, text: Text)
    requires user in db.accounts
    ensures var after := PasswordWritten(db, user, text);
            after == db.(accounts := after.accounts, links := after.links, nextHash := db.nextHash + 1)
    ensures UsesUnchanged(db, PasswordWritten(db, user, text)) && PasswordWritten(db, user, text).links.Keys == db.links.Keys
  {
  }

  lemma WritingKeepsUses(db: Db, user: UserId, text: Text)
    requires user in db.accounts
    ensures UsesUnchanged(db, PasswordWritten(db, user, text)) && PasswordWritten(db, user, text).links.Keys == db.links.Keys
  {
  }

  /** Only a preview shows a form, and only to whoever holds the link. */
  lemma {:induction false} ShownByHolder(db: Db, e: Event, s: Selector)
    requires s in Apply(db, e).previewed && s !in db.previewed
    ensures e.step.PreviewStep? && HeldInTime(db, e.step.proof, s, db.clock + e.delay)
    ensures MaySet(db.config, db.accounts[db.links[s].user], e.step.proof.purpose)
  {
    hide SpendLink, ChangePassword, OperatorLinkIssued, Issue, Invalidate;
    var now := db.clock + e.delay;
    if IsAdministration(e.step) {
      AdministrationShowsNone(db, e.step, now);
    } else if e.step.PreviewStep? {
      ShownIff(db, e.step.proof, now);
    } else {
      OwnStepsShowNone(db, e.step, now);
    }
  }

  lemma AdministrationShowsNone(db: Db, step: Step, now: int)
    requires IsAdministration(step)
    ensures Effect(db, step, now).previewed == db.previewed
  {
    hide Begin, NeedsDelegate, Guards, SaveRefusal, AddressRefusal;
  }

  lemma OwnStepsShowNone(db: Db, step: Step, now: int)
    requires !IsAdministration(step) && !step.PreviewStep?
    ensures Effect(db, step, now).previewed == db.previewed
  {
  }

  /** A link row turns to used only in the step that presented that link, by whoever holds it, in time, and then
      its holder's row has the password typed into that step's form. */
  lemma {:induction false} SpentIsPasswordSet(db: Db, e: Event, s: Selector)
    requires WellFormed(db) && s in db.links && !db.links[s].used
    requires s in Apply(db, e).links && Apply(db, e).links[s].used
    ensures e.step.SpendStep? && s in db.previewed && HeldInTime(db, e.step.proof, s, db.clock + e.delay)
    ensures PasswordCame(db, Apply(db, e).accounts, Apply(db, e).links, db.links[s].user, e.step.text)
  {
    hide SpendLink, WellFormed, PasswordCame, HeldInTime;
    var now := db.clock + e.delay;
    if IsAdministration(e.step) {
      AdministrationUsesNone(db, e.step, now);
    } else if e.step.SpendStep? {
      SpendingSetsPassword(db, e.step.proof, e.step.ask, e.step.text, now, s);
      SpendsIff(db, e.step.proof, e.step.ask, e.step.text, now);
    } else {
      OwnStepsUseNone(db, e.step, now);
    }
  }

  // -- where links come from -----------------------------------------------------------------------

  /** Bound to what its owner signs in with now, for the purpose and the time it was drawn for, and the only live
      one of its kind. */
  ghost predicate IsFreshLink(accounts: map<UserId, Account>, links: map<Selector, Link>, s: Selector, user: UserId,
                              purpose: Purpose, draw: Draw, now: int)
  {
    && s == draw.selector && s in links && user in accounts
    && links[s] == Link(user, purpose, draw.digest, Stamp(accounts[user].password, accounts[user].upn, accounts[user].active),
                        now + draw.lifetime, false, false)
    && forall t :: t in links && t != s && links[t].user == user && links[t].purpose == purpose ==>
         links[t].used || links[t].invalidated
  }

  /** Who asked for the link, and whom it was for. */
  ghost predicate AskedFor(db: Db, step: Step) {
    && (step.SetupStep? || step.OperatorLinkStep? || step.MailJobStep?) && step.user in db.accounts
    && var a := db.accounts[step.user];
       && (a.state == Activated ==> a.active)
       && (step.MailJobStep? ==>
             && a.state == Activated && a.passwordSet && a.password.Some? && (a.synthetic ==> !db.config.realData)
             && step.stamp == Stamp(a.password, a.upn, a.active))
       && (step.OperatorLinkStep? ==> MayAdminister(db.config, a) && (a.state == Pending ==> a.approved))
  }

  ghost predicate BornOf(db: Db, db': Db, step: Step, s: Selector, now: int)
    requires AskedFor(db, step)
  {
    var a := db.accounts[step.user];
    var purpose := if step.MailJobStep? || (a.state == Activated && a.passwordSet && a.password.Some?) then PasswordReset else Activation;
    IsFreshLink(db'.accounts, db'.links, s, step.user, purpose, step.draw, now)
  }

  lemma SetupBears(db: Db, step: Step, s: Selector, now: int)
    requires step.SetupStep? && s in Effect(db, step, now).links && s !in db.links
    ensures AskedFor(db, step) && BornOf(db, Effect(db, step, now), step, s, now)
  {
    hide Begin, NeedsDelegate;
  }

  lemma OperatorBears(db: Db, step: Step, s: Selector, now: int)
    requires step.OperatorLinkStep? && s in Effect(db, step, now).links && s !in db.links
    ensures AskedFor(db, step) && BornOf(db, Effect(db, step, now), step, s, now)
  {
  }

  lemma MailJobBears(db: Db, step: Step, s: Selector, now: int)
    requires step.MailJobStep? && s in Effect(db, step, now).links && s !in db.links
    ensures AskedFor(db, step) && BornOf(db, Effect(db, step, now), step, s, now)
  {
  }

  /** A new link is one that administration, the operator or an eligible owner's own request asked for. */
  lemma {:induction false} LinksAreAskedFor(db: Db, e: Event, s: Selector)
    requires s in Apply(db, e).links && s !in db.links
    ensures AskedFor(db, e.step) && BornOf(db, Apply(db, e), e.step, s, db.clock + e.delay)
  {
    hide Effect, AskedFor, IsFreshLink;
    var now := db.clock + e.delay;
    if e.step.SetupStep? {
      SetupBears(db, e.step, s, now);
    } else if e.step.OperatorLinkStep? {
      OperatorBears(db, e.step, s, now);
    } else if e.step.MailJobStep? {
      MailJobBears(db, e.step, s, now);
    } else if IsAdministration(e.step) {
      AdministrationIssuesNone(db, e.step, now);
    } else {
      OwnStepsIssueNone(db, e.step, now);
    }
  }

  /** A new link ends the live ones of its holder and its purpose, and no other link. */
  lemma {:induction false} NewLinkEndsItsKind(db: Db, e: Event, s: Selector, older: Selector)
    requires s in Apply(db, e).links && s !in db.links && older in db.links
    ensures older in Apply(db, e).links
    ensures var l, born := db.links[older], Apply(db, e).links[s];
            Apply(db, e).links[older]
              == if l.user == born.user && l.purpose == born.purpose && !l.used && !l.invalidated
                 then l.(invalidated := true) else l
  {
    hide Effect;
    var now := db.clock + e.delay;
    if e.step.SetupStep? || e.step.OperatorLinkStep? || e.step.MailJobStep? {
      IssuedEndsItsKind(db, e.step, s, older, now);
    } else if IsAdministration(e.step) {
      AdministrationIssuesNone(db, e.step, now);
    } else {
      OwnStepsIssueNone(db, e.step, now);
    }
  }

  lemma IssuedEndsItsKind(db: Db, step: Step, s: Selector, older: Selector, now: int)
    requires step.SetupStep? || step.OperatorLinkStep? || step.MailJobStep?
    requires s in Effect(db, step, now).links && s !in db.links && older in db.links
    ensures older in Effect(db, step, now).links
    ensures var l, born := db.links[older], Effect(db, step, now).links[s];
            Effect(db, step, now).links[older]
              == if l.user == born.user && l.purpose == born.purpose && !l.used && !l.invalidated
                 then l.(invalidated := true) else l
  {
    hide Begin, NeedsDelegate;
  }

  lemma AdministrationIssuesNone(db: Db, step: Step, now: int)
    requires IsAdministration(step) && !step.SetupStep?
    ensures Effect(db, step, now).links.Keys == db.links.Keys
  {
    hide Begin, NeedsDelegate, Guards, SaveRefusal, AddressRefusal, Outstanding;
  }

  lemma OwnStepsIssueNone(db: Db, step: Step, now: int)
    requires !IsAdministration(step) && !step.OperatorLinkStep? && !step.MailJobStep?
    ensures Effect(db, step, now).links.Keys == db.links.Keys
  {
    hide Outstanding, HolderMay, MayReceiveAdministratorLink;
  }

  /** The mail job sends a link exactly when its account is still eligible and signs in with what it did when
      the job was queued. */
  lemma MailJobIssuesIff(db: Db, user: UserId, stamp: Stamp, draw: Draw, now: int)
    requires draw.selector !in db.links
    ensures draw.selector in Effect(db, MailJobStep(user, stamp, draw), now).links
       <==> user in db.accounts
            && var a := db.accounts[user];
               && a.state == Activated && a.active && a.passwordSet && a.password.Some? && (a.synthetic ==> !db.config.realData)
               && stamp == Stamp(a.password, a.upn, a.active)
    ensures var after := Effect(db, MailJobStep(user, stamp, draw), now); after == db.(links := after.links)
  {
  }

  /** An operator's link goes out exactly to somebody who may administer, approved if still pending - and then
      invited. */
  lemma OperatorLinkIff(db: Db, user: UserId, draw: Draw, now: int)
    requires draw.selector !in db.links
    ensures draw.selector in Effect(db, OperatorLinkStep(user, draw), now).links
       <==> db.config.mode != OtherMode && user in db.accounts
            && var a := db.accounts[user]; MayAdminister(db.config, a) && (a.state == Pending ==> a.approved)
    ensures var after := Effect(db, OperatorLinkStep(user, draw), now);
            if draw.selector in after.links then
              var a := db.accounts[user];
              after == db.(links := after.links, accounts := db.accounts[user :=
                         a.(state := if a.state == Pending then Invited else a.state)])
            else after == db
  {
  }

  /** Single use: once spent, a link is spent, and presenting it again at any later time does nothing. */
  lemma {:induction false} SpentOnce(db: Db, later: seq<Event>, proof: Proof, ask: bool, text: Text, now: int)
    requires proof.selector in db.links && db.links[proof.selector].user in db.accounts && db.links[proof.selector].used
    ensures Effect(Run(db, later), SpendStep(proof, ask, text), now) == Run(db, later)
  {
    hide Run, Effect, Superseded;
    DeadStaysDead(db, later, proof.selector);
    DeadLinkDoesNothing(Run(db, later), proof, ask, text, now);
  }
}
