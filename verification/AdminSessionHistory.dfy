/** Where a browser's history comes from: every proof in it was given, by what was typed at that moment. */
module AdminSessionHistory {
  import opened Outcomes
  import opened Accounts
  import opened GateSession
  import opened AdminSession

  /** The world as moment `k` of a run finds it. */
  function Before(w: World, moments: seq<Moment>, k: nat): World
    requires k < |moments|
  {
    Later(After(w, moments[..k]), moments[k].delay)
  }

  // -- what counts as giving a proof ---------------------------------------------------------------

  /** The password configured then was typed at the gate, with no lockout in force. */
  ghost predicate TypedAtGate(v: World, h: Happening, e: Entry) {
    && h.TypeGate? && !h.locked
    && e == GateTyped(v.scene.db.clock, h.supplied) && v.scene.door.configured == Some(h.supplied)
  }

  /** The text of that account's password was typed, with no lockout in force: signing in, or proving again who
      the session already was. */
  ghost predicate TypedPassword(v: World, h: Happening, e: Entry) {
    && e.PasswordProved? && e.at == v.scene.db.clock && e.gate == v.session.gate.passedAt
    && (h.TypePassword? || h.Reprove?) && !h.locked
    && e.user in v.scene.db.accounts
    && var stored := v.scene.db.accounts[e.user].password;
       && stored.Some? && stored.value.text == h.supplied
       && (h.TypePassword? ==> h.user == e.user)
       && (h.Reprove? ==> v.session.state.Some? && v.session.state.value.user == e.user)
  }

  /** A right code, with no lockout in force: from the authenticator of whoever's password is waiting, from the
      one they are setting up, or from whoever the session already was. */
  ghost predicate TypedCode(v: World, h: Happening, e: Entry) {
    && e.CodeProved? && e.at == v.scene.db.clock && e.gate == v.session.gate.passedAt
    && (h.TypeCode? || h.TypeEnrolment? || h.Reprove?) && h.right && !h.locked
    && e.user in v.scene.db.accounts
    && (h.TypeCode? || h.TypeEnrolment? ==> v.session.pending.Some? && v.session.pending.value.user == e.user)
    && (h.TypeCode? ==> v.scene.db.accounts[e.user].device.Some?)
    && (h.TypeEnrolment? ==> v.scene.db.accounts[e.user].device.None? && v.session.sealedEnrolment)
    && (h.Reprove? ==> v.session.state.Some? && v.session.state.value.user == e.user)
  }

  ghost predicate Gave(v: World, h: Happening, e: Entry) {
    TypedAtGate(v, h, e) || TypedPassword(v, h, e) || TypedCode(v, h, e)
  }

  // -- one happening ------------------------------------------------------------------------------------

  /** Only these happenings write history. */
  lemma OthersWriteNothing(v: World, h: Happening)
    requires !h.TypeGate? && !h.TypePassword? && !h.TypeCode? && !h.TypeEnrolment? && !h.Reprove?
    ensures AdminSession.Effect(v, h).log == v.log
  {
  }

  lemma GateGives(v: World, h: Happening, e: Entry)
    requires h.TypeGate? && e in AdminSession.Effect(v, h).log && e !in v.log
    ensures TypedAtGate(v, h, e)
  {
  }

  lemma PasswordGives(v: World, h: Happening, e: Entry)
    requires h.TypePassword? && e in AdminSession.Effect(v, h).log && e !in v.log
    ensures TypedPassword(v, h, e)
  {
    hide HasPassed, Eligible;
  }

  lemma CodeGives(v: World, h: Happening, e: Entry)
    requires h.TypeCode? && e in AdminSession.Effect(v, h).log && e !in v.log && !e.Bound?
    ensures TypedCode(v, h, e)
  {
    hide HasPassed, Run;
  }

  lemma EnrolmentGives(v: World, h: Happening, e: Entry)
    requires h.TypeEnrolment? && e in AdminSession.Effect(v, h).log && e !in v.log && !e.Bound?
    ensures TypedCode(v, h, e)
  {
    hide HasPassed, Run;
  }

  lemma ReproofGives(v: World, h: Happening, e: Entry)
    requires h.Reprove? && e in AdminSession.Effect(v, h).log && e !in v.log && !e.Bound?
    ensures TypedPassword(v, h, e) || TypedCode(v, h, e)
  {
    hide HasPassed, Run, Eligible;
  }

  lemma StepGives(v: World, h: Happening, e: Entry)
    requires e in AdminSession.Effect(v, h).log && e !in v.log && !e.Bound?
    ensures Gave(v, h, e)
  {
    hide AdminSession.Effect, TypedAtGate, TypedPassword, TypedCode;
    if h.TypeGate? {
      GateGives(v, h, e);
    } else if h.TypePassword? {
      PasswordGives(v, h, e);
    } else if h.TypeCode? {
      CodeGives(v, h, e);
    } else if h.TypeEnrolment? {
      EnrolmentGives(v, h, e);
    } else if h.Reprove? {
      ReproofGives(v, h, e);
    } else {
      OthersWriteNothing(v, h);
    }
  }

  // -- whole runs -----------------------------------------------------------------------------------------

  /** Some moment of the run gave this proof. */
  ghost predicate WasGiven(w: World, moments: seq<Moment>, e: Entry) {
    exists k :: 0 <= k < |moments| && Gave(Before(w, moments, k), moments[k].what, e)
  }

  lemma GivenBefore(w: World, moments: seq<Moment>, e: Entry)
    requires moments != [] && WasGiven(w, moments[..|moments| - 1], e)
    ensures WasGiven(w, moments, e)
  {
    hide Gave, After;
    var n := |moments| - 1;
    var k :| 0 <= k < n && Gave(Before(w, moments[..n], k), moments[..n][k].what, e);
    assert moments[..n][..k] == moments[..k] && moments[..n][k] == moments[k];
    assert Before(w, moments, k) == Before(w, moments[..n], k);
  }

  /** Nothing is in a history but what was given: every gate password, every personal password and every code
      in it was typed, rightly and with no lockout in force, at a moment of the run. */
  lemma {:induction false} EveryProofWasGiven(w: World, moments: seq<Moment>, e: Entry)
    requires w.log == [] && e in After(w, moments).log && !e.Bound?
    ensures WasGiven(w, moments, e)
  {
    hide AdminSession.Effect, Gave;
    var n := |moments| - 1;
    assert moments != [];
    var before := After(w, moments[..n]);
    if e in before.log {
      EveryProofWasGiven(w, moments[..n], e);
      GivenBefore(w, moments, e);
    } else {
      StepGives(Later(before, moments[n].delay), moments[n].what, e);
      assert Gave(Before(w, moments, n), moments[n].what, e);
    }
  }

  // -- what opens nothing -------------------------------------------------------------------------------

  /** Typing anything wrong, or while locked out, verifies nobody: afterwards nobody is verified who would not have
      been had nothing been typed. */
  lemma {:induction false} WrongCodeOpensNothing(w: World, h: Happening)
    requires h.TypeCode? || h.TypeEnrolment? || h.Reprove?
    requires !h.right || h.locked
    ensures var v := AdminSession.Effect(w, h);
            && v.session.state in {None, w.session.state}
            && Principal(v.session, v.scene) in {None, Principal(w.session, v.scene)}
  {
    hide Run, HasPassed, Eligible;
  }

  /** With nobody else at work, nobody verified before means nobody verified after. */
  lemma WrongCodeLeavesNobody(w: World, h: Happening)
    requires h.TypeCode? || h.TypeEnrolment? || h.Reprove?
    requires (!h.right || h.locked) && h.meanwhile == [] && (h.TypeEnrolment? ==> h.after == [])
    requires Principal(w.session, w.scene) == None
    ensures var v := AdminSession.Effect(w, h); Principal(v.session, v.scene) == None
  {
    hide HasPassed, Eligible;
  }

  /** A wrong password proves nothing and leaves no marker. */
  lemma WrongPasswordWaitsForNothing(w: World, h: Happening)
    requires h.TypePassword?
    requires h.locked || !(h.user in w.scene.db.accounts && TextOf(w.scene.db.accounts[h.user].password) == Some(h.supplied))
    ensures AdminSession.Effect(w, h) == w
  {
    hide HasPassed, Eligible;
  }
}
