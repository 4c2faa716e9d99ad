/** Which codes a second factor accepts, over whole runs and in both directions. */
module SecondFactorLaws {
  import opened Outcomes
  import opened SecondFactor

  // -- what was typed --------------------------------------------------------------------------

  lemma {:induction false} DigitsConcat(a: string, b: string)
    ensures DigitsOnly(a + b) == DigitsOnly(a) + DigitsOnly(b)
  {
    if b == "" {
      assert a + b == a;
    } else {
      var n := |b| - 1;
      DigitsConcat(a, b[..n]);
      assert (a + b)[..|a + b| - 1] == a + b[..n];
    }
  }

  /** Spaces, dashes and anything else that is no digit may stand anywhere in a code. */
  lemma OtherCharactersDoNotMatter(a: string, c: char, b: string)
    requires c !in "0123456789"
    ensures DigitsOnly(a + [c] + b) == DigitsOnly(a + b)
  {
    DigitsConcat(a, b);
    DigitsConcat(a, [c]);
    DigitsConcat(a + [c], b);
    assert "0123456789" == ['0', '1', '2', '3', '4', '5', '6', '7', '8', '9'];
    assert '0' <= c <= '9' ==> c in "0123456789";
  }

  /** A code of digits is read as it stands. */
  lemma {:induction false} DigitsStand(code: string)
    requires forall i :: 0 <= i < |code| ==> code[i] in "0123456789"
    ensures DigitsOnly(code) == code
  {
    if code != "" {
      DigitsStand(code[..|code| - 1]);
      assert code[|code| - 1] in "0123456789";
      assert code == code[..|code| - 1] + [code[|code| - 1]];
    }
  }

  lemma {:induction false} CanonicalConcat(a: string, b: string)
    ensures Canonical(a + b) == Canonical(a) + Canonical(b)
  {
    if b == "" {
      assert a + b == a;
    } else {
      var n := |b| - 1;
      CanonicalConcat(a, b[..n]);
      assert (a + b)[..|a + b| - 1] == a + b[..n];
    }
  }

  lemma {:induction false} LettersStand(code: string)
    requires forall i :: 0 <= i < |code| ==> code[i] in RECOVERY_ALPHABET
    ensures Canonical(code) == code
  {
    hide RECOVERY_ALPHABET;
    if code != "" {
      LettersStand(code[..|code| - 1]);
      assert code == code[..|code| - 1] + [code[|code| - 1]];
    }
  }

  lemma DashDoesNotMatter(a: string, b: string)
    ensures Canonical(a + "-" + b) == Canonical(a) + Canonical(b)
  {
    hide Canonical;
    CanonicalConcat(a + "-", b);
    CanonicalConcat(a, "-");
    DashIsNothing();
  }

  lemma DashIsNothing()
    ensures Canonical("-") == ""
  {
    assert Canonical("") == "" && "-"[..0] == "";
  }

  /** A recovery code reads back as it was made, with the dashes it is shown with or without. */
  lemma RecoveryCodeReadsBack(a: string, b: string, c: string)
    requires forall i :: 0 <= i < |a + b + c| ==> (a + b + c)[i] in RECOVERY_ALPHABET
    ensures Canonical(a + "-" + b + "-" + c) == Canonical(a + b + c) == a + b + c
  {
    hide Canonical, RECOVERY_ALPHABET;
    LettersStand(a + b + c);
    CanonicalConcat(a + b, c);
    CanonicalConcat(a, b);
    DashDoesNotMatter(a + "-" + b, c);
    DashDoesNotMatter(a, b);
  }

  // -- a right code ------------------------------------------------------------------------------

  /** The 30 seconds of the step, those before them and those after them. */
  ghost predicate IsTimely(now: int, step: int) { 30 * (step - 1) <= now < 30 * (step + 2) }

  /** What was typed spells the secret's six digits for the step. */
  ghost predicate IsRight(otp: Otp, secret: Secret, step: int, code: string) {
    DigitsOnly(code) == otp(secret, step) && |otp(secret, step)| == 6
  }

  /** The account's present enrolment was accepted for no step so late. */
  ghost predicate IsUnspent(s: State, step: int) {
    forall a :: a in s.log && a.enrolment == s.enrolments ==> a.step < step
  }

  lemma TimelyIff(now: int, step: int)
    ensures IsTimely(now, step) <==> Timecode(now) - 1 <= step <= Timecode(now) + 1
  {
  }

  lemma AcceptableIff(otp: Otp, secret: Secret, code: string, now: int, after: int, step: int)
    ensures Acceptable(otp, secret, code, now, after, step) <==>
              IsTimely(now, step) && IsRight(otp, secret, step, code) && step > after
  {
    TimelyIff(now, step);
  }

  lemma EarliestIff(otp: Otp, secret: Secret, code: string, now: int, after: int)
    ensures var r := MatchingStep(otp, secret, code, now, after);
            && (r.Some? <==> exists step :: IsTimely(now, step) && IsRight(otp, secret, step, code) && step > after)
            && (r.Some? ==> IsTimely(now, r.value) && IsRight(otp, secret, r.value, code) && r.value > after)
            && (r.Some? ==> forall step :: IsTimely(now, step) && IsRight(otp, secret, step, code) && step > after ==> r.value <= step)
  {
    forall step
      ensures Acceptable(otp, secret, code, now, after, step) <==>
                IsTimely(now, step) && IsRight(otp, secret, step, code) && step > after
    {
      AcceptableIff(otp, secret, code, now, after, step);
    }
    hide MatchingStep, Acceptable, IsTimely, IsRight;
    var r := MatchingStep(otp, secret, code, now, after);
    if r.Some? {
      assert Acceptable(otp, secret, code, now, after, r.value);
    }
  }

  /** The device remembers the step its enrolment was last accepted for. */
  ghost predicate RemembersItsLast(s: State) {
    s.device.Some? ==>
      && (exists a :: a in s.log && a.enrolment == s.enrolments && a.step == s.device.value.lastUsedStep)
      && (forall a :: a in s.log && a.enrolment == s.enrolments ==>
            a.step <= s.device.value.lastUsedStep && a.secret == s.device.value.secret)
  }

  lemma AcceptedIsLast(s: State, a: Accepted)
    requires forall e :: e in s.log && e.enrolment == a.enrolment ==> e.step <= a.step && e.secret == a.secret
    ensures RemembersItsLast(State(Some(Device(a.secret, a.step)), a.enrolment, s.log + [a]))
  {
    var s' := State(Some(Device(a.secret, a.step)), a.enrolment, s.log + [a]);
    assert s'.log[|s.log|] == a;
    assert a in s'.log;
  }

  lemma {:induction false} RunsRemember(otp: Otp, uses: seq<Use>)
    ensures RemembersItsLast(Run(otp, uses))
    ensures forall a :: a in Run(otp, uses).log ==> a.enrolment <= Run(otp, uses).enrolments
  {
    if uses != [] {
      hide RemembersItsLast, MatchingStep;
      var n := |uses| - 1;
      RunsRemember(otp, uses[..n]);
      UseRemembers(otp, Run(otp, uses[..n]), uses[n]);
    }
  }

  lemma UseRemembers(otp: Otp, s: State, u: Use)
    requires RemembersItsLast(s) && forall a :: a in s.log ==> a.enrolment <= s.enrolments
    ensures RemembersItsLast(Used(otp, s, u))
    ensures forall a :: a in Used(otp, s, u).log ==> a.enrolment <= Used(otp, s, u).enrolments
  {
    hide MatchingStep;
    match u
    case Verify(readable, code, now) =>
      var step := VerifyStep(otp, s.device, readable, code, now);
      if step.Some? {
        EarliestIff(otp, s.device.value.secret, code, now, s.device.value.lastUsedStep);
        AcceptedIsLast(s, Accepted(s.enrolments, s.device.value.secret, step.value, now));
      }
    case Enrol(unsealed, code, now) =>
      var step := EnrolStep(otp, unsealed, code, now);
      if step.Some? {
        AcceptedIsLast(s, Accepted(s.enrolments + 1, unsealed.value, step.value, now));
      }
    case Remove =>
  }

  // -- both directions --------------------------------------------------------------------------

  /** `more` is one accepted code longer: the earliest of the steps it could be for. */
  ghost predicate Accepts(otp: Otp, s: State, more: State, secret: Secret, enrolment: nat, code: string, now: int, past: int -> bool) {
    exists step ::
      && IsTimely(now, step) && IsRight(otp, secret, step, code) && past(step)
      && (forall earlier :: IsTimely(now, earlier) && IsRight(otp, secret, earlier, code) && past(earlier) ==> step <= earlier)
      && more == State(Some(Device(secret, step)), enrolment, s.log + [Accepted(enrolment, secret, step, now)])
  }

  ghost function Unspent(s: State): int -> bool {
    (step: int) => IsUnspent(s, step)
  }

  function PastZero(): int -> bool {
    (step: int) => step > 0
  }

  /** In any history, a code typed at sign-in is accepted exactly when the secret can be read and the code is the
      enrolled secret's for a neighbouring step later than every one this enrolment was accepted for. It is spent
      on the earliest of these; otherwise nothing changes. */
  lemma {:induction false} SignInAcceptsIff(otp: Otp, uses: seq<Use>, readable: bool, code: string, now: int)
    ensures var s, more := Run(otp, uses), Run(otp, uses + [Verify(readable, code, now)]);
            if s.device.Some? && readable
               && exists step :: IsTimely(now, step) && IsRight(otp, s.device.value.secret, step, code) && IsUnspent(s, step)
            then Accepts(otp, s, more, s.device.value.secret, s.enrolments, code, now, Unspent(s))
            else more == s
  {
    var s := Run(otp, uses);
    RunGrows(otp, uses, Verify(readable, code, now));
    RunsRemember(otp, uses);
    if s.device.Some? {
      var last := s.device.value.lastUsedStep;
      forall step ensures IsUnspent(s, step) <==> step > last { UnspentIff(s, step); }
      hide MatchingStep, IsUnspent, RemembersItsLast, IsTimely, IsRight;
      EarliestIff(otp, s.device.value.secret, code, now, last);
    }
  }

  lemma UnspentIff(s: State, step: int)
    requires s.device.Some? && RemembersItsLast(s)
    ensures IsUnspent(s, step) <==> step > s.device.value.lastUsedStep
  {
  }

  /** In any history, an enrolment is accepted exactly when the secret can be read and the code is its own for a
      neighbouring step; it replaces the device, and nothing typed before counts against it. */
  lemma {:induction false} EnrolmentAcceptsIff(otp: Otp, uses: seq<Use>, unsealed: Option<Secret>, code: string, now: int)
    ensures var s, more := Run(otp, uses), Run(otp, uses + [Enrol(unsealed, code, now)]);
            if unsealed.Some? && exists step :: IsTimely(now, step) && IsRight(otp, unsealed.value, step, code) && step > 0
            then Accepts(otp, s, more, unsealed.value, s.enrolments + 1, code, now, PastZero())
            else more == s
  {
    RunGrows(otp, uses, Enrol(unsealed, code, now));
    hide MatchingStep, IsTimely, IsRight;
    if unsealed.Some? { EarliestIff(otp, unsealed.value, code, now, 0); }
  }

  lemma RunGrows(otp: Otp, uses: seq<Use>, u: Use)
    ensures Run(otp, uses + [u]) == Used(otp, Run(otp, uses), u)
  {
    assert (uses + [u])[..|uses|] == uses;
  }

  /** Use `k` enrolled a device, and nothing since removed it. */
  ghost predicate EnrolledAt(otp: Otp, uses: seq<Use>, k: nat) {
    && k < |uses|
    && Run(otp, uses[..k + 1]).enrolments > Run(otp, uses[..k]).enrolments
    && forall l :: k < l < |uses| ==> uses[l] != Remove
  }

  lemma EnrolledLater(otp: Otp, uses: seq<Use>, k: nat)
    requires k < |uses| - 1
    ensures EnrolledAt(otp, uses, k) <==> EnrolledAt(otp, uses[..|uses| - 1], k) && uses[|uses| - 1] != Remove
  {
    var n := |uses| - 1;
    assert uses[..n][..k] == uses[..k] && uses[..n][..k + 1] == uses[..k + 1];
    assert forall l :: k < l < n ==> uses[..n][l] == uses[l];
  }

  /** The account has a device exactly when it enrolled since the factor was last removed. */
  lemma {:induction false} EnrolledIff(otp: Otp, uses: seq<Use>)
    ensures Run(otp, uses).device.Some? <==> exists k :: EnrolledAt(otp, uses, k)
  {
    if uses != [] {
      var n := |uses| - 1;
      var s := Run(otp, uses[..n]);
      EnrolledIff(otp, uses[..n]);
      assert uses[..n + 1] == uses && Run(otp, uses) == Used(otp, s, uses[n]);
      hide Run, MatchingStep;
      assert EnrolledAt(otp, uses, n) <==> Run(otp, uses).enrolments > s.enrolments;
      forall k: nat | k < n
        ensures EnrolledAt(otp, uses, k) <==> EnrolledAt(otp, uses[..n], k) && uses[n] != Remove
      {
        EnrolledLater(otp, uses, k);
      }
      assert (exists k :: EnrolledAt(otp, uses, k))
        <==> EnrolledAt(otp, uses, n) || exists k: nat :: k < n && EnrolledAt(otp, uses, k);
      hide EnrolledAt;
    }
  }
}
