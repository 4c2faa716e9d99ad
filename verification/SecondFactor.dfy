/** `mfa.py`: time-based codes that are never accepted twice, and single-use recovery codes.

The one-time-password algorithm itself is the function `otp`; nothing about it
is assumed, so two steps may well share a code. Times are whole seconds. */
module SecondFactor {
  import opened Outcomes

  const DIGITS := 6
  const INTERVAL := 30
  const TOLERANCE_STEPS := 1

  type Secret = string
  type Otp = (Secret, int) -> string

  function DigitsOnly(code: string): string {
    if code == "" then ""
    else
      var rest, last := DigitsOnly(code[..|code| - 1]), code[|code| - 1];
      if '0' <= last <= '9' then rest + [last] else rest
  }

  function Timecode(now: int): int { now / INTERVAL }

  /** `step` is one `code` may be accepted for at `now`: a neighbour of the current step, later than
      the last one used, whose code this is. */
  predicate Acceptable(otp: Otp, secret: Secret, code: string, now: int, afterStep: int, step: int) {
    && |DigitsOnly(code)| == DIGITS
    && Timecode(now) - TOLERANCE_STEPS <= step <= Timecode(now) + TOLERANCE_STEPS
    && step > afterStep
    && otp(secret, step) == DigitsOnly(code)
  }

  /** The earliest acceptable step, if there is one. */
  function MatchingStep(otp: Otp, secret: Secret, code: string, now: int, afterStep: int): (r: Option<int>)
    ensures r.Some? ==> Acceptable(otp, secret, code, now, afterStep, r.value)
    ensures r.Some? ==> forall s :: s < r.value ==> !Acceptable(otp, secret, code, now, afterStep, s)
    ensures r.None? ==> forall s :: !Acceptable(otp, secret, code, now, afterStep, s)
  {
    var current := Timecode(now);
    if Acceptable(otp, secret, code, now, afterStep, current - 1) then Some(current - 1)
    else if Acceptable(otp, secret, code, now, afterStep, current) then Some(current)
    else if Acceptable(otp, secret, code, now, afterStep, current + 1) then Some(current + 1)
    else None
  }

  /** The source's loop: every neighbour is compared, and the first that matches is kept. */
  method FindStep(otp: Otp, secret: Secret, code: string, now: int, afterStep: int) returns (matched: Option<int>)
    ensures matched == MatchingStep(otp, secret, code, now, afterStep)
  {
    var cleaned := DigitsOnly(code);
    matched := None;
    if |cleaned| != DIGITS { return; }
    var current := Timecode(now);
    for offset := -TOLERANCE_STEPS to TOLERANCE_STEPS + 1
      invariant matched.None? ==> forall s :: s < current + offset ==> !Acceptable(otp, secret, code, now, afterStep, s)
      invariant matched.Some? ==> matched == MatchingStep(otp, secret, code, now, afterStep)
    {
      var step := current + offset;
      if otp(secret, step) == cleaned && step > afterStep && matched == None {
        matched := Some(step);
      }
    }
  }

  // -- the device ------------------------------------------------------------------------------

  /** A confirmed authenticator. */
  datatype Device = Device(secret: Secret, lastUsedStep: int)

  /** The step a code is accepted for. `readable` says whether the current key opens the secret. */
  function VerifyStep(otp: Otp, device: Option<Device>, readable: bool, code: string, now: int): Option<int> {
    if device.None? || !readable then None
    else MatchingStep(otp, device.value.secret, code, now, device.value.lastUsedStep)
  }

  function EnrolStep(otp: Otp, unsealed: Option<Secret>, code: string, now: int): Option<int> {
    if unsealed.None? then None else MatchingStep(otp, unsealed.value, code, now, 0)
  }

  class Authenticator {
    var device: Option<Device>

    constructor ()
      ensures device == None
    {
      device := None;
    }

    method VerifyTotp(otp: Otp, readable: bool, code: string, now: int) returns (accepted: bool)
      modifies this
      ensures var step := VerifyStep(otp, old(device), readable, code, now);
              && (accepted <==> step.Some?)
              && (step.None? ==> device == old(device))
              && (step.Some? ==> device == Some(old(device).value.(lastUsedStep := step.value)))
    {
      if device.None? || !readable { return false; }
      var step := FindStep(otp, device.value.secret, code, now, device.value.lastUsedStep);
      if step.None? { return false; }
      device := Some(device.value.(lastUsedStep := step.value));
      accepted := true;
    }

    method ConfirmEnrolment(otp: Otp, unsealed: Option<Secret>, code: string, now: int) returns (accepted: bool)
      modifies this
      ensures var step := EnrolStep(otp, unsealed, code, now);
              && (accepted <==> step.Some?)
              && (step.None? ==> device == old(device))
              && (step.Some? ==> device == Some(Device(unsealed.value, step.value)))
    {
      if unsealed.None? { return false; }
      var step := FindStep(otp, unsealed.value, code, now, 0);
      if step.None? { return false; }
      device := Some(Device(unsealed.value, step.value));
      accepted := true;
    }

    method Remove()
      modifies this
      ensures device == None
    {
      device := None;
    }
  }

  // -- whole runs --------------------------------------------------------------------------------

  datatype Use =
    | Verify(readable: bool, code: string, now: int)
    | Enrol(unsealed: Option<Secret>, code: string, now: int)
    | Remove

  /** An accepted code: on which enrolment of the account, for which secret and step, and when. */
  datatype Accepted = Accepted(enrolment: nat, secret: Secret, step: int, when: int)

  datatype State = State(device: Option<Device>, enrolments: nat, log: seq<Accepted>)

  const START := State(None, 0, [])

  function Used(otp: Otp, s: State, u: Use): State {
    match u
    case Verify(readable, code, now) =>
      var step := VerifyStep(otp, s.device, readable, code, now);
      if step.None? then s
      else State(Some(s.device.value.(lastUsedStep := step.value)), s.enrolments,
                 s.log + [Accepted(s.enrolments, s.device.value.secret, step.value, now)])
    case Enrol(unsealed, code, now) =>
      var step := EnrolStep(otp, unsealed, code, now);
      if step.None? then s
      else State(Some(Device(unsealed.value, step.value)), s.enrolments + 1,
                 s.log + [Accepted(s.enrolments + 1, unsealed.value, step.value, now)])
    case Remove => s.(device := None)
  }

  function Run(otp: Otp, uses: seq<Use>): State {
    if uses == [] then START else Used(otp, Run(otp, uses[..|uses| - 1]), uses[|uses| - 1])
  }

  /** What every run keeps: within an enrolment the accepted steps climb up to the device's own. */
  ghost predicate Climbing(s: State) {
    && (forall i :: 0 <= i < |s.log| ==> s.log[i].enrolment <= s.enrolments)
    && (forall i, j :: 0 <= i < j < |s.log| && s.log[i].enrolment == s.log[j].enrolment ==>
          s.log[i].step < s.log[j].step && s.log[i].secret == s.log[j].secret)
    && (s.device.Some? ==>
          forall i :: 0 <= i < |s.log| && s.log[i].enrolment == s.enrolments ==>
            s.log[i].step <= s.device.value.lastUsedStep && s.log[i].secret == s.device.value.secret)
    && (forall i :: 0 <= i < |s.log| ==>
          Timecode(s.log[i].when) - TOLERANCE_STEPS <= s.log[i].step <= Timecode(s.log[i].when) + TOLERANCE_STEPS)
  }

  lemma {:induction false} RunsClimb(otp: Otp, uses: seq<Use>)
    ensures Climbing(Run(otp, uses))
  {
    if uses != [] {
      RunsClimb(otp, uses[..|uses| - 1]);
      UseClimbs(otp, Run(otp, uses[..|uses| - 1]), uses[|uses| - 1]);
    }
  }

  /** An accepted code of the present enrolment, or the first of the next. */
  lemma AcceptedClimbs(s: State, e: Accepted)
    requires Climbing(s)
    requires Timecode(e.when) - TOLERANCE_STEPS <= e.step <= Timecode(e.when) + TOLERANCE_STEPS
    requires || e.enrolment == s.enrolments + 1
             || (e.enrolment == s.enrolments && s.device.Some?
                 && s.device.value.secret == e.secret && s.device.value.lastUsedStep < e.step)
    ensures Climbing(State(Some(Device(e.secret, e.step)), e.enrolment, s.log + [e]))
  {
  }

  lemma UseClimbs(otp: Otp, s: State, u: Use)
    requires Climbing(s)
    ensures Climbing(Used(otp, s, u))
  {
    hide Climbing, Timecode;
    match u
    case Verify(readable, code, now) =>
      var step := VerifyStep(otp, s.device, readable, code, now);
      if step.Some? { AcceptedClimbs(s, Accepted(s.enrolments, s.device.value.secret, step.value, now)); }
    case Enrol(unsealed, code, now) =>
      var step := EnrolStep(otp, unsealed, code, now);
      if step.Some? { AcceptedClimbs(s, Accepted(s.enrolments + 1, unsealed.value, step.value, now)); }
    case Remove =>
      RemovalClimbs(s);
  }

  lemma RemovalClimbs(s: State)
    requires Climbing(s)
    ensures Climbing(s.(device := None))
  {
  }

  /** Replay protection (RFC 6238, section 5.2): whatever is typed whenever, the steps accepted from
      one enrolled device strictly increase, so none is accepted twice. */
  lemma {:induction false} NoStepTwice(otp: Otp, uses: seq<Use>, i: nat, j: nat)
    requires i < j < |Run(otp, uses).log|
    requires Run(otp, uses).log[i].enrolment == Run(otp, uses).log[j].enrolment
    ensures Run(otp, uses).log[i].step < Run(otp, uses).log[j].step
  {
    RunsClimb(otp, uses);
  }

  /** Accepted codes of one enrolment between two moments. */
  ghost function AcceptedBetween(log: seq<Accepted>, enrolment: nat, t0: int, t1: int): seq<Accepted> {
    if log == [] then []
    else
      var before, last := AcceptedBetween(log[..|log| - 1], enrolment, t0, t1), log[|log| - 1];
      if last.enrolment == enrolment && t0 <= last.when <= t1 then before + [last] else before
  }

  lemma {:induction false} AcceptedMembers(log: seq<Accepted>, enrolment: nat, t0: int, t1: int)
    ensures forall a :: a in AcceptedBetween(log, enrolment, t0, t1) ==>
              a in log && a.enrolment == enrolment && t0 <= a.when <= t1
  {
    if log != [] {
      AcceptedMembers(log[..|log| - 1], enrolment, t0, t1);
    }
  }

  /** Steps that climb from `low` on, counted so far. */
  ghost predicate Fits(r: seq<Accepted>, low: int) {
    r != [] ==> |r| <= r[|r| - 1].step - low + 1
  }

  /** Every accepted code of the enrolment is on an earlier step than the one that follows them. */
  lemma LastIsLatest(log: seq<Accepted>, enrolment: nat, t0: int, t1: int, a: Accepted)
    requires log != []
    requires forall i, j :: 0 <= i < j < |log| && log[i].enrolment == log[j].enrolment ==> log[i].step < log[j].step
    requires a in AcceptedBetween(log[..|log| - 1], enrolment, t0, t1) && log[|log| - 1].enrolment == enrolment
    ensures a.step < log[|log| - 1].step
  {
    var n := |log| - 1;
    AcceptedMembers(log[..n], enrolment, t0, t1);
    var k :| 0 <= k < n && log[..n][k] == a;
    assert log[k] == a;
  }

  lemma {:induction false} AcceptedFit(log: seq<Accepted>, enrolment: nat, t0: int, t1: int, low: int)
    requires forall i, j :: 0 <= i < j < |log| && log[i].enrolment == log[j].enrolment ==> log[i].step < log[j].step
    requires forall a :: a in log && t0 <= a.when <= t1 ==> low <= a.step
    ensures Fits(AcceptedBetween(log, enrolment, t0, t1), low)
  {
    if log != [] {
      var n := |log| - 1;
      var before := AcceptedBetween(log[..n], enrolment, t0, t1);
      AcceptedFit(log[..n], enrolment, t0, t1, low);
      assert log[n] in log;
      if before != [] && log[n].enrolment == enrolment {
        LastIsLatest(log, enrolment, t0, t1, before[|before| - 1]);
      }
    }
  }

  /** In any stretch of time at most one code per 30-second step is accepted, and two more. */
  lemma AcceptedRateIsBounded(otp: Otp, uses: seq<Use>, enrolment: nat, t0: int, t1: int)
    requires t0 <= t1
    ensures |AcceptedBetween(Run(otp, uses).log, enrolment, t0, t1)| <= Timecode(t1) - Timecode(t0) + 3
  {
    var log := Run(otp, uses).log;
    RunsClimb(otp, uses);
    AcceptedFit(log, enrolment, t0, t1, Timecode(t0) - 1);
    AcceptedMembers(log, enrolment, t0, t1);
    var r := AcceptedBetween(log, enrolment, t0, t1);
    if r != [] {
      assert r[|r| - 1] in r;
    }
  }

  // -- one secret ----------------------------------------------------------------------------------

  /** The steps accepted for one secret climb, whichever enrolment they were accepted on. */
  ghost predicate SecretsClimb(log: seq<Accepted>) {
    forall i, j :: 0 <= i < j < |log| && log[i].secret == log[j].secret ==> log[i].step < log[j].step
  }

  /** The step is past every step of this secret accepted so far. */
  ghost predicate MovesOn(log: seq<Accepted>, secret: Secret, step: int) {
    forall a :: a in log && a.secret == secret ==> a.step < step
  }

  /** Every enrolment that is accepted is accepted for a step past those its secret was accepted for. */
  ghost predicate EnrolmentsMoveOn(otp: Otp, uses: seq<Use>) {
    forall k :: 0 <= k < |uses| && uses[k].Enrol? ==> EnrolmentMovesOn(otp, Run(otp, uses[..k]), uses[k])
  }

  ghost predicate EnrolmentMovesOn(otp: Otp, s: State, u: Use)
    requires u.Enrol?
  {
    var step := EnrolStep(otp, u.unsealed, u.code, u.now);
    step.Some? ==> MovesOn(s.log, u.unsealed.value, step.value)
  }

  /** The device remembers the last step of its own secret. */
  ghost predicate Remembers(s: State) {
    s.device.Some? ==> forall a :: a in s.log && a.secret == s.device.value.secret ==> a.step <= s.device.value.lastUsedStep
  }

  /** One more accepted code keeps the secrets climbing exactly when it moves on. */
  lemma ClimbsOnIff(log: seq<Accepted>, e: Accepted)
    requires SecretsClimb(log)
    ensures SecretsClimb(log + [e]) <==> MovesOn(log, e.secret, e.step)
  {
    var more := log + [e];
    if SecretsClimb(more) {
      forall a | a in log && a.secret == e.secret ensures a.step < e.step {
        var i :| 0 <= i < |log| && log[i] == a;
        assert more[i] == a && more[|log|] == e;
      }
    }
  }

  lemma ClimbedBefore(log: seq<Accepted>, e: Accepted)
    requires SecretsClimb(log + [e])
    ensures SecretsClimb(log)
  {
    assert forall i :: 0 <= i < |log| ==> (log + [e])[i] == log[i];
  }

  lemma {:induction false} UseKeepsSecretsIff(otp: Otp, s: State, u: Use)
    requires SecretsClimb(s.log) && Remembers(s)
    ensures SecretsClimb(Used(otp, s, u).log) <==> (u.Enrol? ==> EnrolmentMovesOn(otp, s, u))
    ensures SecretsClimb(Used(otp, s, u).log) ==> Remembers(Used(otp, s, u))
  {
    hide SecretsClimb;
    var log := Used(otp, s, u).log;
    if |log| > |s.log| {
      ClimbsOnIff(s.log, log[|s.log|]);
    }
  }

  lemma ClimbedBeforeUse(otp: Otp, s: State, u: Use)
    requires SecretsClimb(Used(otp, s, u).log)
    ensures SecretsClimb(s.log)
  {
    hide SecretsClimb;
    var log := Used(otp, s, u).log;
    if |log| > |s.log| {
      ClimbedBefore(s.log, log[|s.log|]);
    }
  }

  lemma MoveOnSplits(otp: Otp, uses: seq<Use>)
    requires uses != []
    ensures var n := |uses| - 1;
            EnrolmentsMoveOn(otp, uses) <==>
              EnrolmentsMoveOn(otp, uses[..n]) && (uses[n].Enrol? ==> EnrolmentMovesOn(otp, Run(otp, uses[..n]), uses[n]))
  {
    var n := |uses| - 1;
    assert forall k :: 0 <= k < n ==> uses[..n][k] == uses[k] && uses[..n][..k] == uses[..k];
    if EnrolmentsMoveOn(otp, uses) {
      forall k | 0 <= k < n && uses[..n][k].Enrol?
        ensures EnrolmentMovesOn(otp, Run(otp, uses[..n][..k]), uses[..n][k])
      {
        assert EnrolmentMovesOn(otp, Run(otp, uses[..k]), uses[k]);
      }
    }
  }

  /** Replay protection for a secret, exactly: over a run the steps accepted for every secret strictly
      increase if and only if no enrolment was accepted for a step its secret had already reached. Using
      a device never breaks it; confirming a secret again breaks it just then. */
  lemma {:induction false} SecretsClimbIff(otp: Otp, uses: seq<Use>)
    ensures SecretsClimb(Run(otp, uses).log) <==> EnrolmentsMoveOn(otp, uses)
    ensures SecretsClimb(Run(otp, uses).log) ==> Remembers(Run(otp, uses))
  {
    hide SecretsClimb, EnrolmentsMoveOn, EnrolmentMovesOn, Remembers, Used;
    if uses == [] {
      NothingAccepted(otp);
    } else {
      var n := |uses| - 1;
      var s := Run(otp, uses[..n]);
      SecretsClimbIff(otp, uses[..n]);
      MoveOnSplits(otp, uses);
      if SecretsClimb(s.log) {
        UseKeepsSecretsIff(otp, s, uses[n]);
      } else if SecretsClimb(Run(otp, uses).log) {
        ClimbedBeforeUse(otp, s, uses[n]);
      }
    }
  }

  lemma NothingAccepted(otp: Otp)
    ensures SecretsClimb(Run(otp, []).log) && Remembers(Run(otp, [])) && EnrolmentsMoveOn(otp, [])
  {
  }

  /** The condition can fail: enrolment compares with step 0, so a sealed secret submitted twice with one
      code is accepted twice for one step. */
  lemma SameSecretTwice(otp: Otp, secret: Secret, code: string, now: int)
    requires otp(secret, Timecode(now)) == code == DigitsOnly(code) && |code| == DIGITS && now >= 60
    requires otp(secret, Timecode(now) - 1) != code
    ensures var enrol := Enrol(Some(secret), code, now);
            var log := Run(otp, [enrol, enrol]).log;
            && |log| == 2 && log[0].secret == log[1].secret && log[0].step == log[1].step
            && !EnrolmentsMoveOn(otp, [enrol, enrol])
  {
    var enrol := Enrol(Some(secret), code, now);
    assert [enrol, enrol][..1] == [enrol] && [enrol][..0] == [];
    assert Acceptable(otp, secret, code, now, 0, Timecode(now));
    assert EnrolStep(otp, Some(secret), code, now) == Some(Timecode(now));
    assert Run(otp, []) == START;
    assert Run(otp, [enrol]).log == [Accepted(1, secret, Timecode(now), now)];
    SecretsClimbIff(otp, [enrol, enrol]);
  }

  /** No sealed secret is confirmed again once it was accepted. */
  ghost predicate SecretsAreFresh(otp: Otp, uses: seq<Use>) {
    forall k :: 0 <= k < |uses| && uses[k].Enrol? && uses[k].unsealed.Some? ==>
      forall a :: a in Run(otp, uses[..k]).log ==> a.secret != uses[k].unsealed.value
  }

  /** With a fresh secret for every enrolment the condition holds, and no step of a secret comes twice. */
  lemma {:induction false} NoStepTwiceForASecret(otp: Otp, uses: seq<Use>, i: nat, j: nat)
    requires SecretsAreFresh(otp, uses) && i < j < |Run(otp, uses).log|
    requires Run(otp, uses).log[i].secret == Run(otp, uses).log[j].secret
    ensures EnrolmentsMoveOn(otp, uses)
    ensures Run(otp, uses).log[i].step < Run(otp, uses).log[j].step
  {
    SecretsClimbIff(otp, uses);
    assert EnrolmentsMoveOn(otp, uses);
  }

  // -- recovery codes ------------------------------------------------------------------------------

  const RECOVERY_ALPHABET := "ABCDEFGHJKLMNPQRSTUVWXYZ23456789"
  const RECOVERY_LENGTH := 12

  /** A stored recovery code: a salted digest, and whether it was spent. */
  datatype RecoveryCode = RecoveryCode(salt: string, digest: string, used: bool)

  type Digest = (string, string) -> string

  function Canonical(code: string): string {
    if code == "" then ""
    else
      var rest, last := Canonical(code[..|code| - 1]), code[|code| - 1];
      if last in RECOVERY_ALPHABET then rest + [last] else rest
  }

  /** Whether stored code `i` is unspent and this upper-cased code is the one behind it. */
  predicate Opens(digest: Digest, codes: seq<RecoveryCode>, code: string, i: nat)
    requires i < |codes|
  {
    !codes[i].used && codes[i].digest == digest(codes[i].salt, Canonical(code))
  }

  function Remaining(codes: seq<RecoveryCode>): nat {
    if codes == [] then 0
    else Remaining(codes[..|codes| - 1]) + (if codes[|codes| - 1].used then 0 else 1)
  }

  /** Every unused code is compared; the first that matches is spent, and no other. */
  method UseRecoveryCode(digest: Digest, codes: seq<RecoveryCode>, code: string)
    returns (accepted: bool, after: seq<RecoveryCode>)
    ensures accepted <==>
              && |Canonical(code)| == 12
              && exists c :: c in codes && !c.used && c.digest == digest(c.salt, Canonical(code))
    ensures !accepted ==> after == codes
    ensures accepted ==> exists i :: IsSpent(digest, codes, code, i, after)
    ensures accepted ==> Remaining(after) == Remaining(codes) - 1
  {
    OpensIff(digest, codes, code);
    hide Canonical, Remaining;
    after := codes;
    if |Canonical(code)| != RECOVERY_LENGTH { return false, codes; }
    var matched: Option<nat> := None;
    for i := 0 to |codes|
      invariant matched.None? ==> forall k :: 0 <= k < i ==> !Opens(digest, codes, code, k)
      invariant matched.Some? ==> matched.value < i && Opens(digest, codes, code, matched.value)
      invariant matched.Some? ==> forall k :: 0 <= k < matched.value ==> !Opens(digest, codes, code, k)
    {
      if Opens(digest, codes, code, i) && matched == None { matched := Some(i); }
    }
    if matched.None? {
      return false, codes;
    }
    SpendingOne(codes, matched.value);
    after := codes[matched.value := codes[matched.value].(used := true)];
    forall k | 0 <= k < matched.value ensures codes[k].used || codes[k].digest != digest(codes[k].salt, Canonical(code)) {
      assert !Opens(digest, codes, code, k);
    }
    assert IsSpent(digest, codes, code, matched.value, after);
    accepted := true;
  }

  /** Code `i` is the first unspent one that was typed, and only it is spent. */
  ghost predicate IsSpent(digest: Digest, codes: seq<RecoveryCode>, code: string, i: nat, after: seq<RecoveryCode>) {
    && i < |codes| && !codes[i].used && codes[i].digest == digest(codes[i].salt, Canonical(code))
    && (forall k :: 0 <= k < i ==> codes[k].used || codes[k].digest != digest(codes[k].salt, Canonical(code)))
    && after == codes[i := codes[i].(used := true)]
  }

  lemma OpensIff(digest: Digest, codes: seq<RecoveryCode>, code: string)
    ensures (exists c :: c in codes && !c.used && c.digest == digest(c.salt, Canonical(code)))
       <==> exists i :: 0 <= i < |codes| && Opens(digest, codes, code, i)
  {
    hide Canonical;
    if c :| c in codes && !c.used && c.digest == digest(c.salt, Canonical(code)) {
      var i :| 0 <= i < |codes| && codes[i] == c;
      assert Opens(digest, codes, code, i);
    }
    if i :| 0 <= i < |codes| && Opens(digest, codes, code, i) {
      assert codes[i] in codes;
    }
  }

  lemma {:induction false} SpendingOne(codes: seq<RecoveryCode>, i: nat)
    requires i < |codes| && !codes[i].used
    ensures Remaining(codes[i := codes[i].(used := true)]) == Remaining(codes) - 1
  {
    var n := |codes| - 1;
    var after := codes[i := codes[i].(used := true)];
    if i < n {
      SpendingOne(codes[..n], i);
      assert after[..n] == codes[..n][i := codes[i].(used := true)];
    } else {
      assert after[..n] == codes[..n];
    }
  }
}
