/** What a sign-in counter owes the person behind it: failures that lie far apart never lock anybody out, a
quiet day starts the waits from the bottom, and in between they double. And that its rate limit is no stricter
than it says. */
module AuthThrottleLaws {
  import opened Outcomes
  import opened AuthThrottle
  import GateThrottle

  const HOUR := 3600 * 1_000_000
  const DAY := 24 * HOUR

  ghost function RowAt(policies: Policies, run: seq<Attempt>, k: nat, c: Counter): Row
    requires k <= |run|
  {
    RowOf(Tables(policies, run, k), c)
  }

  /** A correct attempt that was let through and clears the counter. */
  ghost predicate Forgiven(policies: Policies, run: seq<Attempt>, k: nat, c: Counter)
    requires k < |run|
  {
    && IsVerified(Tables(policies, run, k), run[k]) && run[k].correct && c in run[k].counters
    && c.scope in {"SIGN_IN_PAIR", "SIGN_IN_ACCOUNT", "SECOND_FACTOR", "REAUTHENTICATION", "PASSWORD_CHANGE"}
  }

  /** The failure that completes a count: none is left over. */
  ghost predicate Arms(policies: Policies, run: seq<Attempt>, k: nat, c: Counter)
    requires k < |run|
  {
    Charged(policies, run, k, c) && RowAt(policies, run, k + 1, c).failures == 0
  }

  /** Only charged failures and forgiveness change a row. */
  lemma RowMoves(policies: Policies, run: seq<Attempt>, k: nat, c: Counter)
    requires k < |run|
    ensures var row := RowAt(policies, run, k, c);
            RowAt(policies, run, k + 1, c)
              == if Charged(policies, run, k, c) then Failed(row, policies(c.scope), run[k].countedAt)
                 else if Forgiven(policies, run, k, c) then GateThrottle.NEW_ROW else row
  {
    hide Failed;
    TakenReads(Tables(policies, run, k), run[k].counters);
  }

  // -- far apart -------------------------------------------------------------------------------

  /** The row's last failure is one that was charged. */
  lemma {:induction false} LastWasCharged(policies: Policies, run: seq<Attempt>, n: nat, c: Counter)
    requires n <= |run|
    ensures var row := RowAt(policies, run, n, c);
            && (row.lastFailureAt.None? ==> row == GateThrottle.NEW_ROW)
            && (row.lastFailureAt.Some? ==>
                  exists j :: 0 <= j < n && Charged(policies, run, j, c) && run[j].countedAt == row.lastFailureAt.value)
  {
    hide Charged, RowAt;
    if n == 0 {
      StartsBlank(policies, run, c);
    } else {
      LastWasCharged(policies, run, n - 1, c);
      RowMoves(policies, run, n - 1, c);
    }
  }

  lemma StartsBlank(policies: Policies, run: seq<Attempt>, c: Counter)
    ensures RowAt(policies, run, 0, c) == GateThrottle.NEW_ROW
  {
  }

  /** Every two charged failures are further apart than this. */
  ghost predicate Apart(policies: Policies, run: seq<Attempt>, n: nat, c: Counter, span: int)
    requires n <= |run|
  {
    forall i, j :: 0 <= i < j < n && Charged(policies, run, i, c) && Charged(policies, run, j, c) ==>
      run[j].countedAt - run[i].countedAt > span
  }

  /** Whoever mistypes at most once an hour is never locked out, however often, whoever else fails and
      whatever other counters do. */
  lemma {:induction false} FarApartNeverLocks(policies: Policies, run: seq<Attempt>, n: nat, c: Counter)
    requires n <= |run| && policies(c.scope).maxAttempts > 1 && Apart(policies, run, n, c, HOUR)
    ensures var row := RowAt(policies, run, n, c);
            row.lockedUntil == None && row.failures <= 1 && row.lockoutCycles == 0
    ensures forall now :: Remaining(Tables(policies, run, n), c, now) == 0
  {
    hide Charged;
    if n == 0 {
      StartsBlank(policies, run, c);
    } else {
      FarApartNeverLocks(policies, run, n - 1, c);
      RowMoves(policies, run, n - 1, c);
      LastWasCharged(policies, run, n - 1, c);
    }
  }

  // -- a quiet day -------------------------------------------------------------------------------

  /** Charged failure `i` comes more than a day after every earlier one. */
  ghost predicate AfterADay(policies: Policies, run: seq<Attempt>, i: nat, c: Counter)
    requires i < |run|
  {
    && Charged(policies, run, i, c)
    && forall j :: 0 <= j < i && Charged(policies, run, j, c) ==> run[i].countedAt - run[j].countedAt > DAY
  }

  ghost predicate NoneArms(policies: Policies, run: seq<Attempt>, i: nat, k: nat, c: Counter)
    requires k <= |run|
  {
    forall j :: i <= j < k ==> !Arms(policies, run, j, c)
  }

  lemma {:induction false} NoCyclesYet(policies: Policies, run: seq<Attempt>, i: nat, k: nat, c: Counter)
    requires i < k <= |run| && AfterADay(policies, run, i, c) && NoneArms(policies, run, i, k, c)
    ensures RowAt(policies, run, k, c).lockoutCycles == 0
  {
    hide Charged;
    var j := k - 1;
    RowMoves(policies, run, j, c);
    LastWasCharged(policies, run, j, c);
    assert !Arms(policies, run, j, c);
    if i < j { NoCyclesYet(policies, run, i, j, c); }
  }

  /** After a quiet day - or at the start - the next lockout is the shortest there is. */
  lemma {:induction false} FirstLockoutAfterADay(policies: Policies, run: seq<Attempt>, i: nat, k: nat, c: Counter)
    requires i <= k < |run| && AfterADay(policies, run, i, c)
    requires NoneArms(policies, run, i, k, c) && Arms(policies, run, k, c)
    ensures var policy := policies(c.scope);
            var wait := if policy.baseSeconds <= policy.ceilingSeconds then policy.baseSeconds else policy.ceilingSeconds;
            RowAt(policies, run, k + 1, c).lockedUntil == Some(run[k].countedAt + wait * 1_000_000)
  {
    hide Charged;
    RowMoves(policies, run, k, c);
    LastWasCharged(policies, run, k, c);
    if i < k { NoCyclesYet(policies, run, i, k, c); }
  }

  // -- in between ---------------------------------------------------------------------------------

  /** What is charged from `i` up to `k` follows the failure before it within a day, and nothing is forgiven. */
  ghost predicate NoQuietDay(policies: Policies, run: seq<Attempt>, i: nat, k: nat, c: Counter)
    requires k <= |run|
  {
    forall j :: i <= j < k ==>
      && !Forgiven(policies, run, j, c)
      && (Charged(policies, run, j, c) ==>
            var last := RowAt(policies, run, j, c).lastFailureAt;
            last.Some? && run[j].countedAt - last.value <= DAY)
  }

  lemma {:induction false} CyclesStand(policies: Policies, run: seq<Attempt>, i: nat, k: nat, c: Counter)
    requires i <= k <= |run| && NoQuietDay(policies, run, i, k, c) && NoneArms(policies, run, i, k, c)
    ensures RowAt(policies, run, k, c).lockoutCycles == RowAt(policies, run, i, c).lockoutCycles
    decreases k - i
  {
    hide Charged, Forgiven;
    if i < k {
      var j := k - 1;
      CyclesStand(policies, run, i, j, c);
      RowMoves(policies, run, j, c);
      assert !Arms(policies, run, j, c);
    }
  }

  ghost function WaitOf(policies: Policies, run: seq<Attempt>, k: nat, c: Counter): int
    requires k < |run| && RowAt(policies, run, k + 1, c).lockedUntil.Some?
  {
    RowAt(policies, run, k + 1, c).lockedUntil.value - run[k].countedAt
  }

  /** An arming failure locks for the wait its cycle has come to. */
  lemma ArmingLocks(policies: Policies, run: seq<Attempt>, k: nat, c: Counter)
    requires k < |run| && Arms(policies, run, k, c)
    ensures var row := RowAt(policies, run, k + 1, c);
            && row.lockoutCycles > 0
            && row.lockedUntil == Some(run[k].countedAt + GateThrottle.Wait(policies(c.scope), row.lockoutCycles - 1) * SECOND)
    ensures var last := RowAt(policies, run, k, c).lastFailureAt;
            last.Some? && run[k].countedAt - last.value <= DAY
            ==> RowAt(policies, run, k + 1, c).lockoutCycles == RowAt(policies, run, k, c).lockoutCycles + 1
  {
    hide Charged, RowAt;
    RowMoves(policies, run, k, c);
  }

  /** Without a quiet day between them - though the count may have decayed - one lockout is twice as long as the
      one before, up to the ceiling. */
  lemma {:induction false} LockoutsDouble(policies: Policies, run: seq<Attempt>, i: nat, k: nat, c: Counter)
    requires i < k < |run| && Arms(policies, run, i, c) && Arms(policies, run, k, c)
    requires NoneArms(policies, run, i + 1, k, c) && NoQuietDay(policies, run, i + 1, k + 1, c)
    ensures RowAt(policies, run, i + 1, c).lockedUntil.Some? && RowAt(policies, run, k + 1, c).lockedUntil.Some?
    ensures var ceiling := policies(c.scope).ceilingSeconds * 1_000_000;
            var before, after := WaitOf(policies, run, i, c), WaitOf(policies, run, k, c);
            after == if 2 * before <= ceiling then 2 * before else ceiling
  {
    hide *;
    ArmingLocks(policies, run, i, c);
    ArmingLocks(policies, run, k, c);
    LastStretch(policies, run, i + 1, k, c);
    CyclesStand(policies, run, i + 1, k, c);
    NextWait(policies(c.scope), RowAt(policies, run, i + 1, c).lockoutCycles - 1);
    WaitIs(policies, run, i, c);
    WaitIs(policies, run, k, c);
  }

  lemma WaitIs(policies: Policies, run: seq<Attempt>, k: nat, c: Counter)
    requires k < |run| && RowAt(policies, run, k + 1, c).lockedUntil.Some?
    ensures WaitOf(policies, run, k, c) == RowAt(policies, run, k + 1, c).lockedUntil.value - run[k].countedAt
  {
  }

  lemma LastStretch(policies: Policies, run: seq<Attempt>, i: nat, k: nat, c: Counter)
    requires i <= k < |run| && NoQuietDay(policies, run, i, k + 1, c) && Arms(policies, run, k, c)
    ensures NoQuietDay(policies, run, i, k, c)
    ensures var last := RowAt(policies, run, k, c).lastFailureAt; last.Some? && run[k].countedAt - last.value <= DAY
  {
    hide Charged, Forgiven, RowAt;
    assert !Forgiven(policies, run, k, c);
  }

  lemma NextWait(policy: Policy, cycles: nat)
    ensures var ceiling := policy.ceilingSeconds * 1_000_000;
            var before, after := GateThrottle.Wait(policy, cycles) * SECOND, GateThrottle.Wait(policy, cycles + 1) * SECOND;
            after == if 2 * before <= ceiling then 2 * before else ceiling
  {
  }

  /** An hour forgets the count: a failure that comes later than that after every other is a first one again,
      and locks nobody out. */
  lemma {:induction false} AnHourForgets(policies: Policies, run: seq<Attempt>, k: nat, c: Counter)
    requires k < |run| && Charged(policies, run, k, c) && policies(c.scope).maxAttempts > 1
    requires forall j :: 0 <= j < k && Charged(policies, run, j, c) ==> run[k].countedAt - run[j].countedAt > HOUR
    ensures RowAt(policies, run, k + 1, c).failures == 1
    ensures RowAt(policies, run, k + 1, c).lockedUntil == RowAt(policies, run, k, c).lockedUntil
  {
    hide Charged, RowAt;
    RowMoves(policies, run, k, c);
    LastWasCharged(policies, run, k, c);
  }

  /** Within the hour failures add up, until they reach the limit and lock. */
  lemma {:induction false} FailuresAddUp(policies: Policies, run: seq<Attempt>, k: nat, c: Counter)
    requires k < |run| && Charged(policies, run, k, c)
    requires var last := RowAt(policies, run, k, c).lastFailureAt; last.Some? ==> run[k].countedAt - last.value <= HOUR
    ensures var before, after := RowAt(policies, run, k, c).failures, RowAt(policies, run, k + 1, c).failures;
            if before + 1 < policies(c.scope).maxAttempts then after == before + 1 else after == 0
  {
    hide Charged, RowAt;
    RowMoves(policies, run, k, c);
  }

  // -- the rate is reached ----------------------------------------------------------------------------

  lemma {:induction false} PrefixDecides(policies: Policies, run: seq<Attempt>, more: seq<Attempt>, n: nat, c: Counter)
    requires n <= |run|
    ensures Tables(policies, run + more, n) == Tables(policies, run, n)
    ensures Failures(policies, run + more, 0, n, c) == Failures(policies, run, 0, n, c)
  {
    hide After;
    if n > 0 { PrefixDecides(policies, run, more, n - 1, c); }
  }

  /** A run after which the counter stands so, and so many failures were let through. */
  ghost predicate Reaches(policies: Policies, run: seq<Attempt>, c: Counter, row: Row, failed: nat) {
    RowAt(policies, run, |run|, c) == row && Failures(policies, run, 0, |run|, c) == failed
  }

  function Wrong(c: Counter, at: int): Attempt { Attempt([c], {}, at, at, false) }

  lemma OneMoreReaches(policies: Policies, run: seq<Attempt>, c: Counter, at: int, row: Row, failed: nat)
    requires Reaches(policies, run, c, row, failed) && (row.lockedUntil.Some? ==> row.lockedUntil.value <= at)
    ensures Reaches(policies, run + [Wrong(c, at)], c, Failed(row, policies(c.scope), at), failed + 1)
  {
    hide Failed;
    var longer := run + [Wrong(c, at)];
    PrefixDecides(policies, run, [Wrong(c, at)], |run|, c);
    assert longer[|run|] == Wrong(c, at);
    RowMoves(policies, longer, |run|, c);
    assert Charged(policies, longer, |run|, c);
  }

  /** `n` wrong attempts at one moment. */
  ghost function Burst(c: Counter, at: int, n: nat): seq<Attempt> {
    if n == 0 then [] else Burst(c, at, n - 1) + [Wrong(c, at)]
  }

  /** A row ready for a burst: nothing counted, nothing locked, the last failure no more than an hour ago. */
  ghost predicate Ready(row: Row, at: int) {
    && row.failures == 0
    && (row.lockedUntil.Some? ==> row.lockedUntil.value <= at)
    && (row.lastFailureAt.Some? ==> 0 <= at - row.lastFailureAt.value <= HOUR)
  }

  /** The row `n` failures into a burst. */
  ghost function Into(policy: Policy, row: Row, at: int, n: nat): Row {
    if n == 0 then row
    else if n < Limit(policy) then GateThrottle.Row(n, row.lockoutCycles, row.lockedUntil, Some(at))
    else GateThrottle.Row(0, row.lockoutCycles + 1,
                          Some(at + GateThrottle.Wait(policy, row.lockoutCycles) * SECOND), Some(at))
  }

  lemma OneMoreInto(policy: Policy, row: Row, at: int, n: nat)
    requires Ready(row, at) && n < Limit(policy)
    ensures Failed(Into(policy, row, at, n), policy, at) == Into(policy, row, at, n + 1)
    ensures Into(policy, row, at, n).lockedUntil == row.lockedUntil
  {
  }

  lemma {:induction false} BurstReaches(policies: Policies, run: seq<Attempt>, c: Counter, at: int, n: nat, row: Row, failed: nat)
    requires Reaches(policies, run, c, row, failed) && Ready(row, at) && n <= Limit(policies(c.scope))
    ensures Reaches(policies, run + Burst(c, at, n), c, Into(policies(c.scope), row, at, n), failed + n)
  {
    hide Reaches, Failed, Into, Limit;
    if n == 0 {
      assert run + Burst(c, at, 0) == run;
      NothingInto(policies(c.scope), row, at);
    } else {
      BurstReaches(policies, run, c, at, n - 1, row, failed);
      OneMoreInto(policies(c.scope), row, at, n - 1);
      OneMoreReaches(policies, run + Burst(c, at, n - 1), c, at, Into(policies(c.scope), row, at, n - 1), failed + n - 1);
      assert run + Burst(c, at, n) == run + Burst(c, at, n - 1) + [Wrong(c, at)];
    }
  }

  lemma NothingInto(policy: Policy, row: Row, at: int)
    ensures Into(policy, row, at, 0) == row
  {
  }

  /** A full burst as soon as each lockout ends. */
  ghost function Relentless(policy: Policy, c: Counter, q: nat): seq<Attempt> {
    if q == 0 then []
    else Relentless(policy, c, q - 1) + Burst(c, GateThrottle.Times(Pace(policy), q - 1), Limit(policy))
  }

  ghost predicate Steady(policy: Policy) {
    policy.ceilingSeconds <= policy.baseSeconds && policy.ceilingSeconds <= 3600
  }

  lemma {:induction false} SteadyWait(policy: Policy, cycles: nat)
    requires Steady(policy)
    ensures GateThrottle.Wait(policy, cycles) == policy.ceilingSeconds && Pace(policy) == policy.ceilingSeconds * SECOND
  {
    DoublingGrows(policy.baseSeconds, cycles);
    DoublingGrows(policy.baseSeconds, 0);
  }

  lemma {:induction false} DoublingGrows(seconds: nat, times: nat)
    ensures GateThrottle.Doubled(seconds, times) >= seconds
  {
    if times > 0 { DoublingGrows(seconds, times - 1); }
  }

  /** The rate limit is no stricter than it says: where the waits do not grow, its bound is reached for every
      number of paces; and the first pace's for every policy. */
  lemma {:induction false} RateIsReached(policies: Policies, c: Counter, q: nat)
    requires q <= 1 || Steady(policies(c.scope))
    ensures var run := Relentless(policies(c.scope), c, q);
            && Failures(policies, run, 0, |run|, c) == GateThrottle.Times(Limit(policies(c.scope)), q)
            && Reaches(policies, run, c, RowAt(policies, run, |run|, c), GateThrottle.Times(Limit(policies(c.scope)), q))
    ensures forall at :: (q > 0 && Steady(policies(c.scope)) && at == GateThrottle.Times(Pace(policies(c.scope)), q)) || (q == 0 && at == 0)
              ==> Ready(RowAt(policies, Relentless(policies(c.scope), c, q), |Relentless(policies(c.scope), c, q)|, c), at)
  {
    var policy := policies(c.scope);
    if q == 0 {
      StartsBlank(policies, [], c);
    } else {
      var before := Relentless(policy, c, q - 1);
      var at := GateThrottle.Times(Pace(policy), q - 1);
      RateIsReached(policies, c, q - 1);
      var row := RowAt(policies, before, |before|, c);
      BurstReaches(policies, before, c, at, Limit(policy), row, GateThrottle.Times(Limit(policy), q - 1));
      if Steady(policy) { SteadyWait(policy, row.lockoutCycles); }
    }
  }

  /** Every attempt of that run is that counter's, wrong, and made before its paces are over. */
  lemma {:induction false} RelentlessIsInTime(policy: Policy, c: Counter, q: nat)
    ensures forall a :: a in Relentless(policy, c, q) ==>
              a.counters == [c] && !a.correct && 0 <= a.checkedAt == a.countedAt && a.countedAt + Pace(policy) <= GateThrottle.Times(Pace(policy), q)
  {
    if q > 0 {
      RelentlessIsInTime(policy, c, q - 1);
      BurstMembers(c, GateThrottle.Times(Pace(policy), q - 1), Limit(policy));
    }
  }

  lemma {:induction false} BurstMembers(c: Counter, at: int, n: nat)
    ensures forall a :: a in Burst(c, at, n) ==> a == Wrong(c, at)
  {
    if n > 0 { BurstMembers(c, at, n - 1); }
  }

  // -- one attempt -----------------------------------------------------------------------------------

  /** An attempt's password is looked at exactly when every counter it is charged to, but for the scopes it is
      exempt from, has no lockout or one that is over. */
  lemma LetThroughIff(table: Table, a: Attempt)
    ensures IsVerified(table, a)
       <==> forall c :: c in a.counters && c.scope !in a.ignoring && c in table && table[c].lockedUntil.Some?
              ==> table[c].lockedUntil.value <= a.checkedAt
  {
    if IsVerified(table, a) {
      forall c | c in a.counters && c.scope !in a.ignoring && c in table && table[c].lockedUntil.Some?
        ensures table[c].lockedUntil.value <= a.checkedAt
      {
        assert Remaining(table, c, a.checkedAt) == 0;
      }
    }
  }

  /** What one attempt leaves of every counter's row: nothing at all moves unless it was let through; a failure
      moves what it is charged to, a success blanks what may be cleared of it - and never a network's count. */
  lemma OnlyItsOwnMove(table: Table, policies: Policies, a: Attempt, c: Counter)
    ensures var row, after := RowOf(table, c), RowOf(After(table, policies, a), c);
            if !IsVerified(table, a) || c !in a.counters then after == row
            else if a.correct then
              after == if c.scope in {"SIGN_IN_PAIR", "SIGN_IN_ACCOUNT", "SECOND_FACTOR", "REAUTHENTICATION", "PASSWORD_CHANGE"}
                       then GateThrottle.Row(0, 0, None, None) else row
            else after.lastFailureAt == Some(a.countedAt)
    ensures forall d :: d in After(table, policies, a) ==> d in table || d in a.counters
  {
    TakenReads(table, a.counters);
  }
}
