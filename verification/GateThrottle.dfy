/** The shared gate's lockout: `SharedGateThrottle` and `shared_gate.attempt`.

Times are whole microseconds, as the database keeps them. A client's row is
locked from the check to the count, so one client's attempts take turns; each
attempt reads the clock once when it checks and once when it counts. */
module GateThrottle {
  import opened Outcomes

  const SECOND := 1_000_000

  datatype Policy = Policy(maxAttempts: nat, baseSeconds: nat, ceilingSeconds: nat)

  datatype Row = Row(failures: nat, lockoutCycles: nat, lockedUntil: Option<int>, lastFailureAt: Option<int>)

  const NEW_ROW := Row(0, 0, None, None)

  /** `seconds * 2 ** times`. */
  function Doubled(seconds: nat, times: nat): nat {
    if times == 0 then seconds else 2 * Doubled(seconds, times - 1)
  }

  /** The wait, in seconds, that completing one more cycle earns. */
  function Wait(policy: Policy, cycles: nat): nat {
    var doubled := Doubled(policy.baseSeconds, cycles);
    if doubled <= policy.ceilingSeconds then doubled else policy.ceilingSeconds
  }

  function SecondsRemaining(row: Row, now: int): (s: nat)
    ensures s == 0 <==> row.lockedUntil.None? || row.lockedUntil.value <= now
  {
    if row.lockedUntil.None? || row.lockedUntil.value <= now then 0
    else (row.lockedUntil.value - now) / SECOND + 1
  }

  /** The row after one more wrong password. */
  function Registered(row: Row, policy: Policy, now: int): Row {
    if row.failures + 1 >= policy.maxAttempts
    then Row(0, row.lockoutCycles + 1, Some(now + Wait(policy, row.lockoutCycles) * SECOND), Some(now))
    else row.(failures := row.failures + 1, lastFailureAt := Some(now))
  }

  class SharedGateThrottle {
    var failures: nat
    var lockoutCycles: nat
    var lockedUntil: Option<int>
    var lastFailureAt: Option<int>

    constructor (row: Row)
      ensures Stored() == row
    {
      failures, lockoutCycles := row.failures, row.lockoutCycles;
      lockedUntil, lastFailureAt := row.lockedUntil, row.lastFailureAt;
    }

    function Stored(): Row
      reads this
    {
      Row(failures, lockoutCycles, lockedUntil, lastFailureAt)
    }

    method RegisterFailure(policy: Policy, now: int) returns (seconds: nat)
      modifies this
      ensures Stored() == Registered(old(Stored()), policy, now)
      ensures seconds == if failures == 0 then Wait(policy, old(lockoutCycles)) else 0
    {
      failures := failures + 1;
      lastFailureAt := Some(now);
      seconds := 0;
      if failures >= policy.maxAttempts {
        seconds := Wait(policy, lockoutCycles);
        lockedUntil := Some(now + seconds * SECOND);
        lockoutCycles := lockoutCycles + 1;
        failures := 0;
      }
    }
  }

  // -- one attempt ----------------------------------------------------------------------------

  type Client = string
  type Table = map<Client, Row>

  /** One attempt: who, when the lockout was read, when the result was counted, and whether the
      password was the right one. */
  datatype Attempt = Attempt(client: Client, checkedAt: int, countedAt: int, correct: bool)

  datatype AttemptOutcome =
    | Passed
    | BadPassword(wait: nat)
    | LockedOut(wait: nat)

  function RowOf(table: Table, client: Client): Row {
    if client in table then table[client] else NEW_ROW
  }

  /** Whether this attempt's password is checked at all. */
  predicate IsVerified(table: Table, a: Attempt) {
    SecondsRemaining(RowOf(table, a.client), a.checkedAt) == 0
  }

  function After(table: Table, policy: Policy, a: Attempt): Table {
    var row := RowOf(table, a.client);
    if !IsVerified(table, a) then table[a.client := row]
    else if a.correct then table - {a.client}
    else table[a.client := Registered(row, policy, a.countedAt)]
  }

  class ThrottleTable {
    var rows: Table

    constructor ()
      ensures rows == map[]
    {
      rows := map[];
    }

    /** One attempt from start to end, on the client's own row: refused outright while locked, else counted or
        cleared by what the password turns out to be. */
    method Try(a: Attempt, policy: Policy) returns (outcome: AttemptOutcome)
      modifies this
      ensures rows == After(old(rows), policy, a)
      ensures outcome.LockedOut? <==> !IsVerified(old(rows), a)
      ensures outcome.LockedOut? ==> outcome.wait == SecondsRemaining(RowOf(old(rows), a.client), a.checkedAt)
      ensures outcome.Passed? <==> IsVerified(old(rows), a) && a.correct
    {
      if a.client !in rows { rows := rows[a.client := NEW_ROW]; }
      var remaining := SecondsRemaining(rows[a.client], a.checkedAt);
      if remaining > 0 { return LockedOut(remaining); }
      if !a.correct {
        var record := new SharedGateThrottle(rows[a.client]);
        var wait := record.RegisterFailure(policy, a.countedAt);
        rows := rows[a.client := record.Stored()];
        return BadPassword(wait);
      }
      rows := rows - {a.client};
      outcome := Passed;
    }
  }

  // -- whole runs -------------------------------------------------------------------------------

  /** The table after the first `n` attempts of any clients, in the order they were counted. */
  ghost function Tables(policy: Policy, run: seq<Attempt>, n: nat): Table
    requires n <= |run|
  {
    if n == 0 then map[] else After(Tables(policy, run, n - 1), policy, run[n - 1])
  }

  /** One client's attempts take turns on a monotone clock. */
  ghost predicate TakeTurns(run: seq<Attempt>) {
    && (forall i :: 0 <= i < |run| ==> run[i].checkedAt <= run[i].countedAt)
    && (forall i, j :: 0 <= i < j < |run| && run[i].client == run[j].client ==> run[i].countedAt <= run[j].checkedAt)
  }

  ghost predicate VerifiedIn(policy: Policy, run: seq<Attempt>, i: nat)
    requires i < |run|
  {
    IsVerified(Tables(policy, run, i), run[i])
  }

  /** How many of `client`'s passwords were verified among the first `n` attempts. */
  ghost function Verifications(policy: Policy, run: seq<Attempt>, n: nat, client: Client): nat
    requires n <= |run|
  {
    if n == 0 then 0
    else
      Verifications(policy, run, n - 1, client)
      + (if run[n - 1].client == client && VerifiedIn(policy, run, n - 1) then 1 else 0)
  }

  // -- one attempt, and one wait ----------------------------------------------------------------

  /** A client's password is looked at exactly when it has no lockout, or one that is over. */
  lemma LetThroughIff(table: Table, a: Attempt)
    ensures IsVerified(table, a)
       <==> (a.client in table && table[a.client].lockedUntil.Some? ==> table[a.client].lockedUntil.value <= a.checkedAt)
  {
  }

  /** A right password, let through, blanks its client's row, a wrong one counts on it; a locked-out attempt
      moves nothing, and nobody moves anybody else's. */
  lemma OnlyItsOwnMoves(table: Table, policy: Policy, a: Attempt, client: Client)
    ensures var row, after := RowOf(table, client), RowOf(After(table, policy, a), client);
            if client != a.client || !IsVerified(table, a) then after == row
            else if a.correct then after == Row(0, 0, None, None)
            else after.lastFailureAt == Some(a.countedAt)
                 && after.failures == if row.failures + 1 < policy.maxAttempts then row.failures + 1 else 0
  {
  }

  /** The seconds a person is told are the least whole number that outlasts the lockout. */
  lemma RemainingOutlasts(row: Row, now: int)
    requires row.lockedUntil.Some? && now < row.lockedUntil.value
    ensures var s := SecondsRemaining(row, now);
            (s - 1) * 1_000_000 <= row.lockedUntil.value - now < s * 1_000_000
  {
  }

  /** The first wait is the base, each later one twice the one before, none longer than the ceiling. */
  lemma WaitsDouble(policy: Policy, cycles: nat)
    ensures Wait(policy, 0) == if policy.baseSeconds <= policy.ceilingSeconds then policy.baseSeconds else policy.ceilingSeconds
    ensures var next := 2 * Wait(policy, cycles);
            Wait(policy, cycles + 1) == if next <= policy.ceilingSeconds then next else policy.ceilingSeconds
  {
  }

  /** Only a client's own verified attempts change its row. */
  lemma RowStep(policy: Policy, run: seq<Attempt>, k: nat, client: Client)
    requires k < |run|
    ensures var row := RowOf(Tables(policy, run, k), client);
            RowOf(Tables(policy, run, k + 1), client)
              == if run[k].client == client && VerifiedIn(policy, run, k)
                 then (if run[k].correct then NEW_ROW else Registered(row, policy, run[k].countedAt))
                 else row
  {
  }

  function Limit(policy: Policy): nat {
    if policy.maxAttempts == 0 then 1 else policy.maxAttempts
  }

  ghost predicate NoneCorrect(run: seq<Attempt>, client: Client) {
    forall i :: 0 <= i < |run| && run[i].client == client ==> !run[i].correct
  }

  /** `limit` failures for each of `cycles` lockouts. */
  ghost function Times(limit: nat, cycles: nat): nat {
    if cycles == 0 then 0 else Times(limit, cycles - 1) + limit
  }

  lemma {:induction false} TimesIsProduct(limit: nat, cycles: nat)
    ensures Times(limit, cycles) == limit * cycles
  {
    if cycles > 0 {
      TimesIsProduct(limit, cycles - 1);
      assert limit * cycles == limit * (cycles - 1) + limit;
    }
  }

  lemma {:induction false} TimesGrows(limit: nat, a: nat, b: nat)
    requires a <= b
    ensures Times(limit, a) <= Times(limit, b)
  {
    if a < b { TimesGrows(limit, a, b - 1); }
  }

  lemma {:induction false} Accounted(policy: Policy, run: seq<Attempt>, n: nat, client: Client)
    requires NoneCorrect(run, client) && n <= |run|
    ensures var row := RowOf(Tables(policy, run, n), client);
            && Verifications(policy, run, n, client) == Times(Limit(policy), row.lockoutCycles) + row.failures
            && row.failures < Limit(policy)
            && (row.lockedUntil.None? <==> row.lockoutCycles == 0)
  {
    if n > 0 {
      Accounted(policy, run, n - 1, client);
      RowStep(policy, run, n - 1, client);
    }
  }

  /** Every wrong password verified is accounted for: `maxAttempts` for each lockout so far, and the
      failures since the last one. */
  lemma {:induction false} FailuresAreConserved(policy: Policy, run: seq<Attempt>, n: nat, client: Client)
    requires NoneCorrect(run, client) && n <= |run|
    ensures var row := RowOf(Tables(policy, run, n), client);
            && Verifications(policy, run, n, client) == Limit(policy) * row.lockoutCycles + row.failures
            && row.failures < Limit(policy)
  {
    Accounted(policy, run, n, client);
    TimesIsProduct(Limit(policy), RowOf(Tables(policy, run, n), client).lockoutCycles);
  }

  /** A lockout, once armed, holds: nobody's password is verified before it ends, however many
      attempts are made meanwhile and whoever else is attempting. */
  lemma {:induction false} NothingVerifiedWhileLocked(policy: Policy, run: seq<Attempt>, j: nat, i: nat, client: Client)
    requires TakeTurns(run) && j <= i < |run|
    requires run[i].client == client && VerifiedIn(policy, run, i)
    requires RowOf(Tables(policy, run, j), client).lockedUntil.Some?
    ensures RowOf(Tables(policy, run, j), client).lockedUntil.value <= run[i].checkedAt
    decreases i - j
  {
    if j < i {
      RowStep(policy, run, j, client);
      if run[j].client == client && VerifiedIn(policy, run, j) {
        assert run[j].countedAt <= run[i].checkedAt;
      } else {
        NothingVerifiedWhileLocked(policy, run, j + 1, i, client);
      }
    }
  }

  // -- how many guesses fit into a time -------------------------------------------------------------

  /** The microseconds the first `c` lockouts last together. */
  function LockedTime(policy: Policy, c: nat): nat {
    if c == 0 then 0 else LockedTime(policy, c - 1) + Wait(policy, c - 1) * SECOND
  }

  lemma {:induction false} WaitsNeverShrink(policy: Policy, i: nat, j: nat)
    requires i <= j
    ensures Wait(policy, i) <= Wait(policy, j) <= policy.ceilingSeconds
  {
    if i < j { WaitsNeverShrink(policy, i, j - 1); }
  }

  lemma {:induction false} LockedTimeGrows(policy: Policy, i: nat, j: nat)
    requires i <= j
    ensures LockedTime(policy, i) <= LockedTime(policy, j)
  {
    if i < j { LockedTimeGrows(policy, i, j - 1); }
  }

  ghost predicate IsFirst(policy: Policy, run: seq<Attempt>, first: nat, client: Client) {
    && first < |run| && run[first].client == client && VerifiedIn(policy, run, first)
    && Verifications(policy, run, first, client) == 0
  }

  /** However early the attempts come, the lockouts behind a row lie end to end after the first failure. */
  lemma {:induction false} LockoutsLieEndToEnd(policy: Policy, run: seq<Attempt>, n: nat, client: Client, first: nat)
    requires TakeTurns(run) && NoneCorrect(run, client) && IsFirst(policy, run, first, client)
    requires first < n <= |run|
    ensures EndToEnd(policy, RowOf(Tables(policy, run, n), client), run[first].countedAt)
  {
    var k := n - 1;
    RowStep(policy, run, k, client);
    Accounted(policy, run, k, client);
    var row := RowOf(Tables(policy, run, k), client);
    if k == first {
      FirstHasNoLockout(policy, run, first, client);
    } else {
      LockoutsLieEndToEnd(policy, run, k, client, first);
    }
    if run[k].client == client && VerifiedIn(policy, run, k) {
      assert run[first].countedAt <= run[k].countedAt;
      OneMoreLockout(policy, row, run[first].countedAt, run[k]);
    }
  }

  ghost predicate EndToEnd(policy: Policy, row: Row, start: int) {
    row.lockedUntil.Some? ==> start + LockedTime(policy, row.lockoutCycles) <= row.lockedUntil.value
  }

  lemma OneMoreLockout(policy: Policy, row: Row, start: int, a: Attempt)
    requires EndToEnd(policy, row, start) && start <= a.countedAt && a.checkedAt <= a.countedAt
    requires SecondsRemaining(row, a.checkedAt) == 0
    requires row.lockedUntil.None? <==> row.lockoutCycles == 0
    ensures EndToEnd(policy, Registered(row, policy, a.countedAt), start)
  {
  }

  lemma FirstHasNoLockout(policy: Policy, run: seq<Attempt>, first: nat, client: Client)
    requires NoneCorrect(run, client) && IsFirst(policy, run, first, client)
    ensures RowOf(Tables(policy, run, first), client).lockoutCycles == 0
  {
    Accounted(policy, run, first, client);
  }

  /** At a verified attempt, the lockouts already served fit into the time since the first failure. */
  lemma ServedLockoutsFit(policy: Policy, run: seq<Attempt>, k: nat, client: Client, first: nat)
    requires TakeTurns(run) && NoneCorrect(run, client) && IsFirst(policy, run, first, client)
    requires first <= k < |run| && run[k].client == client && VerifiedIn(policy, run, k)
    ensures var row := RowOf(Tables(policy, run, k), client);
            row.lockoutCycles > 0 ==> LockedTime(policy, row.lockoutCycles) <= run[k].checkedAt - run[first].countedAt
  {
    if k == first {
      FirstHasNoLockout(policy, run, first, client);
    } else {
      LockoutsLieEndToEnd(policy, run, k, client, first);
      Accounted(policy, run, k, client);
    }
  }

  lemma {:induction false} GuessesInCycles(policy: Policy, run: seq<Attempt>, n: nat, client: Client, first: nat, elapsed: nat, c: nat)
    requires TakeTurns(run) && NoneCorrect(run, client) && IsFirst(policy, run, first, client)
    requires first <= n <= |run|
    requires forall i :: first <= i < n && run[i].client == client ==> run[i].checkedAt <= run[first].countedAt + elapsed
    requires LockedTime(policy, c + 1) > elapsed
    ensures Verifications(policy, run, n, client) <= Times(Limit(policy), c + 1)
  {
    if n > first {
      var k := n - 1;
      if run[k].client == client && VerifiedIn(policy, run, k) {
        var row := RowOf(Tables(policy, run, k), client);
        Accounted(policy, run, k, client);
        ServedLockoutsFit(policy, run, k, client, first);
        FewCycles(policy, row.lockoutCycles, c, elapsed);
        TimesGrows(Limit(policy), row.lockoutCycles + 1, c + 1);
      } else {
        GuessesInCycles(policy, run, k, client, first, elapsed, c);
      }
    }
  }

  lemma FewCycles(policy: Policy, cycles: nat, c: nat, elapsed: nat)
    requires LockedTime(policy, c + 1) > elapsed
    requires cycles > 0 ==> LockedTime(policy, cycles) <= elapsed
    ensures cycles <= c
  {
    if cycles > c { LockedTimeGrows(policy, c + 1, cycles); }
  }

  /** Guesses over time: whoever the other clients are and however the attempts arrive, the wrong
      passwords one client gets verified within `elapsed` of its first counted failure number at
      most `maxAttempts * (c + 1)`, where `c + 1` lockouts no longer fit into `elapsed`. */
  lemma {:induction false} GuessesAreBounded(policy: Policy, run: seq<Attempt>, n: nat, client: Client, first: nat, elapsed: nat, c: nat)
    requires TakeTurns(run) && NoneCorrect(run, client) && IsFirst(policy, run, first, client)
    requires first <= n <= |run|
    requires forall i :: first <= i < n && run[i].client == client ==> run[i].checkedAt <= run[first].countedAt + elapsed
    requires LockedTime(policy, c + 1) > elapsed
    ensures Verifications(policy, run, n, client) <= Limit(policy) * (c + 1)
  {
    GuessesInCycles(policy, run, n, client, first, elapsed, c);
    TimesIsProduct(Limit(policy), c + 1);
  }

  // -- the bound is reached ---------------------------------------------------------------------------

  /** A client that never wastes a moment: `maxAttempts` wrong passwords as soon as each lockout ends. */
  ghost function Burst(client: Client, at: int, n: nat): seq<Attempt> {
    if n == 0 then [] else Burst(client, at, n - 1) + [Attempt(client, at, at, false)]
  }

  ghost function Relentless(policy: Policy, client: Client, c: nat): seq<Attempt> {
    (if c == 0 then [] else Relentless(policy, client, c - 1))
    + Burst(client, LockedTime(policy, c), Limit(policy))
  }

  lemma {:induction false} PrefixDecides(policy: Policy, run: seq<Attempt>, more: seq<Attempt>, n: nat, client: Client)
    requires n <= |run|
    ensures Tables(policy, run + more, n) == Tables(policy, run, n)
    ensures Verifications(policy, run + more, n, client) == Verifications(policy, run, n, client)
  {
    if n > 0 { PrefixDecides(policy, run, more, n - 1, client); }
  }

  ghost predicate Reaches(policy: Policy, run: seq<Attempt>, client: Client, row: Row, verified: nat) {
    && RowOf(Tables(policy, run, |run|), client).(lastFailureAt := None) == row
    && Verifications(policy, run, |run|, client) == verified
  }

  lemma OneMoreReaches(policy: Policy, run: seq<Attempt>, a: Attempt, row: Row, verified: nat)
    requires Reaches(policy, run, a.client, row, verified)
    requires !a.correct && (row.lockedUntil.Some? ==> row.lockedUntil.value <= a.checkedAt)
    ensures Reaches(policy, run + [a], a.client, Registered(row, policy, a.countedAt).(lastFailureAt := None), verified + 1)
  {
    PrefixDecides(policy, run, [a], |run|, a.client);
    RowStep(policy, run + [a], |run|, a.client);
  }

  /** A row `n` failures into a burst at `at`: locked once they reach the limit. */
  ghost function Into(policy: Policy, row: Row, at: int, n: nat): Row {
    if n < Limit(policy) then Row(n, row.lockoutCycles, row.lockedUntil, None)
    else Row(0, row.lockoutCycles + 1, Some(at + Wait(policy, row.lockoutCycles) * SECOND), None)
  }

  lemma {:induction false} BurstIsVerified(policy: Policy, run: seq<Attempt>, client: Client, at: int, n: nat, row: Row,
                                         verified: nat)
    requires Reaches(policy, run, client, row, verified) && row.failures == 0 && row.lastFailureAt == None
    requires row.lockedUntil.Some? ==> row.lockedUntil.value <= at
    requires n <= Limit(policy)
    ensures Reaches(policy, run + Burst(client, at, n), client, Into(policy, row, at, n), verified + n)
  {
    if n == 0 {
      assert run + Burst(client, at, 0) == run;
    } else {
      BurstIsVerified(policy, run, client, at, n - 1, row, verified);
      var before := run + Burst(client, at, n - 1);
      var a := Attempt(client, at, at, false);
      assert run + Burst(client, at, n) == before + [a];
      hide Reaches, Registered, Burst, Wait, Tables, Verifications;
      OneMoreReaches(policy, before, a, Into(policy, row, at, n - 1), verified + n - 1);
      OneMoreInto(policy, row, at, n - 1);
    }
  }

  lemma OneMoreInto(policy: Policy, row: Row, at: int, n: nat)
    requires n < Limit(policy)
    ensures Registered(Into(policy, row, at, n), policy, at).(lastFailureAt := None) == Into(policy, row, at, n + 1)
  {
  }

  lemma FullBurst(policy: Policy, run: seq<Attempt>, client: Client, row: Row, c: nat)
    requires Reaches(policy, run, client, row, Times(Limit(policy), c))
    requires row.failures == 0 && row.lockoutCycles == c && row.lastFailureAt == None
    requires row.lockedUntil.Some? ==> row.lockedUntil.value == LockedTime(policy, c)
    ensures Reaches(policy, run + Burst(client, LockedTime(policy, c), Limit(policy)), client,
                    Row(0, c + 1, Some(LockedTime(policy, c + 1)), None), Times(Limit(policy), c + 1))
  {
    BurstIsVerified(policy, run, client, LockedTime(policy, c), Limit(policy), row, Times(Limit(policy), c));
  }

  /** The bound on guesses is exact: for every `c`, a run reaches it within the time of `c` lockouts. */
  lemma {:induction false} BoundIsReached(policy: Policy, client: Client, c: nat)
    ensures Reaches(policy, Relentless(policy, client, c), client,
                    Row(0, c + 1, Some(LockedTime(policy, c + 1)), None), Times(Limit(policy), c + 1))
  {
    if c == 0 {
      FullBurst(policy, [], client, NEW_ROW, 0);
    } else {
      BoundIsReached(policy, client, c - 1);
      FullBurst(policy, Relentless(policy, client, c - 1), client, Row(0, c, Some(LockedTime(policy, c)), None), c);
    }
  }

  /** Every attempt of the relentless run is a wrong password of that client's, within that time. */
  lemma {:induction false} RelentlessIsInTime(policy: Policy, client: Client, c: nat)
    ensures forall a :: a in Relentless(policy, client, c) ==>
              a.client == client && !a.correct && 0 <= a.checkedAt == a.countedAt <= LockedTime(policy, c)
  {
    BurstMembers(client, LockedTime(policy, c), Limit(policy));
    if c > 0 { RelentlessIsInTime(policy, client, c - 1); }
  }

  lemma {:induction false} BurstMembers(client: Client, at: int, n: nat)
    ensures forall a :: a in Burst(client, at, n) ==> a == Attempt(client, at, at, false)
  {
    if n > 0 { BurstMembers(client, at, n - 1); }
  }
}
