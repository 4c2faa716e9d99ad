/** The sign-in throttle (`throttle.py`): several counters an attempt, each with its own limit, decay and
escalation. A counter's row is made if absent and locked as one step; the rows stay locked from the
check to the count. Times are whole microseconds. */
module AuthThrottle {
  import opened Outcomes
  import opened Ordering
  import GateThrottle

  type Row = GateThrottle.Row
  type Policy = GateThrottle.Policy
  type Policies = string -> Policy

  const SECOND := GateThrottle.SECOND
  const FAILURE_WINDOW := 3600 * SECOND
  const ESCALATION_RESET := 24 * 3600 * SECOND

  datatype Counter = Counter(scope: string, key: string)
  type Table = map<Counter, Row>

  const CLEARABLE := {"SIGN_IN_PAIR", "SIGN_IN_ACCOUNT", "SECOND_FACTOR", "REAUTHENTICATION", "PASSWORD_CHANGE"}

  predicate CounterLeq(a: Counter, b: Counter) {
    if a.scope != b.scope then TextLeq(a.scope, b.scope) else TextLeq(a.key, b.key)
  }

  lemma CountersAreOrdered()
    ensures TotalOrder(CounterLeq)
  {
    TextIsTotalOrder();
    forall a, b, c | CounterLeq(a, b) && CounterLeq(b, c) ensures CounterLeq(a, c) {
      if a.scope != b.scope && b.scope != c.scope && a.scope == c.scope {
        TextAntisymmetric(a.scope, b.scope);
      }
    }
  }

  /** The rows an attempt takes, and the order it takes them in. */
  function Ordered(counters: seq<Counter>): seq<Counter> { Sort(Dedupe(counters), CounterLeq) }

  lemma OrderedIs(counters: seq<Counter>)
    ensures forall c :: c in Ordered(counters) <==> c in counters
    ensures Sorted(Ordered(counters), CounterLeq) && Distinct(Ordered(counters))
  {
    CountersAreOrdered();
    var d := Dedupe(counters);
    SortKeepsElements(d, CounterLeq);
    SortSorts(d, CounterLeq);
    MultisetDistinct(d, Ordered(counters));
  }

  // -- one counter ---------------------------------------------------------------------------------

  /** What still counts after a quiet period. */
  function Decayed(row: Row, now: int): Row {
    if row.lastFailureAt.None? then row
    else
      var quiet := now - row.lastFailureAt.value;
      if quiet > ESCALATION_RESET then row.(failures := 0, lockoutCycles := 0)
      else if quiet > FAILURE_WINDOW then row.(failures := 0)
      else row
  }

  /** The row after one more failure. */
  function Failed(row: Row, policy: Policy, now: int): Row {
    GateThrottle.Registered(Decayed(row, now), policy, now)
  }

  class AuthenticationThrottle {
    var failures: nat
    var lockoutCycles: nat
    var lockedUntil: Option<int>
    var lastFailureAt: Option<int>

    constructor (row: Row)
      ensures Stored() == row
    {
      failures, lockoutCycles := row.failures, row.lockoutCycles;
      lockedUntil, lastFailureAt := row.lockedUntil, row.lastFailureAt;
    }

    function Stored(): Row
      reads this
    {
      GateThrottle.Row(failures, lockoutCycles, lockedUntil, lastFailureAt)
    }

    method RegisterFailure(policy: Policy, now: int) returns (seconds: nat)
      modifies this
      ensures Stored() == Failed(old(Stored()), policy, now)
      ensures seconds == if failures == 0 then GateThrottle.Wait(policy, Decayed(old(Stored()), now).lockoutCycles) else 0
    {
      if lastFailureAt.Some? {
        var quiet := now - lastFailureAt.value;
        if quiet > ESCALATION_RESET {
          lockoutCycles, failures := 0, 0;
        } else if quiet > FAILURE_WINDOW {
          failures := 0;
        }
      }
      failures := failures + 1;
      lastFailureAt := Some(now);
      seconds := 0;
      if failures >= policy.maxAttempts {
        seconds := GateThrottle.Wait(policy, lockoutCycles);
        lockedUntil := Some(now + seconds * SECOND);
        lockoutCycles := lockoutCycles + 1;
        failures := 0;
      }
    }
  }

  // -- one attempt -------------------------------------------------------------------------------------

  function RowOf(table: Table, c: Counter): Row {
    if c in table then table[c] else GateThrottle.NEW_ROW
  }

  function Remaining(table: Table, c: Counter, now: int): nat { GateThrottle.SecondsRemaining(RowOf(table, c), now) }

  /** Every counter charged lets the attempt through, but for the scopes it is exempt from. */
  predicate Free(table: Table, counters: seq<Counter>, ignoring: set<string>, now: int) {
    forall c :: c in counters && c.scope !in ignoring ==> Remaining(table, c, now) == 0
  }

  function Counted(table: Table, counters: seq<Counter>, policies: Policies, now: int): Table {
    map c | c in table.Keys + (set d | d in counters) ::
      if c in counters then Failed(RowOf(table, c), policies(c.scope), now) else table[c]
  }

  lemma OneMoreCounted(table: Table, done: seq<Counter>, c: Counter, policies: Policies, now: int)
    requires c !in done
    ensures RowOf(Counted(table, done, policies, now), c) == RowOf(table, c)
    ensures Counted(table, done + [c], policies, now)
            == Counted(table, done, policies, now)[c := Failed(RowOf(table, c), policies(c.scope), now)]
  {
    hide Failed;
  }

  lemma NoneCounted(table: Table, policies: Policies, now: int)
    ensures Counted(table, [], policies, now) == table
  {
  }

  /** Holding counters makes the rows there are not. */
  function Taken(table: Table, counters: seq<Counter>): Table {
    map c | c in table.Keys + (set d | d in counters) :: RowOf(table, c)
  }

  function Cleared(table: Table, counters: seq<Counter>): Table {
    map c | c in table && !(c in counters && c.scope in CLEARABLE) :: table[c]
  }

  datatype Attempt = Attempt(
    counters: seq<Counter>,
    ignoring: set<string>,
    checkedAt: int,
    countedAt: int,
    correct: bool)

  predicate IsVerified(table: Table, a: Attempt) { Free(table, a.counters, a.ignoring, a.checkedAt) }

  function After(table: Table, policies: Policies, a: Attempt): Table {
    var held := Taken(table, a.counters);
    if !IsVerified(table, a) then held
    else if a.correct then Cleared(held, a.counters)
    else Counted(held, a.counters, policies, a.countedAt)
  }

  class Counters {
    var rows: Table
    const policies: Policies

    constructor (policies: Policies)
      ensures rows == map[] && this.policies == policies
    {
      rows, this.policies := map[], policies;
    }

    /** `holding`: every counter's row, made if absent. */
    method Hold(held: seq<Counter>)
      modifies this`rows
      ensures rows == Taken(old(rows), held)
    {
      ghost var before := rows;
      for i := 0 to |held|
        invariant rows == Taken(before, held[..i])
      {
        if held[i] !in rows { rows := rows[held[i] := GateThrottle.NEW_ROW]; }
        assert held[..i + 1] == held[..i] + [held[i]];
      }
      assert held[..|held|] == held;
    }

    /** `Held.wait`: the longest lockout among the held rows. */
    method Wait(held: seq<Counter>, ignoring: set<string>, now: int) returns (seconds: nat)
      ensures seconds == 0 <==> Free(rows, held, ignoring, now)
      ensures forall c :: c in held && c.scope !in ignoring ==> Remaining(rows, c, now) <= seconds
      ensures seconds > 0 ==> exists c :: c in held && c.scope !in ignoring && Remaining(rows, c, now) == seconds
    {
      seconds := 0;
      for i := 0 to |held|
        invariant forall c :: c in held[..i] && c.scope !in ignoring ==> Remaining(rows, c, now) <= seconds
        invariant seconds > 0 ==> exists c :: c in held && c.scope !in ignoring && Remaining(rows, c, now) == seconds
      {
        if held[i].scope !in ignoring {
          seconds := if Remaining(rows, held[i], now) > seconds then Remaining(rows, held[i], now) else seconds;
        }
        assert held[..i + 1] == held[..i] + [held[i]];
      }
      assert held[..|held|] == held;
    }

    /** `Held.fail`: one failure against every held row. */
    method Fail(held: seq<Counter>, now: int)
      requires Distinct(held)
      modifies this`rows
      ensures rows == Counted(old(rows), held, policies, now)
    {
      hide Counted, Failed, RowOf;
      ghost var before := rows;
      assert rows == Counted(before, held[..0], policies, now) by { NoneCounted(before, policies, now); }
      for i := 0 to |held|
        invariant rows == Counted(before, held[..i], policies, now)
      {
        var c := held[i];
        OneMoreCounted(before, held[..i], c, policies, now);
        var row := new AuthenticationThrottle(RowOf(rows, c));
        var _ := row.RegisterFailure(policies(c.scope), now);
        rows := rows[c := row.Stored()];
        assert held[..i + 1] == held[..i] + [c];
      }
      assert held[..|held|] == held;
    }

    /** `Held.succeed`: the clearable rows go, and only those. */
    method Succeed(held: seq<Counter>)
      modifies this`rows
      ensures rows == Cleared(old(rows), held)
    {
      rows := map c | c in rows && !(c in held && c.scope in CLEARABLE) :: rows[c];
    }

    /** Check, verify and count, as every caller does under the held rows. */
    method Try(a: Attempt) returns (verified: bool)
      modifies this`rows
      ensures verified == IsVerified(old(rows), a)
      ensures rows == After(old(rows), policies, a)
    {
      var held := Ordered(a.counters);
      OrderedIs(a.counters);
      SameCounters(rows, held, a.counters, policies, a.countedAt);
      TakenReads(rows, held);
      ghost var before := rows;
      Hold(held);
      var wait := Wait(held, a.ignoring, a.checkedAt);
      verified := wait == 0;
      assert verified == IsVerified(before, a);
      if !verified { return; }
      SameCounters(rows, held, a.counters, policies, a.countedAt);
      if a.correct {
        Succeed(held);
      } else {
        Fail(held, a.countedAt);
      }
    }
  }

  lemma TakenReads(table: Table, counters: seq<Counter>)
    ensures forall c :: RowOf(Taken(table, counters), c) == RowOf(table, c)
  {
  }

  /** Only which counters are named matters, not in what order. */
  lemma SameCounters(table: Table, held: seq<Counter>, counters: seq<Counter>, policies: Policies, now: int)
    requires forall c :: c in held <==> c in counters
    ensures Taken(table, held) == Taken(table, counters)
    ensures Cleared(table, held) == Cleared(table, counters)
    ensures Counted(table, held, policies, now) == Counted(table, counters, policies, now)
  {
  }

  // -- how fast one counter lets failures through ------------------------------------------------------------

  ghost function Tables(policies: Policies, run: seq<Attempt>, n: nat): Table
    requires n <= |run|
  {
    if n == 0 then map[] else After(Tables(policies, run, n - 1), policies, run[n - 1])
  }

  /** Attempts that share a counter take turns on a monotone clock. */
  ghost predicate TakeTurns(run: seq<Attempt>, c: Counter) {
    && (forall i :: 0 <= i < |run| ==> run[i].checkedAt <= run[i].countedAt)
    && (forall i, j :: 0 <= i < j < |run| && c in run[i].counters && c in run[j].counters ==>
          run[i].countedAt <= run[j].checkedAt)
  }

  /** Nobody is exempt from this counter, and nobody clears it. */
  ghost predicate Counts(run: seq<Attempt>, c: Counter) {
    forall a :: a in run && c in a.counters ==> c.scope !in a.ignoring && (c.scope in CLEARABLE ==> !a.correct)
  }

  /** Attempt `k` is verified, wrong, and charged to `c`. */
  ghost predicate Charged(policies: Policies, run: seq<Attempt>, k: nat, c: Counter)
    requires k < |run|
  {
    c in run[k].counters && !run[k].correct && IsVerified(Tables(policies, run, k), run[k])
  }

  ghost function Failures(policies: Policies, run: seq<Attempt>, i: nat, n: nat, c: Counter): nat
    requires i <= n <= |run|
  {
    if i == n then 0
    else Failures(policies, run, i, n - 1, c) + (if Charged(policies, run, n - 1, c) then 1 else 0)
  }

  lemma RowStep(policies: Policies, run: seq<Attempt>, k: nat, c: Counter)
    requires k < |run| && Counts(run, c)
    ensures var row := RowOf(Tables(policies, run, k), c);
            RowOf(Tables(policies, run, k + 1), c)
              == if Charged(policies, run, k, c) then Failed(row, policies(c.scope), run[k].countedAt) else row
  {
    hide Failed;
    assert run[k] in run;
    var table := Tables(policies, run, k);
    TakenReads(table, run[k].counters);
    if IsVerified(table, run[k]) && run[k].correct {
      SuccessForgivesOnlyItsOwn(table, policies, run[k], c);
    }
  }

  function Limit(policy: Policy): nat { GateThrottle.Limit(policy) }

  /** The shortest lockout, or the failure window if that is shorter. */
  function Pace(policy: Policy): nat {
    var wait := GateThrottle.Wait(policy, 0) * SECOND;
    if wait <= FAILURE_WINDOW then wait else FAILURE_WINDOW
  }

  /** Since a failure at `start`, `k` are counted towards a lockout, or one is armed past the pace. */
  ghost predicate Paced(policy: Policy, row: Row, start: int, k: nat) {
    || (k <= Limit(policy) && row.lockedUntil.Some? && row.lockedUntil.value >= start + Pace(policy))
    || (k <= row.failures < Limit(policy) && row.lastFailureAt.Some? && start <= row.lastFailureAt.value)
  }

  lemma OneMoreFailure(policy: Policy, row: Row, start: int, k: nat, now: int)
    requires k == 0 || (Paced(policy, row, start, k) && !(row.lockedUntil.Some? && row.lockedUntil.value >= start + Pace(policy)))
    requires k > 0 ==> row.lastFailureAt.value <= now
    requires k == 0 ==> now == start
    requires start <= now < start + Pace(policy)
    ensures Paced(policy, Failed(row, policy, now), start, k + 1)
  {
    GateThrottle.WaitsNeverShrink(policy, 0, Decayed(row, now).lockoutCycles);
  }

  lemma {:induction false} LastFailureIsPast(policies: Policies, run: seq<Attempt>, n: nat, k: nat, c: Counter)
    requires TakeTurns(run, c) && Counts(run, c) && n <= k < |run| && c in run[k].counters
    ensures var last := RowOf(Tables(policies, run, n), c).lastFailureAt; last.Some? ==> last.value <= run[k].checkedAt
  {
    if n > 0 {
      LastFailureIsPast(policies, run, n - 1, k, c);
      RowStep(policies, run, n - 1, c);
    }
  }

  ghost predicate AllWithin(policies: Policies, run: seq<Attempt>, i: nat, n: nat, c: Counter, before: int)
    requires i <= n <= |run|
  {
    forall k :: i <= k < n && Charged(policies, run, k, c) ==> run[k].countedAt < before
  }

  lemma {:induction false} PacedSince(policies: Policies, run: seq<Attempt>, i: nat, n: nat, c: Counter)
    requires TakeTurns(run, c) && Counts(run, c) && i < n <= |run| && Charged(policies, run, i, c)
    requires AllWithin(policies, run, i, n, c, run[i].countedAt + Pace(policies(c.scope)))
    ensures Paced(policies(c.scope), RowOf(Tables(policies, run, n), c), run[i].countedAt, Failures(policies, run, i, n, c))
    ensures Failures(policies, run, i, n, c) > 0
  {
    hide Failed, After, Paced;
    var k, policy, start := n - 1, policies(c.scope), run[i].countedAt;
    var row := RowOf(Tables(policies, run, k), c);
    RowStep(policies, run, k, c);
    if k == i {
      OneMoreFailure(policy, row, start, 0, start);
    } else {
      PacedSince(policies, run, i, k, c);
      if Charged(policies, run, k, c) {
        LastFailureIsPast(policies, run, k, k, c);
        NotLockedWhenCharged(policies, run, k, c);
        PacedRow(policy, row, start, Failures(policies, run, i, k, c), run[k].countedAt);
        OneMoreFailure(policy, row, start, Failures(policies, run, i, k, c), run[k].countedAt);
      }
    }
  }

  /** With no lockout in force at `now`, it is the count that is paced. */
  lemma PacedRow(policy: Policy, row: Row, start: int, k: nat, now: int)
    requires Paced(policy, row, start, k) && now < start + Pace(policy)
    requires row.lockedUntil.Some? ==> row.lockedUntil.value <= now
    ensures !(row.lockedUntil.Some? && row.lockedUntil.value >= start + Pace(policy)) && row.lastFailureAt.Some?
  {
  }

  lemma {:induction false} NotLockedWhenCharged(policies: Policies, run: seq<Attempt>, k: nat, c: Counter)
    requires TakeTurns(run, c) && Counts(run, c) && k < |run| && Charged(policies, run, k, c)
    ensures var until := RowOf(Tables(policies, run, k), c).lockedUntil; until.Some? ==> until.value <= run[k].countedAt
  {
    assert run[k] in run;
    assert Remaining(Tables(policies, run, k), c, run[k].checkedAt) == 0;
  }

  /** However attempts on other counters fall between, and through decay, lockouts and escalation: no
      stretch of time shorter than the first lockout - or than the failure window - sees more failures
      verified against one counter than its limit. */
  lemma {:induction false} AnyWindowHoldsFew(policies: Policies, run: seq<Attempt>, i: nat, n: nat, c: Counter)
    requires TakeTurns(run, c) && Counts(run, c) && i <= n <= |run|
    requires i < n ==> Charged(policies, run, i, c)
                       && AllWithin(policies, run, i, n, c, run[i].countedAt + Pace(policies(c.scope)))
    ensures Failures(policies, run, i, n, c) <= Limit(policies(c.scope))
  {
    if i < n { PacedSince(policies, run, i, n, c); }
  }

  lemma {:induction false} FailuresSplit(policies: Policies, run: seq<Attempt>, i: nat, j: nat, n: nat, c: Counter)
    requires i <= j <= n <= |run|
    ensures Failures(policies, run, i, n, c) == Failures(policies, run, i, j, c) + Failures(policies, run, j, n, c)
  {
    if j < n { FailuresSplit(policies, run, i, j, n - 1, c); }
  }

  /** The first charged attempt outside the window that opens at `i`, or `n`. */
  lemma {:induction false} FirstOutside(policies: Policies, run: seq<Attempt>, i: nat, n: nat, c: Counter, before: int) returns (j: nat)
    requires i <= n <= |run|
    ensures i <= j <= n && AllWithin(policies, run, i, j, c, before)
    ensures j < n ==> Charged(policies, run, j, c) && run[j].countedAt >= before
    decreases n - i
  {
    hide Charged;
    if i == n || (Charged(policies, run, i, c) && run[i].countedAt >= before) {
      j := i;
    } else {
      j := FirstOutside(policies, run, i + 1, n, c, before);
    }
  }

  lemma {:induction false} RateInSteps(policies: Policies, run: seq<Attempt>, i: nat, n: nat, c: Counter, q: nat)
    requires TakeTurns(run, c) && Counts(run, c) && i < n <= |run| && Charged(policies, run, i, c)
    requires AllWithin(policies, run, i, n, c, run[i].countedAt + GateThrottle.Times(Pace(policies(c.scope)), q))
    ensures Failures(policies, run, i, n, c) <= GateThrottle.Times(Limit(policies(c.scope)), q)
    decreases q
  {
    hide Charged, Failures, Limit, Pace;
    var pace := Pace(policies(c.scope));
    if q > 0 {
      var j := FirstOutside(policies, run, i, n, c, run[i].countedAt + pace);
      AnyWindowHoldsFew(policies, run, i, j, c);
      FailuresSplit(policies, run, i, j, n, c);
      if j < n {
        RateInSteps(policies, run, j, n, c, q - 1);
      } else {
        NoneLeft(policies, run, n, c);
      }
    }
  }

  lemma NoneLeft(policies: Policies, run: seq<Attempt>, n: nat, c: Counter)
    requires n <= |run|
    ensures Failures(policies, run, n, n, c) == 0
  {
  }

  /** Over any length of time: at most the limit for every pace begun. Nothing a client does - waiting for
      the decay, waiting out lockouts, a day's silence - buys it more. */
  lemma {:induction false} FailuresAreRateLimited(policies: Policies, run: seq<Attempt>, i: nat, n: nat, c: Counter, q: nat)
    requires TakeTurns(run, c) && Counts(run, c) && i < n <= |run| && Charged(policies, run, i, c)
    requires AllWithin(policies, run, i, n, c, run[i].countedAt + Pace(policies(c.scope)) * q)
    ensures Failures(policies, run, i, n, c) <= Limit(policies(c.scope)) * q
  {
    GateThrottle.TimesIsProduct(Pace(policies(c.scope)), q);
    GateThrottle.TimesIsProduct(Limit(policies(c.scope)), q);
    RateInSteps(policies, run, i, n, c, q);
  }

  /** A correct attempt forgives nothing outside what it was charged to, and never a network's count. */
  lemma SuccessForgivesOnlyItsOwn(table: Table, policies: Policies, a: Attempt, c: Counter)
    requires IsVerified(table, a) && a.correct
    ensures RowOf(After(table, policies, a), c)
            == if c in a.counters && c.scope in CLEARABLE then GateThrottle.NEW_ROW else RowOf(table, c)
    ensures c.scope == "SIGN_IN_NETWORK" ==> RowOf(After(table, policies, a), c) == RowOf(table, c)
  {
  }

  // -- locks taken in one order ----------------------------------------------------------------------------

  /** An attempt on its way: it holds the first `held` of the rows it takes. */
  datatype Taker = Taker(order: seq<Counter>, held: nat)

  predicate Taking(t: Taker) { t.held < |t.order| }

  predicate Holds(t: Taker, c: Counter) { t.held <= |t.order| && c in t.order[..t.held] }

  ghost predicate Takers(ts: seq<Taker>) {
    forall k :: 0 <= k < |ts| ==> ts[k].held <= |ts[k].order| && Sorted(ts[k].order, CounterLeq) && Distinct(ts[k].order)
  }

  ghost predicate CanTake(ts: seq<Taker>, k: nat)
    requires k < |ts|
  {
    Taking(ts[k]) && forall j :: 0 <= j < |ts| ==> !Holds(ts[j], ts[k].order[ts[k].held])
  }

  /** The taker that waits for the greatest row. */
  lemma {:induction false} Greatest(ts: seq<Taker>) returns (k: nat)
    requires ts != [] && forall j :: 0 <= j < |ts| ==> ts[j].held < |ts[j].order|
    ensures k < |ts|
    ensures forall j :: 0 <= j < |ts| ==> CounterLeq(ts[j].order[ts[j].held], ts[k].order[ts[k].held])
  {
    hide CounterLeq;
    CountersAreOrdered();
    var n := |ts| - 1;
    if n == 0 {
      k := 0;
    } else {
      k := Greatest(ts[..n]);
      var last, best := ts[n].order[ts[n].held], ts[k].order[ts[k].held];
      assert forall j :: 0 <= j < n ==> ts[j] == ts[..n][j];
      if !CounterLeq(last, best) { k := n; }
    }
  }

  /** Attempts never deadlock: however many overlap, one of them has every row it needs or can take its
      next one. */
  lemma {:induction false} SomebodyMovesOn(ts: seq<Taker>)
    requires ts != [] && Takers(ts)
    ensures exists k :: 0 <= k < |ts| && (!Taking(ts[k]) || CanTake(ts, k))
  {
    if forall j :: 0 <= j < |ts| ==> Taking(ts[j]) {
      var k := Greatest(ts);
      var wanted := ts[k].order[ts[k].held];
      forall j | 0 <= j < |ts| ensures !Holds(ts[j], wanted) {
        HeldIsBelowWanted(ts[j], wanted);
      }
      assert CanTake(ts, k);
    }
  }

  lemma HeldIsBelowWanted(t: Taker, c: Counter)
    requires Taking(t) && Sorted(t.order, CounterLeq) && Distinct(t.order)
    requires CounterLeq(t.order[t.held], c)
    ensures !Holds(t, c)
  {
    forall i | 0 <= i < t.held ensures t.order[i] != c {
      NotBelow(t.order[i], t.order[t.held], c);
    }
  }

  lemma NotBelow(a: Counter, b: Counter, c: Counter)
    requires CounterLeq(a, b) && a != b && CounterLeq(b, c)
    ensures a != c
  {
    CountersAreOrdered();
  }
}
