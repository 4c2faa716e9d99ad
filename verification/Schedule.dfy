/** The greedy schedule behind `partition`, and how far from optimal it can be.

Files are numbered in the order they are handed out, heaviest first; an
assignment gives each its shard. `Assign` is the greedy rule: each file goes to
the shard that is lightest so far, the lowest-numbered one on a tie.
 */
module Schedule {

  /** The weight the first `n` files put on shard `j`. */
  function Load(w: seq<real>, a: seq<nat>, n: nat, j: nat): real
    requires n <= |w| && n <= |a|
  {
    if n == 0 then 0.0
    else Load(w, a, n - 1, j) + (if a[n - 1] == j then w[n - 1] else 0.0)
  }

  function Loads(w: seq<real>, a: seq<nat>, n: nat, m: nat): (l: seq<real>)
    requires n <= |w| && n <= |a|
    ensures |l| == m
    ensures forall j :: 0 <= j < m ==> l[j] == Load(w, a, n, j)
  {
    seq(m, j requires 0 <= j < m => Load(w, a, n, j))
  }

  /** The lightest shard, and the first of them when several are equally light. */
  function Lightest(load: seq<real>): (i: nat)
    requires |load| > 0
    ensures i < |load|
    ensures forall j :: 0 <= j < |load| ==> load[i] <= load[j]
    ensures forall j :: 0 <= j < i ==> load[i] < load[j]
  {
    if |load| == 1 then 0
    else
      var last := |load| - 1;
      var i := Lightest(load[..last]);
      assert forall j :: 0 <= j < last ==> load[..last][j] == load[j];
      if load[last] < load[i] then last else i
  }

  /** The greedy assignment of the first `n` files to `m` shards. */
  function Assign(w: seq<real>, m: nat, n: nat): (a: seq<nat>)
    requires m >= 1 && n <= |w|
    ensures |a| == n
    ensures forall k :: 0 <= k < n ==> a[k] < m
  {
    if n == 0 then []
    else
      var a := Assign(w, m, n - 1);
      a + [Lightest(Loads(w, a, n - 1, m))]
  }

  /** File `k` went to a shard that was lightest when it was handed out, the first such. */
  ghost predicate WentToLightest(w: seq<real>, m: nat, a: seq<nat>, k: nat)
    requires k < |w| && k < |a|
  {
    && a[k] < m
    && (forall j :: 0 <= j < m ==> Load(w, a, k, a[k]) <= Load(w, a, k, j))
    && (forall j :: 0 <= j < a[k] ==> Load(w, a, k, a[k]) < Load(w, a, k, j))
  }

  ghost predicate Greedy(w: seq<real>, m: nat, a: seq<nat>) {
    |a| == |w| && forall k :: 0 <= k < |a| ==> WentToLightest(w, m, a, k)
  }

  lemma {:induction false} LoadReadsPrefix(w: seq<real>, a: seq<nat>, b: seq<nat>, n: nat, j: nat)
    requires n <= |w| && n <= |a| && n <= |b|
    requires forall k :: 0 <= k < n ==> a[k] == b[k]
    ensures Load(w, a, n, j) == Load(w, b, n, j)
  {
    if n > 0 { LoadReadsPrefix(w, a, b, n - 1, j); }
  }

  lemma {:induction false} AssignExtends(w: seq<real>, m: nat, k: nat, n: nat)
    requires m >= 1 && k <= n <= |w|
    ensures Assign(w, m, n)[..k] == Assign(w, m, k)
  {
    if k < n { AssignExtends(w, m, k, n - 1); }
  }

  lemma AssignIsGreedy(w: seq<real>, m: nat)
    requires m >= 1
    ensures Greedy(w, m, Assign(w, m, |w|))
  {
    var a := Assign(w, m, |w|);
    forall k | 0 <= k < |a| ensures WentToLightest(w, m, a, k) {
      AssignExtends(w, m, k, |w|);
      AssignExtends(w, m, k + 1, |w|);
      var before := Assign(w, m, k);
      assert a[k] == a[..k + 1][k] == Lightest(Loads(w, before, k, m));
      forall j | 0 <= j < m ensures Load(w, a, k, j) == Loads(w, before, k, m)[j] {
        assert forall t :: 0 <= t < k ==> a[t] == a[..k][t] == before[t];
        LoadReadsPrefix(w, a, before, k, j);
      }
    }
  }

  /** The greedy rule leaves no choice: only one assignment follows it. */
  lemma {:induction false} GreedyIsUnique(w: seq<real>, m: nat, a: seq<nat>, b: seq<nat>, n: nat)
    requires Greedy(w, m, a) && Greedy(w, m, b) && n <= |w|
    ensures a[..n] == b[..n]
  {
    if n > 0 {
      var k := n - 1;
      GreedyIsUnique(w, m, a, b, k);
      assert forall t :: 0 <= t < k ==> a[t] == a[..k][t] == b[..k][t] == b[t];
      LoadReadsPrefix(w, a, b, k, a[k]);
      LoadReadsPrefix(w, a, b, k, b[k]);
      assert WentToLightest(w, m, a, k) && WentToLightest(w, m, b, k);
      assert a[k] == b[k];
      assert a[..n] == a[..k] + [a[k]] && b[..n] == b[..k] + [b[k]];
    }
  }

  // -- conservation: the shards together carry everything -----------------------

  function Total(w: seq<real>, n: nat): real
    requires n <= |w|
  {
    if n == 0 then 0.0 else Total(w, n - 1) + w[n - 1]
  }

  /** The loads of the first `m` shards, added up. */
  function Combined(w: seq<real>, a: seq<nat>, n: nat, m: nat): real
    requires n <= |w| && n <= |a|
  {
    if m == 0 then 0.0 else Combined(w, a, n, m - 1) + Load(w, a, n, m - 1)
  }

  lemma {:induction false} CombinedStep(w: seq<real>, a: seq<nat>, n: nat, m: nat)
    requires 1 <= n <= |w| && n <= |a|
    ensures Combined(w, a, n, m) == Combined(w, a, n - 1, m) + (if a[n - 1] < m then w[n - 1] else 0.0)
  {
    if m > 0 { CombinedStep(w, a, n, m - 1); }
  }

  /** No weight is lost and none is counted twice. */
  lemma {:induction false} LoadsAddUp(w: seq<real>, a: seq<nat>, n: nat, m: nat)
    requires n <= |w| && n <= |a|
    requires forall k :: 0 <= k < n ==> a[k] < m
    ensures Combined(w, a, n, m) == Total(w, n)
  {
    if n > 0 {
      LoadsAddUp(w, a, n - 1, m);
      CombinedStep(w, a, n, m);
    } else {
      NothingYet(w, a, m);
    }
  }

  lemma {:induction false} NothingYet(w: seq<real>, a: seq<nat>, m: nat)
    ensures Combined(w, a, 0, m) == 0.0
  {
    if m > 0 { NothingYet(w, a, m - 1); }
  }

  /** `m` times `x`, as the sum it stands for. */
  function Times(m: nat, x: real): real {
    if m == 0 then 0.0 else Times(m - 1, x) + x
  }

  lemma {:induction false} TimesIsProduct(m: nat, x: real)
    ensures Times(m, x) == m as real * x
  {
    if m > 0 {
      TimesIsProduct(m - 1, x);
      assert m as real * x == (m - 1) as real * x + x;
    }
  }

  lemma {:induction false} TimesAdds(m: nat, x: real, y: real)
    ensures Times(m, x + y) == Times(m, x) + Times(m, y)
  {
    if m > 0 { TimesAdds(m - 1, x, y); }
  }

  lemma {:induction false} TimesMonotone(m: nat, x: real, y: real)
    requires x <= y
    ensures Times(m, x) <= Times(m, y)
  {
    if m > 0 { TimesMonotone(m - 1, x, y); }
  }

  lemma {:induction false} CombinedAtLeast(w: seq<real>, a: seq<nat>, n: nat, m: nat, low: real)
    requires n <= |w| && n <= |a|
    requires forall j :: 0 <= j < m ==> low <= Load(w, a, n, j)
    ensures Times(m, low) <= Combined(w, a, n, m)
  {
    if m > 0 { CombinedAtLeast(w, a, n, m - 1, low); }
  }

  lemma {:induction false} CombinedAtMost(w: seq<real>, a: seq<nat>, n: nat, m: nat, high: real)
    requires n <= |w| && n <= |a|
    requires forall j :: 0 <= j < m ==> Load(w, a, n, j) <= high
    ensures Combined(w, a, n, m) <= Times(m, high)
  {
    if m > 0 { CombinedAtMost(w, a, n, m - 1, high); }
  }

  // -- the longest-processing-time bound ----------------------------------------

  ghost predicate Descending(w: seq<real>) {
    && (forall i :: 0 <= i < |w| ==> w[i] > 0.0)
    && (forall i, j :: 0 <= i < j < |w| ==> w[i] >= w[j])
  }

  /** `b` is any way of placing the first `n` files on `m` shards under the limit `cap`. */
  ghost predicate Fits(w: seq<real>, m: nat, b: seq<nat>, n: nat, cap: real) {
    && n <= |w| && n <= |b|
    && (forall k :: 0 <= k < n ==> b[k] < m)
    && (forall j :: 0 <= j < m ==> Load(w, b, n, j) <= cap)
  }

  lemma {:induction false} LoadNonNegative(w: seq<real>, a: seq<nat>, n: nat, j: nat)
    requires n <= |w| && n <= |a|
    requires forall i :: 0 <= i < n ==> w[i] >= 0.0
    ensures Load(w, a, n, j) >= 0.0
  {
    if n > 0 { LoadNonNegative(w, a, n - 1, j); }
  }

  lemma FitsPrefix(w: seq<real>, m: nat, b: seq<nat>, n: nat, cap: real)
    requires Descending(w) && Fits(w, m, b, n, cap) && n > 0
    ensures Fits(w, m, b, n - 1, cap)
  {
    var k := n - 1;
    forall j | 0 <= j < m ensures Load(w, b, k, j) <= cap {
      assert Load(w, b, n, j) <= cap;
    }
  }

  /** 2 for a file too heavy to share a shard under `cap` with one of weight `x`, and 1 otherwise. */
  function Slots(w: seq<real>, heavy: real): (v: seq<real>)
    ensures |v| == |w|
    ensures forall i :: 0 <= i < |w| ==> v[i] == if w[i] > heavy then 2.0 else 1.0
  {
    seq(|w|, i requires 0 <= i < |w| => if w[i] > heavy then 2.0 else 1.0)
  }

  /** A shard loaded past `heavy` has both of its slots taken. */
  lemma {:induction false} LoadedShardIsFull(w: seq<real>, a: seq<nat>, n: nat, j: nat, heavy: real)
    requires n <= |w| && n <= |a| && heavy >= 0.0
    ensures Load(Slots(w, heavy), a, n, j) >= 0.0
    ensures Load(Slots(w, heavy), a, n, j) < 1.0 ==> Load(w, a, n, j) == 0.0
    ensures Load(Slots(w, heavy), a, n, j) < 2.0 ==> Load(w, a, n, j) <= heavy
  {
    if n > 0 { LoadedShardIsFull(w, a, n - 1, j, heavy); }
  }

  /** With every file above a third of `cap`, a shard within `cap` takes no more than two slots. */
  lemma {:induction false} WithinCapTakesTwoSlots(w: seq<real>, b: seq<nat>, n: nat, j: nat, cap: real, x: real)
    requires n <= |w| && n <= |b|
    requires 0.0 < x <= cap < 3.0 * x
    requires forall i :: 0 <= i < n ==> w[i] >= x
    ensures var taken := Load(Slots(w, cap - x), b, n, j);
            && (taken == 0.0 || taken == 1.0 || taken == 2.0 || taken >= 3.0)
            && (taken == 1.0 ==> Load(w, b, n, j) >= x)
            && (taken == 2.0 ==> Load(w, b, n, j) > cap - x || Load(w, b, n, j) >= 2.0 * x)
            && (taken > 2.0 ==> Load(w, b, n, j) > cap)
            && Load(w, b, n, j) >= 0.0
  {
    if n > 0 { WithinCapTakesTwoSlots(w, b, n - 1, j, cap, x); }
  }

  /** Under a greedy step past `cap` every shard had both slots taken. */
  lemma PastCapMeansFull(w: seq<real>, m: nat, a: seq<nat>, k: nat, cap: real)
    requires Greedy(w, m, a) && k < |w| && w[k] <= cap
    requires Load(w, a, k + 1, a[k]) > cap
    ensures Times(m, 2.0) <= Total(Slots(w, cap - w[k]), k)
  {
    var v := Slots(w, cap - w[k]);
    assert WentToLightest(w, m, a, k);
    forall j | 0 <= j < m ensures 2.0 <= Load(v, a, k, j) {
      LoadedShardIsFull(w, a, k, j, cap - w[k]);
    }
    GreedyInRange(w, m, a);
    CombinedAtLeast(v, a, k, m, 2.0);
    LoadsAddUp(v, a, k, m);
  }

  lemma GreedyInRange(w: seq<real>, m: nat, a: seq<nat>)
    requires Greedy(w, m, a)
    ensures forall k :: 0 <= k < |a| ==> a[k] < m
  {
    forall k | 0 <= k < |a| ensures a[k] < m { assert WentToLightest(w, m, a, k); }
  }

  /** Any placement within `cap` of files above a third of it uses at most two slots a shard. */
  lemma PlacementUsesTwoSlots(w: seq<real>, m: nat, b: seq<nat>, k: nat, cap: real)
    requires Descending(w) && k < |w| && Fits(w, m, b, k + 1, cap)
    requires w[k] <= cap < 3.0 * w[k]
    ensures Total(Slots(w, cap - w[k]), k + 1) <= Times(m, 2.0)
  {
    var v, n := Slots(w, cap - w[k]), k + 1;
    forall j | 0 <= j < m ensures Load(v, b, n, j) <= 2.0 {
      WithinCapTakesTwoSlots(w, b, n, j, cap, w[k]);
      assert Load(w, b, n, j) <= cap;
    }
    CombinedAtMost(v, b, n, m, 2.0);
    LoadsAddUp(v, b, n, m);
  }

  /** When every file so far weighs more than a third of `cap`, the greedy step stays within `cap`. */
  lemma HeavyStepStaysWithin(w: seq<real>, m: nat, a: seq<nat>, b: seq<nat>, k: nat, cap: real)
    requires m >= 1 && Descending(w) && Greedy(w, m, a) && k < |w|
    requires Fits(w, m, b, k + 1, cap) && cap < 3.0 * w[k]
    ensures Load(w, a, k + 1, a[k]) <= cap
  {
    FileFits(w, m, b, k, cap);
    if Load(w, a, k + 1, a[k]) > cap {
      PastCapMeansFull(w, m, a, k, cap);
      PlacementUsesTwoSlots(w, m, b, k, cap);
      assert false;
    }
  }

  /** A file placed under `cap` weighs no more than `cap`. */
  lemma FileFits(w: seq<real>, m: nat, b: seq<nat>, k: nat, cap: real)
    requires Descending(w) && k < |w| && Fits(w, m, b, k + 1, cap)
    ensures w[k] <= cap
  {
    LoadNonNegative(w, b, k, b[k]);
    assert Load(w, b, k + 1, b[k]) <= cap;
  }

  lemma BoundWhenWithin(m: nat, load: real, cap: real)
    requires m >= 1 && 0.0 <= cap && load <= cap
    ensures 3.0 * Times(m, load) <= 4.0 * Times(m, cap) - cap
  {
    TimesMonotone(m, load, cap);
    TimesMonotone(m - 1, 0.0, cap);
    TimesIsProduct(m - 1, 0.0);
  }

  lemma BoundWhenLight(m: nat, before: real, x: real, cap: real)
    requires m >= 1 && 3.0 * x <= cap
    requires Times(m, before) + x <= Times(m, cap)
    ensures 3.0 * Times(m, before + x) <= 4.0 * Times(m, cap) - cap
  {
    TimesAdds(m, before, x);
    TimesAdds(m - 1, x, x);
    TimesAdds(m - 1, x + x, x);
    TimesMonotone(m - 1, x + x + x, cap);
  }

  /** Any greedy step ends within (4/3 - 1/(3m)) of `cap`. */
  lemma GreedyStepBound(w: seq<real>, m: nat, a: seq<nat>, b: seq<nat>, k: nat, cap: real)
    requires m >= 1 && Descending(w) && Greedy(w, m, a) && k < |w|
    requires Fits(w, m, b, k + 1, cap)
    ensures 3.0 * Times(m, Load(w, a, k + 1, a[k])) <= 4.0 * Times(m, cap) - cap
  {
    FileFits(w, m, b, k, cap);
    if cap < 3.0 * w[k] {
      HeavyStepStaysWithin(w, m, a, b, k, cap);
      BoundWhenWithin(m, Load(w, a, k + 1, a[k]), cap);
    } else {
      LightestIsBelowAverage(w, m, a, k);
      CapacityCovers(w, m, b, k + 1, cap);
      BoundWhenLight(m, Load(w, a, k, a[k]), w[k], cap);
    }
  }

  lemma LightestIsBelowAverage(w: seq<real>, m: nat, a: seq<nat>, k: nat)
    requires Greedy(w, m, a) && k < |w|
    ensures Times(m, Load(w, a, k, a[k])) <= Total(w, k)
  {
    assert WentToLightest(w, m, a, k);
    GreedyInRange(w, m, a);
    CombinedAtLeast(w, a, k, m, Load(w, a, k, a[k]));
    LoadsAddUp(w, a, k, m);
  }

  lemma CapacityCovers(w: seq<real>, m: nat, b: seq<nat>, n: nat, cap: real)
    requires Fits(w, m, b, n, cap)
    ensures Total(w, n) <= Times(m, cap)
  {
    CombinedAtMost(w, b, n, m, cap);
    LoadsAddUp(w, b, n, m);
  }

  lemma {:induction false} GreedyPrefixBound(w: seq<real>, m: nat, a: seq<nat>, b: seq<nat>, n: nat, j: nat, cap: real)
    requires Descending(w) && Greedy(w, m, a) && n <= |w| && j < m
    requires Fits(w, m, b, n, cap)
    ensures 3.0 * Times(m, Load(w, a, n, j)) <= 4.0 * Times(m, cap) - cap
  {
    if n == 0 {
      assert Load(w, b, 0, j) <= cap;
      BoundWhenWithin(m, 0.0, cap);
    } else if a[n - 1] == j {
      GreedyStepBound(w, m, a, b, n - 1, cap);
    } else {
      FitsPrefix(w, m, b, n, cap);
      GreedyPrefixBound(w, m, a, b, n - 1, j, cap);
    }
  }

  /** The longest-processing-time bound: whatever placement `b` fits under `cap`, no shard `j` of
      the greedy one weighs more than (4/3 - 1/(3m)) times `cap`. */
  lemma GreedyIsNearOptimal(w: seq<real>, m: nat, a: seq<nat>, b: seq<nat>, j: nat, cap: real)
    requires Descending(w) && Greedy(w, m, a) && j < m
    requires Fits(w, m, b, |w|, cap)
    ensures Load(w, a, |w|, j) <= (4.0 / 3.0 - 1.0 / (3.0 * m as real)) * cap
  {
    GreedyPrefixBound(w, m, a, b, |w|, j, cap);
    TimesIsProduct(m, Load(w, a, |w|, j));
    TimesIsProduct(m, cap);
    DivideBound(m as real, Load(w, a, |w|, j), cap);
  }

  lemma DivideBound(mm: real, load: real, cap: real)
    requires mm >= 1.0 && 3.0 * (mm * load) <= 4.0 * (mm * cap) - cap
    ensures load <= (4.0 / 3.0 - 1.0 / (3.0 * mm)) * cap
  {
    var share := 1.0 / (3.0 * mm);
    assert mm * share == 1.0 / 3.0;
    var slack := (4.0 / 3.0 - share) * cap - load;
    calc {
      mm * slack;
      4.0 / 3.0 * (mm * cap) - (mm * share) * cap - mm * load;
    >=
      0.0;
    }
    FactorSign(mm, slack);
  }

  lemma FactorSign(c: real, x: real)
    requires c > 0.0 && c * x >= 0.0
    ensures x >= 0.0
  {
  }

  // -- balance -----------------------------------------------------------------

  /** Two shards never differ by more than the heaviest single file. */
  lemma {:induction false} ShardsDifferByOneFile(w: seq<real>, m: nat, a: seq<nat>, n: nat, i: nat, j: nat, top: real)
    requires Greedy(w, m, a) && n <= |w| && i < m && j < m
    requires top >= 0.0
    requires forall k :: 0 <= k < |w| ==> 0.0 <= w[k] <= top
    ensures Load(w, a, n, i) - Load(w, a, n, j) <= top
  {
    if n > 0 {
      ShardsDifferByOneFile(w, m, a, n - 1, i, j, top);
      assert WentToLightest(w, m, a, n - 1);
    }
  }

  /** While shards are still empty each file opens the next one. */
  lemma {:induction false} FirstFilesSpread(w: seq<real>, m: nat, a: seq<nat>, k: nat)
    requires Greedy(w, m, a) && k < |w| && k < m
    requires forall i :: 0 <= i < |w| ==> w[i] > 0.0
    ensures a[k] == k
    ensures forall i :: 0 <= i < k ==> a[i] == i
  {
    forall i | 0 <= i < k ensures a[i] == i {
      FirstFilesSpread(w, m, a, i);
    }
    assert WentToLightest(w, m, a, k);
    SpreadLoads(w, a, k, k);
    SpreadLoads(w, a, k, a[k]);
  }

  lemma {:induction false} SpreadLoads(w: seq<real>, a: seq<nat>, n: nat, j: nat)
    requires n <= |w| && n <= |a|
    requires forall i :: 0 <= i < n ==> a[i] == i && w[i] > 0.0
    ensures j < n ==> Load(w, a, n, j) == w[j]
    ensures j >= n ==> Load(w, a, n, j) == 0.0
  {
    if n > 0 { SpreadLoads(w, a, n - 1, j); }
  }
}
