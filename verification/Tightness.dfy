/** For every number of shards, files on which the greedy schedule is exactly as far from optimal as the
bound allows: weights 2m-1, 2m-1, ..., m+1, m+1, m, m, m. Greedy stacks 4m-1 on the first shard where 3m
on every shard was possible. */
module Tightness {
  import opened Schedule

  function Weight(m: nat, k: nat): int { if k == 2 * m then m else 2 * m - 1 - k / 2 }

  function Worst(m: nat): (w: seq<real>)
    ensures |w| == 2 * m + 1
    ensures forall k :: 0 <= k <= 2 * m ==> w[k] == Weight(m, k) as real
  {
    seq(2 * m + 1, k requires 0 <= k <= 2 * m => Weight(m, k) as real)
  }

  // -- what greedy does -----------------------------------------------------------------------

  /** Which of the files `m`, `m + 1`, ... the greedy schedule puts on shard `j` beside its first. */
  function Second(m: nat, j: nat): int
    requires j < m
  {
    if j % 2 == 1 then m - j else if j == m - 1 then 0 else m - 2 - j
  }

  /** The shard file `k` goes to: one each; then in pairs from the last shard back; the last to the first. */
  function Greedily(m: nat, k: nat): int
    requires m >= 1 && k <= 2 * m
  {
    if k < m then k
    else if k == 2 * m then 0
    else if k % 2 == 0 then 2 * m - 2 - k
    else if k == m then m - 1
    else 2 * m - k
  }

  lemma SecondIs(m: nat, k: nat, j: nat)
    requires m <= k < 2 * m && j < m
    ensures 0 <= Greedily(m, k) < m
    ensures Greedily(m, k) == j <==> Second(m, j) == k - m
  {
  }

  function GreedyChoice(m: nat): (a: seq<nat>)
    requires m >= 1
    ensures |a| == 2 * m + 1
    ensures forall k :: 0 <= k <= 2 * m ==> a[k] == Greedily(m, k) < m
  {
    seq(2 * m + 1, k requires 0 <= k <= 2 * m => GreedyShard(m, k))
  }

  function GreedyShard(m: nat, k: nat): (j: nat)
    requires m >= 1 && k <= 2 * m
    ensures j == Greedily(m, k) < m
  {
    if m <= k < 2 * m then SecondIs(m, k, 0); Greedily(m, k) else Greedily(m, k)
  }

  /** What shard `j` carries after `n` files. */
  function Stacked(m: nat, n: nat, j: nat): int
    requires j < m
  {
    (if j < n then 2 * m - 1 - j / 2 else 0)
    + (if m + Second(m, j) < n then m + j / 2 else 0)
    + (if n > 2 * m && j == 0 then m else 0)
  }

  lemma OneMoreStacked(m: nat, n: nat, j: nat)
    requires n <= 2 * m && j < m
    ensures Stacked(m, n + 1, j) == Stacked(m, n, j) + (if Greedily(m, n) == j then Weight(m, n) else 0)
  {
    if m <= n < 2 * m { SecondIs(m, n, j); }
  }

  lemma {:induction false} StackedIsLoad(m: nat, n: nat, j: nat)
    requires j < m && n <= 2 * m + 1
    ensures Load(Worst(m), GreedyChoice(m), n, j) == Stacked(m, n, j) as real
  {
    if n > 0 {
      StackedIsLoad(m, n - 1, j);
      OneMoreStacked(m, n - 1, j);
    }
  }

  /** Each file's shard carries least when it is handed out, and is the first that does. */
  lemma LeastStacked(m: nat, k: nat, j: nat)
    requires j < m && k <= 2 * m
    ensures var i := GreedyShard(m, k);
            && Stacked(m, k, i) <= Stacked(m, k, j)
            && (j < i ==> Stacked(m, k, i) < Stacked(m, k, j))
  {
    var i := GreedyShard(m, k);
    if m <= k < 2 * m {
      SecondIs(m, k, i);
      SecondIs(m, k, j);
      assert Stacked(m, k, i) == 2 * m - 1 - i / 2;
    }
  }

  lemma ChoiceIsGreedy(m: nat)
    requires m >= 1
    ensures Greedy(Worst(m), m, GreedyChoice(m))
  {
    var w, a := Worst(m), GreedyChoice(m);
    forall k | 0 <= k < |a| ensures WentToLightest(w, m, a, k) {
      StackedIsLoad(m, k, a[k]);
      forall j | 0 <= j < m
        ensures Load(w, a, k, a[k]) <= Load(w, a, k, j)
        ensures j < a[k] ==> Load(w, a, k, a[k]) < Load(w, a, k, j)
      {
        StackedIsLoad(m, k, j);
        LeastStacked(m, k, j);
      }
    }
  }

  // -- what was possible --------------------------------------------------------------------------

  /** The three lightest together, and the others heaviest with lightest. */
  function Balanced(m: nat, k: nat): (j: nat)
    requires m >= 1 && k <= 2 * m
    ensures j < m
  {
    if k < m - 1 then 1 + k else if k < 2 * m - 2 then 2 * m - 2 - k else 0
  }

  function BalancedChoice(m: nat): (b: seq<nat>)
    requires m >= 1
    ensures |b| == 2 * m + 1
    ensures forall k :: 0 <= k <= 2 * m ==> b[k] == Balanced(m, k)
  {
    seq(2 * m + 1, k requires 0 <= k <= 2 * m => Balanced(m, k))
  }

  function Shared(m: nat, n: nat, j: nat): int
    requires j < m
  {
    if j == 0 then (if n <= 2 * m - 2 then 0 else (n - (2 * m - 2)) * m)
    else (if j - 1 < n then 2 * m - 1 - (j - 1) / 2 else 0) + (if 2 * m - 2 - j < n then m + 1 + (j - 1) / 2 else 0)
  }

  lemma OneMoreShared(m: nat, n: nat, j: nat)
    requires n <= 2 * m && j < m
    ensures Shared(m, n + 1, j) == Shared(m, n, j) + (if Balanced(m, n) == j then Weight(m, n) else 0)
  {
  }

  lemma {:induction false} SharedIsLoad(m: nat, n: nat, j: nat)
    requires j < m && n <= 2 * m + 1
    ensures Load(Worst(m), BalancedChoice(m), n, j) == Shared(m, n, j) as real
  {
    if n > 0 {
      SharedIsLoad(m, n - 1, j);
      OneMoreShared(m, n - 1, j);
    }
  }

  lemma BalancedFits(m: nat)
    requires m >= 1
    ensures Fits(Worst(m), m, BalancedChoice(m), 2 * m + 1, (3 * m) as real)
  {
    var n := 2 * m + 1;
    forall j | 0 <= j < m ensures Load(Worst(m), BalancedChoice(m), n, j) <= (3 * m) as real {
      SharedIsLoad(m, n, j);
    }
  }

  // -- the two together ------------------------------------------------------------------------------

  lemma BoundOf(m: nat)
    requires m >= 1
    ensures (4.0 / 3.0 - 1.0 / (3.0 * m as real)) * (3 * m) as real == (4 * m - 1) as real
  {
    var x := m as real;
    assert 1.0 / (3.0 * x) * (3.0 * x) == 1.0;
    assert (4.0 / 3.0 - 1.0 / (3.0 * x)) * (3.0 * x) == 4.0 * x - 1.0;
  }

  /** The bound is met exactly, for every number of shards: an assignment under the limit 3m exists, and
      the greedy one puts (4/3 - 1/(3m)) times that on a shard. */
  lemma BoundIsTight(m: nat)
    requires m >= 1
    ensures Descending(Worst(m)) && Fits(Worst(m), m, BalancedChoice(m), 2 * m + 1, (3 * m) as real)
    ensures Load(Worst(m), Assign(Worst(m), m, 2 * m + 1), 2 * m + 1, 0)
         == (4.0 / 3.0 - 1.0 / (3.0 * m as real)) * (3 * m) as real
  {
    var n := 2 * m + 1;
    BalancedFits(m);
    BoundOf(m);
    ChoiceIsGreedy(m);
    AssignIsGreedy(Worst(m), m);
    GreedyIsUnique(Worst(m), m, Assign(Worst(m), m, n), GreedyChoice(m), n);
    assert Assign(Worst(m), m, n)[..n] == Assign(Worst(m), m, n) && GreedyChoice(m)[..n] == GreedyChoice(m);
    StackedIsLoad(m, n, 0);
  }
}
