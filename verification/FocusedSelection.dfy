/** `ci_focused_selection.py`: the test files a draft's fast run executes within a budget. */
module FocusedSelection {
  import opened Ordering
  import opened Outcomes
  import opened Sharding
  import opened PartitionLaws

  const ALWAYS: seq<Path> := [
    "tests/test_ui_contract.py",
    "tests/test_templates.py",
    "tests/test_era_contracts.py",
    "tests/test_reporting_contract.py",
    "tests/test_runtime_safety.py",
    "tests/test_repository_data_safety.py",
    "tests/test_architecture_decisions.py",
    "tests/test_negative_tests_name_their_refusal.py",
    "tests/test_e2e_contracts.py"]

  const CI_PATH_PREFIXES: seq<Path> := [".github/", "scripts/ci/", "ci_", "ci/", "conftest.py", "pyproject.toml"]

  const CI_TESTS_EXTRA: seq<Path> := ["tests/test_release_provenance_gate.py", "tests/test_main_proof.py"]

  const UNCOUNTED := -1

  datatype Selection = Selection(run: seq<Path>, deferred: seq<Path>, predictedSeconds: real,
                                 unmeasured: seq<(Path, int)>, alwaysRun: seq<Path>)

  // -- which files are fixed and which are touched -----------------------------------------

  function Filter(paths: seq<Path>, keep: Path -> bool): (r: seq<Path>)
    ensures forall p :: p in r <==> p in paths && keep(p)
  {
    if paths == [] then []
    else
      var rest := Filter(paths[..|paths| - 1], keep);
      var last := paths[|paths| - 1];
      assert paths == paths[..|paths| - 1] + [last];
      if keep(last) then rest + [last] else rest
  }

  lemma {:induction false} FilterDistinct(paths: seq<Path>, keep: Path -> bool)
    requires Distinct(paths)
    ensures Distinct(Filter(paths, keep))
  {
    if paths != [] { FilterDistinct(paths[..|paths| - 1], keep); }
  }

  function SortedSet(paths: seq<Path>): seq<Path> {
    Sort(Dedupe(paths), TextLeq)
  }

  lemma SortedSetHolds(paths: seq<Path>)
    ensures Distinct(SortedSet(paths))
    ensures forall p :: p in SortedSet(paths) <==> p in paths
  {
    SortKeepsElements(Dedupe(paths), TextLeq);
    MultisetDistinct(Dedupe(paths), SortedSet(paths));
  }

  function BaseName(path: Path): Path {
    if path == [] || path[|path| - 1] == '/' then [] else BaseName(path[..|path| - 1]) + [path[|path| - 1]]
  }

  predicate EndsWith(path: Path, suffix: Path) {
    |suffix| <= |path| && path[|path| - |suffix|..] == suffix
  }

  predicate IsTestModule(path: Path) {
    "tests/" <= path && "test_" <= BaseName(path) && EndsWith(path, ".py")
  }

  predicate ChangesCi(changed: seq<Path>) {
    exists p, k :: p in changed && 0 <= k < |CI_PATH_PREFIXES| && CI_PATH_PREFIXES[k] <= p
  }

  /** The contract tests, and the CI tests when CI itself changes. */
  function Fixed(changed: seq<Path>, exist: Path -> bool, ciTests: seq<Path>): seq<Path> {
    var always := Filter(ALWAYS, exist);
    if ChangesCi(changed)
    then always + Filter(SortedSet(ciTests + Filter(CI_TESTS_EXTRA, exist)), p => p !in always)
    else always
  }

  /** The changed test files that still exist, other than the fixed ones. */
  function Touched(changed: seq<Path>, exist: Path -> bool, ciTests: seq<Path>): seq<Path> {
    var fixed := Fixed(changed, exist, ciTests);
    Filter(SortedSet(changed), p => IsTestModule(p) && exist(p) && p !in fixed)
  }

  lemma TouchedHolds(changed: seq<Path>, exist: Path -> bool, ciTests: seq<Path>)
    ensures var touched := Touched(changed, exist, ciTests);
            && Distinct(touched)
            && (forall p :: p in touched ==> p !in Fixed(changed, exist, ciTests))
  {
    SortedSetHolds(changed);
    var fixed := Fixed(changed, exist, ciTests);
    FilterDistinct(SortedSet(changed), p => IsTestModule(p) && exist(p) && p !in fixed);
  }

  /** The live test counts of the files the table has never measured. */
  function CountsFor(files: seq<Path>, t: Timings, testCount: Path -> Option<nat>): map<Path, nat> {
    if files == [] then map[]
    else
      var counts := CountsFor(files[..|files| - 1], t, testCount);
      var p := files[|files| - 1];
      if Lookup(t, p).Some? || testCount(p).None? then counts else counts[p := testCount(p).value]
  }

  function UnmeasuredAmong(files: seq<Path>, t: Timings, testCount: Path -> Option<nat>): seq<(Path, int)> {
    if files == [] then []
    else
      var before := UnmeasuredAmong(files[..|files| - 1], t, testCount);
      var p := files[|files| - 1];
      if Lookup(t, p).Some? then before
      else before + [(p, Reported(testCount(p)))]
  }

  /** What is reported of a file: its count, or that it could not be read. */
  function Reported(counted: Option<nat>): int {
    match counted case None => UNCOUNTED case Some(n) => n
  }

  /** Exactly the files never measured that could be read, each with its count. */
  ghost predicate CountsUnmeasured(counts: map<Path, nat>, files: seq<Path>, t: Timings, testCount: Path -> Option<nat>) {
    && (forall p :: p in counts <==> p in files && Lookup(t, p).None? && testCount(p).Some?)
    && (forall p :: p in counts ==> Some(counts[p]) == testCount(p))
  }

  lemma {:induction false} CountsForHolds(files: seq<Path>, t: Timings, testCount: Path -> Option<nat>)
    ensures CountsUnmeasured(CountsFor(files, t, testCount), files, t, testCount)
  {
    if files != [] { CountsForHolds(files[..|files| - 1], t, testCount); }
  }

  /** The report: the files never measured, in their order, each with what was counted. */
  ghost predicate ReportsUnmeasured(unmeasured: seq<(Path, int)>, files: seq<Path>, t: Timings, testCount: Path -> Option<nat>) {
    var missing := Filter(files, p => Lookup(t, p).None?);
    |unmeasured| == |missing|
    && forall k :: 0 <= k < |missing| ==>
         && unmeasured[k].0 == missing[k]
         && (if testCount(missing[k]).Some? then unmeasured[k].1 == testCount(missing[k]).value else unmeasured[k].1 == -1)
  }

  lemma {:induction false} UnmeasuredHolds(files: seq<Path>, t: Timings, testCount: Path -> Option<nat>)
    ensures ReportsUnmeasured(UnmeasuredAmong(files, t, testCount), files, t, testCount)
  {
    if files != [] { UnmeasuredHolds(files[..|files| - 1], t, testCount); }
  }

  method CountUnmeasured(files: seq<Path>, t: Timings, testCount: Path -> Option<nat>)
    returns (counts: map<Path, nat>, unmeasured: seq<(Path, int)>)
    ensures counts == CountsFor(files, t, testCount)
    ensures unmeasured == UnmeasuredAmong(files, t, testCount)
    ensures CountsUnmeasured(counts, files, t, testCount) && ReportsUnmeasured(unmeasured, files, t, testCount)
  {
    counts, unmeasured := map[], [];
    for k := 0 to |files|
      invariant counts == CountsFor(files[..k], t, testCount)
      invariant unmeasured == UnmeasuredAmong(files[..k], t, testCount)
    {
      assert files[..k + 1][..k] == files[..k];
      if Lookup(t, files[k]).None? {
        var counted := testCount(files[k]);
        if counted.Some? { counts := counts[files[k] := counted.value]; }
        unmeasured := unmeasured + [(files[k], Reported(counted))];
      }
    }
    assert files[..|files|] == files;
    CountsForHolds(files, t, testCount);
    UnmeasuredHolds(files, t, testCount);
  }

  // -- packing the budget, cheapest first ---------------------------------------------------

  ghost predicate Ascending<T>(order: seq<T>, cost: T -> real) {
    forall i, j :: 0 <= i < j < |order| ==> cost(order[i]) <= cost(order[j])
  }

  /** The greedy loop: keep each file that still fits. What is kept is a prefix of the order, and
      the first file left out no longer fitted. */
  method Pack<T>(order: seq<T>, cost: T -> real, budget: real, already: real)
    returns (kept: seq<T>, deferred: seq<T>, spent: real)
    requires Ascending(order, cost)
    ensures kept + deferred == order
    ensures spent == already + Sum(kept, cost)
    ensures deferred != [] ==> spent + cost(deferred[0]) > budget
    ensures kept != [] ==> spent <= budget
  {
    kept, deferred, spent := [], [], already;
    for k := 0 to |order|
      invariant kept + deferred == order[..k]
      invariant spent == already + Sum(kept, cost)
      invariant deferred != [] ==> spent + cost(deferred[0]) > budget
      invariant kept != [] ==> spent <= budget
    {
      var path := order[k];
      assert order[..k + 1] == order[..k] + [path];
      assert deferred != [] ==> deferred[0] == order[..k][|kept|] == order[|kept|];
      if spent + cost(path) <= budget {
        SumAppend(kept, path, cost);
        kept := kept + [path];
        spent := spent + cost(path);
      } else {
        deferred := deferred + [path];
      }
    }
  }

  /** No `|q|` of the files cost less together than the `|q|` cheapest. */
  lemma {:induction false} CheapestCostLeast<T>(order: seq<T>, q: seq<T>, cost: T -> real)
    requires Ascending(order, cost) && Distinct(q)
    requires forall i :: 0 <= i < |q| ==> q[i] in order
    ensures |q| <= |order|
    ensures Sum(order[..|q|], cost) <= Sum(q, cost)
    decreases |order|
  {
    if order == [] {
      assert q == [];
    } else {
      var n := |order| - 1;
      var rest := order[..n];
      assert order == rest + [order[n]];
      if order[n] in q {
        var i :| 0 <= i < |q| && q[i] == order[n];
        CheapestWithLast(order, q, i, cost);
      } else {
        CheapestCostLeast(rest, q, cost);
        assert order[..|q|] == rest[..|q|];
      }
    }
  }

  lemma {:induction false} CheapestWithLast<T>(order: seq<T>, q: seq<T>, i: nat, cost: T -> real)
    requires Ascending(order, cost) && Distinct(q) && order != []
    requires i < |q| && q[i] == order[|order| - 1]
    requires forall i :: 0 <= i < |q| ==> q[i] in order
    ensures |q| <= |order|
    ensures Sum(order[..|q|], cost) <= Sum(q, cost)
    decreases |order|, 0
  {
    var rest, q' := order[..|order| - 1], Without(q, i);
    var k := |q'|;
    OthersInRest(order, q, i);
    CheapestCostLeast(rest, q', cost);
    SumWithout(q, i, cost);
    assert order[..k + 1] == rest[..k] + [order[k]];
    SumAppend(rest[..k], order[k], cost);
  }

  lemma OthersInRest<T>(order: seq<T>, q: seq<T>, i: nat)
    requires Distinct(q) && order != [] && i < |q| && q[i] == order[|order| - 1]
    requires forall i :: 0 <= i < |q| ==> q[i] in order
    ensures Distinct(Without(q, i))
    ensures forall j :: 0 <= j < |q| - 1 ==> Without(q, i)[j] in order[..|order| - 1]
  {
    var q', rest := Without(q, i), order[..|order| - 1];
    assert forall j :: 0 <= j < |q'| ==> q'[j] == q[if j < i then j else j + 1];
    forall j | 0 <= j < |q'| ensures q'[j] in rest {
      assert q'[j] in order && q'[j] != order[|order| - 1];
      var k :| 0 <= k < |order| && order[k] == q'[j];
      assert rest[k] == q'[j];
    }
  }

  lemma {:induction false} SumGrows<T>(s: seq<T>, n: nat, k: nat, cost: T -> real)
    requires n <= k <= |s|
    requires forall i :: 0 <= i < |s| ==> cost(s[i]) >= 0.0
    ensures Sum(s[..n], cost) <= Sum(s[..k], cost)
  {
    if n < k {
      SumGrows(s, n, k - 1, cost);
      assert s[..k] == s[..k - 1] + [s[k - 1]];
      SumAppend(s[..k - 1], s[k - 1], cost);
    }
  }

  /** More than `n` files cost at least the `n` cheapest and the one after them. */
  lemma MoreCostsMore<T>(order: seq<T>, n: nat, cost: T -> real, q: seq<T>)
    requires Ascending(order, cost) && n < |q|
    requires forall i :: 0 <= i < |order| ==> cost(order[i]) >= 0.0
    requires Distinct(q) && (forall i :: 0 <= i < |q| ==> q[i] in order)
    ensures n < |order|
    ensures Sum(order[..n], cost) + cost(order[n]) <= Sum(q, cost)
  {
    CheapestCostLeast(order, q, cost);
    assert order[..n + 1] == order[..n] + [order[n]];
    SumAppend(order[..n], order[n], cost);
    SumGrows(order, n + 1, |q|, cost);
  }

  /** The exchange argument: if the `n` cheapest fit beside `already` and the next does not, no
      choice that fits keeps more than `n`. */
  lemma GreedyKeepsMost<T>(order: seq<T>, n: nat, cost: T -> real, budget: real, already: real, q: seq<T>)
    requires Ascending(order, cost) && n <= |order|
    requires forall i :: 0 <= i < |order| ==> cost(order[i]) >= 0.0
    requires n < |order| ==> already + Sum(order[..n], cost) + cost(order[n]) > budget
    requires Distinct(q) && (forall i :: 0 <= i < |q| ==> q[i] in order)
    requires already + Sum(q, cost) <= budget
    ensures |q| <= n
  {
    if |q| > n {
      MoreCostsMore(order, n, cost, q);
    }
  }

  // -- the whole selection -------------------------------------------------------------------

  predicate CheaperFirst(a: File, b: File) {
    a.weight < b.weight || (a.weight == b.weight && TextLeq(a.path, b.path))
  }

  lemma CheaperFirstIsTotalOrder()
    ensures TotalOrder(CheaperFirst)
  {
    TextIsTotalOrder();
  }

  function PathsIn(files: seq<File>): (r: seq<Path>)
    ensures |r| == |files|
    ensures forall i :: 0 <= i < |r| ==> r[i] == files[i].path
  {
    seq(|files|, i requires 0 <= i < |files| => files[i].path)
  }

  /** `paths` arranged by cost and then by path, cheapest first or heaviest first. */
  function Arranged(paths: seq<Path>, cost: Path -> real, order: (File, File) -> bool): seq<Path> {
    PathsIn(Sort(Priced(paths, cost), order))
  }

  lemma ArrangedHolds(paths: seq<Path>, cost: Path -> real, order: (File, File) -> bool)
    requires TotalOrder(order) && Distinct(paths)
    ensures var r := Arranged(paths, cost, order);
            && |r| == |paths|
            && Distinct(r)
            && (forall p :: p in r <==> p in paths)
            && (forall i, j :: 0 <= i < j < |r| ==> order(File(r[i], cost(r[i])), File(r[j], cost(r[j]))))
  {
    var priced := Priced(paths, cost);
    var s := Sort(priced, order);
    SortKeepsElements(priced, order);
    SortSorts(priced, order);
    MultisetDistinct(priced, s);
    forall i | 0 <= i < |s| ensures s[i].path in paths && s[i].weight == cost(s[i].path) {
      assert s[i] in priced;
    }
    forall p | p in paths ensures p in PathsIn(s) {
      var k :| 0 <= k < |paths| && paths[k] == p;
      assert priced[k] in s;
      var l :| 0 <= l < |s| && s[l] == priced[k];
      assert PathsIn(s)[l] == p;
    }
  }

  function CostOf(changed: seq<Path>, exist: Path -> bool, ciTests: seq<Path>, t: Timings,
                  testCount: Path -> Option<nat>): Path -> real {
    var files := SortedSet(Fixed(changed, exist, ciTests) + Touched(changed, exist, ciTests));
    Price(CountsFor(files, t, testCount), t)
  }

  /** `kept` is as many of `touched` as any choice that fits the budget beside `already`. */
  ghost predicate KeepsMost(touched: seq<Path>, cost: Path -> real, budget: real, already: real, kept: seq<Path>) {
    forall q: seq<Path> | Distinct(q) && (forall p :: p in q ==> p in touched) ::
      already + Sum(q, cost) <= budget ==> |q| <= |kept|
  }

  ghost predicate Splits(touched: seq<Path>, kept: seq<Path>, deferred: seq<Path>) {
    Distinct(kept + deferred) && forall p :: p in touched <==> p in kept || p in deferred
  }

  /** Heavier before lighter, and by name where equally heavy. */
  ghost predicate HeaviestFirst(s: seq<Path>, cost: Path -> real) {
    forall i, j :: 0 <= i < j < |s| ==> cost(s[i]) > cost(s[j]) || (cost(s[i]) == cost(s[j]) && TextLeq(s[i], s[j]))
  }

  /** No file kept costs more than one deferred, nor comes after one by name at the same cost. */
  ghost predicate CheaperKept(kept: seq<Path>, deferred: seq<Path>, cost: Path -> real) {
    forall p, q :: p in kept && q in deferred ==> cost(p) < cost(q) || (cost(p) == cost(q) && TextLeq(p, q))
  }

  ghost predicate LightestFirst(s: seq<Path>, cost: Path -> real) {
    forall i, j :: 0 <= i < j < |s| ==> cost(s[i]) < cost(s[j]) || (cost(s[i]) == cost(s[j]) && TextLeq(s[i], s[j]))
  }

  lemma PrefixIsCheaper(order: seq<Path>, kept: seq<Path>, left: seq<Path>, cost: Path -> real)
    requires order == kept + left && LightestFirst(order, cost)
    ensures CheaperKept(kept, left, cost)
  {
    forall p, q | p in kept && q in left
      ensures cost(p) < cost(q) || (cost(p) == cost(q) && TextLeq(p, q))
    {
      var i :| 0 <= i < |kept| && kept[i] == p;
      var j :| 0 <= j < |left| && left[j] == q;
      assert order[i] == p && order[|kept| + j] == q;
    }
  }

  lemma CheapestFirst(paths: seq<Path>, cost: Path -> real)
    requires Distinct(paths)
    ensures var r := Arranged(paths, cost, CheaperFirst);
            Ascending(r, cost) && LightestFirst(r, cost) && Distinct(r) && forall p :: p in r <==> p in paths
  {
    CheaperFirstIsTotalOrder();
    ArrangedHolds(paths, cost, CheaperFirst);
  }

  lemma HeaviestArranged(paths: seq<Path>, cost: Path -> real)
    requires Distinct(paths)
    ensures var r := Arranged(paths, cost, Before);
            HeaviestFirst(r, cost) && Distinct(r) && forall p :: p in r <==> p in paths
  {
    BeforeIsTotalOrder();
    ArrangedHolds(paths, cost, Before);
  }

  lemma PackKeepsMost(touched: seq<Path>, kept: seq<Path>, left: seq<Path>, cost: Path -> real, budget: real, already: real)
    requires Ascending(kept + left, cost) && Positive(cost)
    requires forall p :: p in kept + left <==> p in touched
    requires left != [] ==> already + Sum(kept, cost) + cost(left[0]) > budget
    ensures KeepsMost(touched, cost, budget, already, kept)
  {
    var order := kept + left;
    assert order[..|kept|] == kept;
    forall q: seq<Path> | Distinct(q) && (forall p :: p in q ==> p in touched)
      ensures already + Sum(q, cost) <= budget ==> |q| <= |kept|
    {
      if already + Sum(q, cost) <= budget {
        GreedyKeepsMost(order, |kept|, cost, budget, already, q);
      }
    }
  }

  /** Sorting the touched files, packing them, and sorting what was deferred. */
  method Choose(touched: seq<Path>, cost: Path -> real, budget: real, already: real)
    returns (kept: seq<Path>, deferred: seq<Path>, spent: real)
    requires Distinct(touched) && Positive(cost)
    ensures Splits(touched, kept, deferred)
    ensures KeepsMost(touched, cost, budget, already, kept)
    ensures HeaviestFirst(deferred, cost) && CheaperKept(kept, deferred, cost)
    ensures spent == already + Sum(kept, cost)
    ensures kept != [] ==> spent <= budget
  {
    hide TextLeq, Sort, Sum, Arranged, LightestFirst, CheaperKept, HeaviestFirst, Splits, KeepsMost;
    CheapestFirst(touched, cost);
    var left;
    kept, left, spent := Pack(Arranged(touched, cost, CheaperFirst), cost, budget, already);
    PackKeepsMost(touched, kept, left, cost, budget, already);
    PrefixIsCheaper(kept + left, kept, left, cost);
    DeferredHolds(touched, kept, left, cost);
    deferred := Arranged(left, cost, Before);
  }

  lemma DeferredHolds(touched: seq<Path>, kept: seq<Path>, left: seq<Path>, cost: Path -> real)
    requires Distinct(kept + left) && (forall p :: p in touched <==> p in kept + left)
    requires CheaperKept(kept, left, cost)
    ensures var deferred := Arranged(left, cost, Before);
            Splits(touched, kept, deferred) && HeaviestFirst(deferred, cost) && CheaperKept(kept, deferred, cost)
  {
    hide TextLeq, Sort, Arranged;
    var deferred := Arranged(left, cost, Before);
    TailDistinct(kept, left);
    HeaviestArranged(left, cost);
    SplitStaysDistinct(kept, left, deferred);
  }

  lemma TailDistinct<T>(a: seq<T>, b: seq<T>)
    requires Distinct(a + b)
    ensures Distinct(b)
  {
    assert forall i :: 0 <= i < |b| ==> b[i] == (a + b)[|a| + i];
  }

  /** Sorting what is kept changes neither which files they are nor how many. */
  lemma KeptInAnyOrder(touched: seq<Path>, kept: seq<Path>, deferred: seq<Path>, cost: Path -> real, budget: real, already: real)
    requires Splits(touched, kept, deferred) && KeepsMost(touched, cost, budget, already, kept)
    requires CheaperKept(kept, deferred, cost)
    ensures var sorted := Sort(kept, TextLeq);
            && Splits(touched, sorted, deferred) && KeepsMost(touched, cost, budget, already, sorted)
            && CheaperKept(sorted, deferred, cost) && Sorted(sorted, TextLeq) && (sorted == [] <==> kept == [])
  {
    hide TextLeq, Sort;
    var sorted := Sort(kept, TextLeq);
    TextIsTotalOrder();
    SortKeepsElements(kept, TextLeq);
    SortSorts(kept, TextLeq);
    assert forall p :: p in sorted <==> p in kept;
    assert multiset(sorted + deferred) == multiset(kept + deferred);
    MultisetDistinct(kept + deferred, sorted + deferred);
  }

  /** `select`, given the changed paths in normal form. Of all choices of touched
      files that fit beside the fixed ones none is larger, and no file left out is cheaper than one kept. */
  method Select(changed: seq<Path>, exist: Path -> bool, ciTests: seq<Path>, t: Timings, budget: real,
                testCount: Path -> Option<nat>) returns (s: Selection)
    ensures var fixed, touched := Fixed(changed, exist, ciTests), Touched(changed, exist, ciTests);
            var cost := CostOf(changed, exist, ciTests, t, testCount);
            && s.alwaysRun == fixed <= s.run
            && s.predictedSeconds == Sum(s.run, cost)
            && HeaviestFirst(s.deferred, cost)
            && ReportsUnmeasured(s.unmeasured, SortedSet(fixed + touched), t, testCount)
    ensures var fixed, touched := Fixed(changed, exist, ciTests), Touched(changed, exist, ciTests);
            var cost := CostOf(changed, exist, ciTests, t, testCount);
            var kept := s.run[|fixed|..];
            && Sorted(kept, TextLeq)
            && Splits(touched, kept, s.deferred)
            && KeepsMost(touched, cost, budget, Sum(fixed, cost), kept)
            && CheaperKept(kept, s.deferred, cost)
            && (kept != [] ==> s.predictedSeconds <= budget)
  {
    hide Fixed, Touched, SortedSet, CountsFor, UnmeasuredAmong, Price, Sort, Sorted, Sum, Distinct;
    hide Splits, KeepsMost, CheaperKept, HeaviestFirst, Positive, CountsUnmeasured, ReportsUnmeasured;
    var fixed := Fixed(changed, exist, ciTests);
    var touched := Touched(changed, exist, ciTests);
    var counts, unmeasured := CountUnmeasured(SortedSet(fixed + touched), t, testCount);
    var cost := Price(counts, t);
    PriceIsPositive(counts, t);
    TouchedHolds(changed, exist, ciTests);
    var kept, deferred, spent := Choose(touched, cost, budget, Sum(fixed, cost));
    RunCost(fixed, kept, cost);
    KeptInAnyOrder(touched, kept, deferred, cost, budget, Sum(fixed, cost));
    s := Selection(fixed + Sort(kept, TextLeq), deferred, spent, unmeasured, fixed);
    assert s.run[|fixed|..] == Sort(kept, TextLeq);
  }

  lemma SplitStaysDistinct(a: seq<Path>, b: seq<Path>, b': seq<Path>)
    requires Distinct(a + b) && Distinct(b') && (forall p :: p in b' <==> p in b)
    ensures Distinct(a + b')
  {
    forall i, j | 0 <= i < j < |a + b'| ensures (a + b')[i] != (a + b')[j] {
      if i < |a| <= j {
        assert b'[j - |a|] in b;
        var k :| 0 <= k < |b| && b[k] == b'[j - |a|];
        assert (a + b)[i] != (a + b)[|a| + k];
      } else if j < |a| {
        assert (a + b)[i] != (a + b)[j];
      }
    }
  }

  lemma {:induction false} SumConcat<T>(a: seq<T>, b: seq<T>, f: T -> real)
    ensures Sum(a + b, f) == Sum(a, f) + Sum(b, f)
  {
    if b == [] {
      assert a + b == a;
    } else {
      SumConcat(a, b[..|b| - 1], f);
      assert a + b == (a + b[..|b| - 1]) + [b[|b| - 1]];
      SumAppend(a + b[..|b| - 1], b[|b| - 1], f);
    }
  }

  lemma RunCost(fixed: seq<Path>, kept: seq<Path>, cost: Path -> real)
    ensures Sum(fixed + Sort(kept, TextLeq), cost) == Sum(fixed, cost) + Sum(kept, cost)
  {
    SumConcat(fixed, Sort(kept, TextLeq), cost);
    SortKeepsElements(kept, TextLeq);
    SumForgetsOrder(Sort(kept, TextLeq), kept, cost);
  }
}
