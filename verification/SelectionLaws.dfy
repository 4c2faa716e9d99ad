/** Which files a focused run takes and what they cost: said of the paths themselves. */
module SelectionLaws {
  import opened Ordering
  import opened Outcomes
  import opened Sharding
  import opened FocusedSelection

  /** A contract test that is there; when CI itself changed, also a test of CI. */
  ghost predicate AlwaysRuns(p: Path, changed: seq<Path>, exist: Path -> bool, ciTests: seq<Path>) {
    || (p in ALWAYS && exist(p))
    || (CiChanged(changed) && (p in ciTests || (p in CI_TESTS_EXTRA && exist(p))))
  }

  ghost predicate CiChanged(changed: seq<Path>) {
    exists c, prefix :: c in changed && prefix in CI_PATH_PREFIXES && prefix <= c
  }

  /** A changed test file that is still there and does not run anyway. */
  ghost predicate WasTouched(p: Path, changed: seq<Path>, exist: Path -> bool, ciTests: seq<Path>) {
    p in changed && exist(p) && IsTestFile(p) && !AlwaysRuns(p, changed, exist, ciTests)
  }

  /** Somewhere under `tests/`, in a file named `test_….py`. */
  ghost predicate IsTestFile(p: Path) {
    "tests/" <= p && exists folder, name: Path :: p == folder + "/" + name && IsTestName(name)
  }

  ghost predicate IsTestName(name: Path) {
    '/' !in name && "test_" <= name && exists stem: Path :: name == stem + ".py"
  }

  lemma CiChangedIff(changed: seq<Path>)
    ensures ChangesCi(changed) <==> CiChanged(changed)
  {
    if ChangesCi(changed) {
      var p, k :| p in changed && 0 <= k < |CI_PATH_PREFIXES| && CI_PATH_PREFIXES[k] <= p;
      assert CI_PATH_PREFIXES[k] in CI_PATH_PREFIXES;
    }
    if CiChanged(changed) {
      var c, prefix :| c in changed && prefix in CI_PATH_PREFIXES && prefix <= c;
      var k :| 0 <= k < |CI_PATH_PREFIXES| && CI_PATH_PREFIXES[k] == prefix;
      assert CI_PATH_PREFIXES[k] <= c;
    }
  }

  /** What runs whatever the budget. */
  lemma {:induction false} FixedIs(changed: seq<Path>, exist: Path -> bool, ciTests: seq<Path>)
    ensures forall p :: p in Fixed(changed, exist, ciTests) <==> AlwaysRuns(p, changed, exist, ciTests)
    ensures Distinct(Fixed(changed, exist, ciTests))
  {
    CiChangedIff(changed);
    var always := Filter(ALWAYS, exist);
    AlwaysDiffer();
    FilterDistinct(ALWAYS, exist);
    var more := SortedSet(ciTests + Filter(CI_TESTS_EXTRA, exist));
    SortedSetHolds(ciTests + Filter(CI_TESTS_EXTRA, exist));
    FilterDistinct(more, p => p !in always);
    hide Filter, SortedSet, ChangesCi, CiChanged;
    if ChangesCi(changed) {
      DistinctApart(always, Filter(more, p => p !in always));
    }
  }

  lemma AlwaysDiffer()
    ensures Distinct(ALWAYS)
  {
    assert forall i, j :: 0 <= i < j < |ALWAYS| ==> ALWAYS[i] != ALWAYS[j];
  }

  lemma DistinctApart(a: seq<Path>, b: seq<Path>)
    requires Distinct(a) && Distinct(b) && forall p :: p in b ==> p !in a
    ensures Distinct(a + b)
  {
    forall i, j | 0 <= i < j < |a + b| ensures (a + b)[i] != (a + b)[j] {
      if i < |a| <= j { assert b[j - |a|] in b; }
    }
  }

  /** The contract tests come first, as listed; the tests of CI follow by name. */
  lemma {:induction false} FixedInOrder(changed: seq<Path>, exist: Path -> bool, ciTests: seq<Path>)
    ensures exists listed, named :: IsFixedOrder(Fixed(changed, exist, ciTests), listed, named)
  {
    hide Filter, SortedSet, ChangesCi;
    var always := Filter(ALWAYS, exist);
    var more := SortedSet(ciTests + Filter(CI_TESTS_EXTRA, exist));
    SetIsSorted(ciTests + Filter(CI_TESTS_EXTRA, exist));
    FilterSorted(more, p => p !in always);
    assert forall p :: p in Filter(more, p => p !in always) ==> p !in always;
    FilterListed(ALWAYS, exist);
    assert forall p :: p in always ==> p in ALWAYS;
    var named := if ChangesCi(changed) then Filter(more, p => p !in always) else [];
    assert Fixed(changed, exist, ciTests) == always + named;
    assert IsFixedOrder(Fixed(changed, exist, ciTests), always, named);
  }

  ghost predicate IsFixedOrder(fixed: seq<Path>, listed: seq<Path>, named: seq<Path>) {
    && fixed == listed + named
    && (forall p :: p in listed ==> p in ALWAYS) && InListOrder(ALWAYS, listed)
    && (forall p :: p in named ==> p !in listed) && Sorted(named, TextLeq)
  }

  lemma SetIsSorted(paths: seq<Path>)
    ensures Sorted(SortedSet(paths), TextLeq)
  {
    TextIsTotalOrder();
    SortSorts(Dedupe(paths), TextLeq);
  }

  ghost predicate ListedBefore(list: seq<Path>, p: Path, q: Path) {
    exists i: nat, j: nat :: i < j < |list| && list[i] == p && list[j] == q
  }

  ghost predicate InListOrder(list: seq<Path>, some: seq<Path>) {
    forall i, j :: 0 <= i < j < |some| ==> ListedBefore(list, some[i], some[j])
  }

  lemma {:induction false} FilterListed(list: seq<Path>, keep: Path -> bool)
    ensures InListOrder(list, Filter(list, keep))
  {
    if list != [] {
      var n := |list| - 1;
      FilterListed(list[..n], keep);
      var before, r := Filter(list[..n], keep), Filter(list, keep);
      forall i, j | 0 <= i < j < |r| ensures ListedBefore(list, r[i], r[j]) {
        ListedLonger(list, r[i], r[j]);
        assert r[i] == before[i] && before[i] in list[..n];
        if j < |before| {
          assert ListedBefore(list[..n], before[i], before[j]);
        } else {
          assert r[j] == list[n];
        }
      }
    }
  }

  lemma ListedLonger(list: seq<Path>, p: Path, q: Path)
    requires list != []
    ensures ListedBefore(list[..|list| - 1], p, q) ==> ListedBefore(list, p, q)
    ensures p in list[..|list| - 1] && q == list[|list| - 1] ==> ListedBefore(list, p, q)
  {
    var n := |list| - 1;
    if ListedBefore(list[..n], p, q) {
      var i: nat, j: nat :| i < j < n && list[..n][i] == p && list[..n][j] == q;
      assert list[i] == p && list[j] == q;
    }
    if p in list[..n] && q == list[n] {
      var i :| 0 <= i < n && list[..n][i] == p;
      assert list[i] == p && list[n] == q;
    }
  }

  lemma {:induction false} FilterSorted(s: seq<Path>, keep: Path -> bool)
    requires Sorted(s, TextLeq)
    ensures Sorted(Filter(s, keep), TextLeq)
  {
    if s != [] {
      var n := |s| - 1;
      FilterSorted(s[..n], keep);
      var before := Filter(s[..n], keep);
      forall i | 0 <= i < |before| ensures TextLeq(before[i], s[n]) {
        assert before[i] in s[..n];
      }
    }
  }

  // -- what counts as a test file ---------------------------------------------------------------

  lemma {:induction false} BaseNameEnds(path: Path)
    ensures |BaseName(path)| <= |path| && path[|path| - |BaseName(path)|..] == BaseName(path)
    ensures '/' !in BaseName(path)
    ensures |BaseName(path)| < |path| ==> path[|path| - |BaseName(path)| - 1] == '/'
  {
    if path != [] && path[|path| - 1] != '/' {
      var rest, last := path[..|path| - 1], path[|path| - 1];
      BaseNameEnds(rest);
      var k := |rest| - |BaseName(rest)|;
      assert path[k..] == rest[k..] + [last] == BaseName(path);
    }
  }

  lemma {:induction false} BaseNameOf(folder: Path, name: Path)
    requires '/' !in name
    ensures BaseName(folder + "/" + name) == name
  {
    var path := folder + "/" + name;
    if name == [] {
      assert path[|path| - 1] == '/';
    } else {
      var n := |name| - 1;
      BaseNameOf(folder, name[..n]);
      assert path[..|path| - 1] == folder + "/" + name[..n];
      assert name == name[..n] + [name[n]];
    }
  }

  lemma SlashBefore(path: Path)
    requires "tests/" <= path
    ensures |BaseName(path)| < |path|
    ensures path == path[..|path| - |BaseName(path)| - 1] + "/" + BaseName(path)
  {
    BaseNameEnds(path);
    var n := |path| - |BaseName(path)|;
    assert path[5] == "tests/"[5] == '/';
    assert n == 0 ==> path == BaseName(path);
    assert path == path[..n - 1] + [path[n - 1]] + path[n..];
  }

  lemma {:induction false} IsTestFileIff(path: Path)
    ensures IsTestModule(path) <==> IsTestFile(path)
  {
    if IsTestModule(path) {
      SlashBefore(path);
      BaseNameEnds(path);
      var name := BaseName(path);
      assert name == path[|path| - |name|..];
      assert name[|name| - 3..] == ".py";
      assert name == name[..|name| - 3] + ".py";
      assert IsTestName(name);
    }
    if IsTestFile(path) {
      var folder, name: Path :| path == folder + "/" + name && IsTestName(name);
      NamedIsModule(path, folder, name);
    }
  }

  lemma NamedIsModule(path: Path, folder: Path, name: Path)
    requires "tests/" <= path && path == folder + "/" + name && IsTestName(name)
    ensures IsTestModule(path)
  {
    BaseNameOf(folder, name);
    var stem: Path :| name == stem + ".py";
    var before := folder + "/" + stem;
    assert path == before + ".py";
    assert path[|before|..] == ".py";
  }

  /** What is packed into the budget: each once. */
  lemma {:induction false} TouchedIs(changed: seq<Path>, exist: Path -> bool, ciTests: seq<Path>)
    ensures forall p :: p in Touched(changed, exist, ciTests) <==> WasTouched(p, changed, exist, ciTests)
    ensures Distinct(Touched(changed, exist, ciTests))
  {
    hide Filter, SortedSet, IsTestModule, IsTestFile, Fixed, AlwaysRuns;
    TouchedHolds(changed, exist, ciTests);
    FixedIs(changed, exist, ciTests);
    SortedSetHolds(changed);
    forall p ensures IsTestModule(p) <==> IsTestFile(p) { IsTestFileIff(p); }
  }

  // -- what they cost ----------------------------------------------------------------------------

  /** A measured file costs what it measured; another is taken by the tests counted in it, if they could be. */
  lemma {:induction false} CostIs(changed: seq<Path>, exist: Path -> bool, ciTests: seq<Path>, t: Timings,
                                  testCount: Path -> Option<nat>, p: Path)
    requires AlwaysRuns(p, changed, exist, ciTests) || WasTouched(p, changed, exist, ciTests)
    ensures var measured := exists m :: m in t && m.path == p;
            CostOf(changed, exist, ciTests, t, testCount)(p) == WeightOf(p, if measured then None else testCount(p), t)
  {
    hide Fixed, Touched, SortedSet, CountsFor, WeightOf, AlwaysRuns, WasTouched;
    FixedIs(changed, exist, ciTests);
    TouchedIs(changed, exist, ciTests);
    var files := SortedSet(Fixed(changed, exist, ciTests) + Touched(changed, exist, ciTests));
    SortedSetHolds(Fixed(changed, exist, ciTests) + Touched(changed, exist, ciTests));
    CountsForHolds(files, t, testCount);
    assert p in files;
    assert Lookup(t, p).Some? <==> exists m :: m in t && m.path == p;
  }
}
