/** What a test file weighs, said of the timing table itself: by counting its rows, not by sorting them. */
module WeightLaws {
  import opened Ordering
  import opened Outcomes
  import opened Sharding

  function Floored(x: real): real { if x < 0.01 then 0.01 else x }

  // -- the middle of some rows ---------------------------------------------------------------

  /** How many rows are such. */
  function HowMany(t: Timings, such: Measurement -> bool): nat {
    if t == [] then 0 else (if such(t[0]) then 1 else 0) + HowMany(t[1..], such)
  }

  function Below(take: Measurement -> bool, value: Measurement -> real, y: real): Measurement -> bool {
    (m: Measurement) => take(m) && value(m) < y
  }

  function UpTo(take: Measurement -> bool, value: Measurement -> real, y: real): Measurement -> bool {
    (m: Measurement) => take(m) && value(m) <= y
  }

  function Above(take: Measurement -> bool, value: Measurement -> real, y: real): Measurement -> bool {
    (m: Measurement) => take(m) && value(m) > y
  }

  function From(take: Measurement -> bool, value: Measurement -> real, y: real): Measurement -> bool {
    (m: Measurement) => take(m) && value(m) >= y
  }

  ghost predicate IsTaken(y: real, t: Timings, take: Measurement -> bool, value: Measurement -> real) {
    exists m :: m in t && take(m) && value(m) == y
  }

  /** The least of the taken values that at least half of them do not pass. */
  ghost predicate IsLowerMiddle(lo: real, t: Timings, take: Measurement -> bool, value: Measurement -> real) {
    && IsTaken(lo, t, take, value)
    && 2 * HowMany(t, Below(take, value, lo)) < HowMany(t, take) <= 2 * HowMany(t, UpTo(take, value, lo))
  }

  /** The greatest of the taken values that at least half of them reach. */
  ghost predicate IsUpperMiddle(hi: real, t: Timings, take: Measurement -> bool, value: Measurement -> real) {
    && IsTaken(hi, t, take, value)
    && 2 * HowMany(t, Above(take, value, hi)) < HowMany(t, take) <= 2 * HowMany(t, From(take, value, hi))
  }

  /** Halfway between the two; they are the same value when an odd number is taken. */
  ghost predicate IsMiddle(x: real, t: Timings, take: Measurement -> bool, value: Measurement -> real) {
    exists lo, hi :: IsLowerMiddle(lo, t, take, value) && IsUpperMiddle(hi, t, take, value) && x + x == lo + hi
  }

  // -- counting in sequences of numbers ------------------------------------------------------

  function Count(s: seq<real>, such: real -> bool): nat {
    if s == [] then 0 else (if such(s[0]) then 1 else 0) + Count(s[1..], such)
  }

  lemma {:induction false} CountSplits(a: seq<real>, b: seq<real>, such: real -> bool)
    ensures Count(a + b, such) == Count(a, such) + Count(b, such)
  {
    if a == [] {
      assert a + b == b;
    } else {
      CountSplits(a[1..], b, such);
      assert (a + b)[1..] == a[1..] + b;
    }
  }

  lemma {:induction false} CountInserted(x: real, s: seq<real>, such: real -> bool)
    ensures Count(Insert(x, s, RealLeq), such) == (if such(x) then 1 else 0) + Count(s, such)
  {
    if s != [] && !RealLeq(x, s[0]) {
      var rest := Insert(x, s[1..], RealLeq);
      CountInserted(x, s[1..], such);
      assert Insert(x, s, RealLeq)[1..] == rest;
    } else {
      assert Insert(x, s, RealLeq)[1..] == s;
    }
  }

  lemma {:induction false} CountSorted(s: seq<real>, such: real -> bool)
    ensures Count(Sort(s, RealLeq), such) == Count(s, such)
  {
    if s != [] {
      CountSorted(s[1..], such);
      CountInserted(s[0], Sort(s[1..], RealLeq), such);
    }
  }

  lemma {:induction false} NoneSuch(s: seq<real>, such: real -> bool)
    requires forall i :: 0 <= i < |s| ==> !such(s[i])
    ensures Count(s, such) == 0
  {
    if s != [] { NoneSuch(s[1..], such); }
  }

  lemma {:induction false} AllSuch(s: seq<real>, such: real -> bool)
    requires forall i :: 0 <= i < |s| ==> such(s[i])
    ensures Count(s, such) == |s|
  {
    if s != [] { AllSuch(s[1..], such); }
  }

  lemma {:induction false} AtMostAll(s: seq<real>, such: real -> bool)
    ensures Count(s, such) <= |s|
  {
    if s != [] { AtMostAll(s[1..], such); }
  }

  /** What stands where, in ascending order. */
  lemma AroundIndex(s: seq<real>, k: nat)
    requires Sorted(s, RealLeq) && k < |s|
    ensures Count(s, x => x < s[k]) <= k && Count(s, x => x <= s[k]) >= k + 1
    ensures Count(s, x => x > s[k]) <= |s| - k - 1 && Count(s, x => x >= s[k]) >= |s| - k
  {
    var v := s[k];
    assert s == s[..k] + s[k..] && s == s[..k + 1] + s[k + 1..];
    CountSplits(s[..k], s[k..], x => x < v);
    AtMostAll(s[..k], x => x < v);
    NoneSuch(s[k..], x => x < v);
    CountSplits(s[..k + 1], s[k + 1..], x => x <= v);
    AllSuch(s[..k + 1], x => x <= v);
    CountSplits(s[..k + 1], s[k + 1..], x => x > v);
    NoneSuch(s[..k + 1], x => x > v);
    AtMostAll(s[k + 1..], x => x > v);
    CountSplits(s[..k], s[k..], x => x >= v);
    AllSuch(s[k..], x => x >= v);
  }

  // -- the table's column ------------------------------------------------------------------------

  /** The column holds one value for every row taken, and nothing for the others. */
  ghost predicate IsColumn(column: Measurement -> seq<real>, take: Measurement -> bool, value: Measurement -> real) {
    forall m :: column(m) == if take(m) then [value(m)] else []
  }

  lemma {:induction false} ColumnCounts(t: Timings, column: Measurement -> seq<real>, take: Measurement -> bool,
                                        value: Measurement -> real, such: real -> bool, rows: Measurement -> bool)
    requires IsColumn(column, take, value)
    requires forall m :: rows(m) <==> take(m) && such(value(m))
    ensures Count(Collect(t, column), such) == HowMany(t, rows)
  {
    if t != [] {
      ColumnCounts(t[1..], column, take, value, such, rows);
      CountSplits(column(t[0]), Collect(t[1..], column), such);
    }
  }

  lemma {:induction false} ColumnLength(t: Timings, column: Measurement -> seq<real>, take: Measurement -> bool, value: Measurement -> real)
    requires IsColumn(column, take, value)
    ensures |Collect(t, column)| == HowMany(t, take)
    ensures forall y :: y in Collect(t, column) ==> IsTaken(y, t, take, value)
  {
    if t != [] {
      ColumnLength(t[1..], column, take, value);
      forall y | y in Collect(t, column) ensures IsTaken(y, t, take, value) {
        if y in Collect(t[1..], column) {
          var m :| m in t[1..] && take(m) && value(m) == y;
          assert m in t;
        } else {
          assert t[0] in t && take(t[0]) && value(t[0]) == y;
        }
      }
    }
  }

  /** What the sorted column holds at an index, in the table's terms. */
  lemma SortedColumn(t: Timings, column: Measurement -> seq<real>, take: Measurement -> bool, value: Measurement -> real, k: nat)
    requires IsColumn(column, take, value) && k < |Collect(t, column)|
    ensures |Sort(Collect(t, column), RealLeq)| == |Collect(t, column)| == HowMany(t, take)
    ensures var y := Sort(Collect(t, column), RealLeq)[k];
            && IsTaken(y, t, take, value)
            && HowMany(t, Below(take, value, y)) <= k && HowMany(t, UpTo(take, value, y)) >= k + 1
            && HowMany(t, Above(take, value, y)) <= HowMany(t, take) - k - 1
            && HowMany(t, From(take, value, y)) >= HowMany(t, take) - k
  {
    var c := Collect(t, column);
    var sorted := Sort(c, RealLeq);
    RealIsTotalOrder();
    SortSorts(c, RealLeq);
    SortKeepsElements(c, RealLeq);
    ColumnLength(t, column, take, value);
    var y := sorted[k];
    assert y in sorted;
    AroundIndex(sorted, k);
    CountSorted(c, x => x < y);
    CountSorted(c, x => x <= y);
    CountSorted(c, x => x > y);
    CountSorted(c, x => x >= y);
    ColumnCounts(t, column, take, value, x => x < y, Below(take, value, y));
    ColumnCounts(t, column, take, value, x => x <= y, UpTo(take, value, y));
    ColumnCounts(t, column, take, value, x => x > y, Above(take, value, y));
    ColumnCounts(t, column, take, value, x => x >= y, From(take, value, y));
  }

  lemma LowerMiddle(t: Timings, column: Measurement -> seq<real>, take: Measurement -> bool, value: Measurement -> real)
    requires IsColumn(column, take, value) && Collect(t, column) != []
    ensures |Sort(Collect(t, column), RealLeq)| == |Collect(t, column)|
    ensures IsLowerMiddle(Sort(Collect(t, column), RealLeq)[(|Collect(t, column)| - 1) / 2], t, take, value)
  {
    hide HowMany, Collect, Sort, IsTaken, IsColumn, Below, UpTo, Above, From;
    SortedColumn(t, column, take, value, (|Collect(t, column)| - 1) / 2);
  }

  lemma UpperMiddle(t: Timings, column: Measurement -> seq<real>, take: Measurement -> bool, value: Measurement -> real)
    requires IsColumn(column, take, value) && Collect(t, column) != []
    ensures |Sort(Collect(t, column), RealLeq)| == |Collect(t, column)|
    ensures IsUpperMiddle(Sort(Collect(t, column), RealLeq)[|Collect(t, column)| / 2], t, take, value)
  {
    hide HowMany, Collect, Sort, IsTaken, IsColumn, Below, UpTo, Above, From;
    SortedColumn(t, column, take, value, |Collect(t, column)| / 2);
  }

  /** The median of a column is halfway between its two middles. */
  lemma MedianIsMiddle(t: Timings, column: Measurement -> seq<real>, take: Measurement -> bool, value: Measurement -> real)
    requires IsColumn(column, take, value) && Collect(t, column) != []
    ensures IsMiddle(Median(Collect(t, column)), t, take, value)
  {
    hide Collect, Sort, IsColumn, IsLowerMiddle, IsUpperMiddle;
    LowerMiddle(t, column, take, value);
    UpperMiddle(t, column, take, value);
    var c := Collect(t, column);
    var sorted := Sort(c, RealLeq);
    HalvesAgree(|c|);
    assert Median(c) + Median(c) == sorted[(|c| - 1) / 2] + sorted[|c| / 2];
  }

  lemma HalvesAgree(n: nat)
    requires n > 0
    ensures (n - 1) / 2 == if n % 2 == 1 then n / 2 else n / 2 - 1
  {
  }

  // -- what a file weighs -------------------------------------------------------------------------

  /** The row's seconds for as many tests as there are now. */
  ghost predicate IsRescaled(x: real, m: Measurement, n: nat) { x * m.tests as real == m.seconds * n as real }

  /** A measured file weighs its own seconds, in proportion to the tests it holds now; nothing weighs less than
      the floor. */
  lemma {:induction false} MeasuredWeight(path: Path, count: Option<nat>, t: Timings, m: Measurement)
    requires IsTable(t) && m in t && m.path == path
    ensures count.None? || m.tests <= 0 ==> WeightOf(path, count, t) == Floored(m.seconds)
    ensures count.Some? && m.tests > 0 ==>
              exists x :: IsRescaled(x, m, count.value) && WeightOf(path, count, t) == Floored(x)
  {
    LookupFinds(t, path, m);
    if count.Some? && m.tests > 0 {
      var x := MeasuredSeconds(m, count);
      if count.value != m.tests {
        Proportion(m.seconds, count.value as real, m.tests as real);
      }
      assert IsRescaled(x, m, count.value);
    }
  }

  lemma Proportion(seconds: real, n: real, tests: real)
    requires tests != 0.0
    ensures seconds * (n / tests) * tests == seconds * n
  {
    assert n / tests * tests == n;
    assert seconds * (n / tests) * tests == seconds * (n / tests * tests);
  }

  lemma {:induction false} LookupFinds(t: Timings, path: Path, m: Measurement)
    requires IsTable(t) && m in t && m.path == path
    ensures Lookup(t, path) == Some(m)
  {
    var found := Lookup(t, path);
    assert found.Some?;
    var i, j :| 0 <= i < |t| && 0 <= j < |t| && t[i] == m && t[j] == found.value;
  }

  /** Both paths start with the same directory: the text before the first slash. */
  ghost predicate SameDirectory(path: Path, other: Path) {
    exists d: Path :: Leads(d, path) && d + "/" <= other
  }

  ghost predicate Leads(d: Path, path: Path) {
    '/' !in d && (d == path || d + "/" <= path)
  }

  lemma {:induction false} DirectoryLeads(path: Path)
    ensures Leads(Directory(path), path)
  {
    if path != [] && path[0] != '/' {
      DirectoryLeads(path[1..]);
      assert path == [path[0]] + path[1..];
    }
  }

  lemma LeaderEnds(d: Path, path: Path)
    requires Leads(d, path)
    ensures |d| <= |path| && d == path[..|d|]
    ensures forall k :: 0 <= k < |d| ==> path[k] != '/'
    ensures |d| < |path| ==> path[|d|] == '/'
  {
    if d != path {
      assert path[..|d| + 1] == d + "/";
      assert d == (d + "/")[..|d|];
      assert forall k :: 0 <= k < |d| ==> path[k] == (d + "/")[k];
    }
  }

  lemma LeaderIsDirectory(d: Path, path: Path)
    requires Leads(d, path)
    ensures d == Directory(path)
  {
    DirectoryLeads(path);
    LeaderEnds(d, path);
    LeaderEnds(Directory(path), path);
  }

  lemma SameDirectoryIff(path: Path, other: Path)
    ensures SameDirectory(path, other) <==> Directory(path) + "/" <= other
  {
    DirectoryLeads(path);
    if SameDirectory(path, other) {
      var d :| Leads(d, path) && d + "/" <= other;
      LeaderIsDirectory(d, path);
    }
  }

  function Seconds(m: Measurement): real { m.seconds }

  function Rated(m: Measurement): real { if m.tests > 0 then m.seconds / m.tests as real else 0.0 }

  function Every(): Measurement -> bool { (m: Measurement) => true }

  function Tested(): Measurement -> bool { (m: Measurement) => m.tests > 0 }

  ghost function Neighbours(path: Path): Measurement -> bool {
    (m: Measurement) => m.tests > 0 && SameDirectory(path, m.path)
  }

  /** The seconds a file is taken for that nobody measured and nobody counted: the middle of the table's. */
  ghost predicate IsTypicalFile(x: real, t: Timings) {
    if t == [] then x == 5.0 else IsMiddle(x, t, Every(), Seconds)
  }

  /** The seconds one test of a file is taken for: the middle rate of the tested files beside it, of all the
      tested files if there are none beside it, five seconds if there are none at all. */
  ghost predicate IsTypicalTest(x: real, path: Path, t: Timings) {
    if HowMany(t, Neighbours(path)) > 0 then IsMiddle(x, t, Neighbours(path), Rated)
    else if HowMany(t, Tested()) > 0 then IsMiddle(x, t, Tested(), Rated)
    else x == 5.0
  }

  function ForTests(n: nat, seconds: real): real { n as real * seconds }

  /** A file nobody measured weighs its tests at the typical rate, or a typical file if nobody counted them. */
  lemma {:induction false} UnmeasuredWeight(path: Path, count: Option<nat>, t: Timings)
    requires forall m :: m in t ==> m.path != path
    ensures count.None? ==> exists x :: IsTypicalFile(x, t) && WeightOf(path, count, t) == Floored(x)
    ensures count.Some? ==> exists x :: IsTypicalTest(x, path, t) && WeightOf(path, count, t) == Floored(ForTests(count.value, x))
  {
    hide *;
    EstimateIs(path, count, t);
    TypicalFile(t);
    TypicalTest(path, t);
  }

  lemma EstimateIs(path: Path, count: Option<nat>, t: Timings)
    requires forall m :: m in t ==> m.path != path
    ensures count.None? ==> WeightOf(path, count, t) == Floored(MedianFileSeconds(t))
    ensures count.Some? ==>
              WeightOf(path, count, t) == Floored(ForTests(count.value, PerTestSeconds(t, Directory(path))))
  {
    hide MedianFileSeconds, PerTestSeconds, Directory;
  }

  lemma TypicalFile(t: Timings)
    ensures IsTypicalFile(MedianFileSeconds(t), t)
  {
    if t != [] {
      var column := (m: Measurement) => [m.seconds];
      assert Collect(t, column) != [];
      MedianIsMiddle(t, column, Every(), Seconds);
      SameColumn(t, column, (m: Measurement) => [m.seconds]);
    }
  }

  lemma {:induction false} SameColumn(t: Timings, a: Measurement -> seq<real>, b: Measurement -> seq<real>)
    requires forall m :: a(m) == b(m)
    ensures Collect(t, a) == Collect(t, b)
  {
    if t != [] { SameColumn(t[1..], a, b); }
  }

  lemma TypicalTest(path: Path, t: Timings)
    ensures IsTypicalTest(PerTestSeconds(t, Directory(path)), path, t)
  {
    var d := Directory(path) + "/";
    RatesAre(t, d, Neighbours(path), path);
    AllRatesAre(t);
  }

  lemma RatesAre(t: Timings, prefix: Path, take: Measurement -> bool, path: Path)
    requires prefix == Directory(path) + "/" && take == Neighbours(path)
    ensures |Rates(t, prefix)| == HowMany(t, take)
    ensures Rates(t, prefix) != [] ==> IsMiddle(Median(Rates(t, prefix)), t, take, Rated)
  {
    var column := (m: Measurement) => Rate(m, prefix);
    forall m ensures column(m) == if take(m) then [Rated(m)] else [] {
      SameDirectoryIff(path, m.path);
    }
    ColumnLength(t, column, take, Rated);
    SameColumn(t, column, (m: Measurement) => Rate(m, prefix));
    assert Rates(t, prefix) == Collect(t, column);
    if Rates(t, prefix) != [] { MedianIsMiddle(t, column, take, Rated); }
  }

  lemma AllRatesAre(t: Timings)
    ensures |Rates(t, "")| == HowMany(t, Tested())
    ensures Rates(t, "") != [] ==> IsMiddle(Median(Rates(t, "")), t, Tested(), Rated)
  {
    var column := (m: Measurement) => Rate(m, "");
    ColumnLength(t, column, Tested(), Rated);
    SameColumn(t, column, (m: Measurement) => Rate(m, ""));
    assert Rates(t, "") == Collect(t, column);
    if Rates(t, "") != [] { MedianIsMiddle(t, column, Tested(), Rated); }
  }
}
