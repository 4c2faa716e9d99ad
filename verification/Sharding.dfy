/** `ci_sharding.py`: what a test file costs, and which shard it belongs to. */
module Sharding {
  import opened Ordering
  import opened Outcomes
  import opened Schedule

  type Path = string

  /** One row of the timing table: a file's measured seconds and how many tests produced them. */
  datatype Measurement = Measurement(path: Path, seconds: real, tests: int)

  /** The timing table, a dictionary in insertion order. */
  type Timings = seq<Measurement>

  ghost predicate IsTable(t: Timings) {
    forall i, j :: 0 <= i < j < |t| ==> t[i].path != t[j].path
  }

  const FALLBACK_WEIGHT_SECONDS := 5.0
  const MINIMUM_WEIGHT_SECONDS := 0.01

  function Lookup(t: Timings, path: Path): (r: Option<Measurement>)
    ensures r.Some? ==> r.value in t && r.value.path == path
    ensures r.None? ==> forall m :: m in t ==> m.path != path
  {
    if t == [] then None
    else if t[0].path == path then Some(t[0])
    else Lookup(t[1..], path)
  }

  /** `statistics.median`: the middle value, or the mean of the middle two. */
  function Median(s: seq<real>): real
    requires s != []
  {
    var sorted := Sort(s, RealLeq);
    SortKeepsElements(s, RealLeq);
    var half := |s| / 2;
    if |s| % 2 == 1 then sorted[half] else (sorted[half - 1] + sorted[half]) / 2.0
  }

  /** What each row contributes, row after row. */
  function Collect<T>(t: seq<T>, column: T -> seq<real>): seq<real> {
    if t == [] then [] else column(t[0]) + Collect(t[1..], column)
  }

  function MedianFileSeconds(t: Timings): real {
    if t == [] then FALLBACK_WEIGHT_SECONDS
    else
      var seconds := Collect(t, (m: Measurement) => [m.seconds]);
      Median(seconds)
  }

  /** The part of a path before its first slash. */
  function Directory(path: Path): Path {
    if path == [] || path[0] == '/' then [] else [path[0]] + Directory(path[1..])
  }

  /** A measured file's per-test rate, if its path starts with `prefix` and it held any tests. */
  function Rate(m: Measurement, prefix: Path): seq<real> {
    if prefix <= m.path && m.tests > 0 then [m.seconds / m.tests as real] else []
  }

  function Rates(t: Timings, prefix: Path): seq<real> {
    Collect(t, (m: Measurement) => Rate(m, prefix))
  }

  function MedianOr(rates: seq<real>): real {
    if rates == [] then FALLBACK_WEIGHT_SECONDS else Median(rates)
  }

  function PerTestSeconds(t: Timings, directory: Path): real {
    var own := Rates(t, directory + "/");
    MedianOr(if own == [] then Rates(t, "") else own)
  }

  function AtLeastFloor(seconds: real): real {
    if seconds < MINIMUM_WEIGHT_SECONDS then MINIMUM_WEIGHT_SECONDS else seconds
  }

  /** A measured file: its own seconds, scaled when it has grown or shrunk since. */
  function MeasuredSeconds(m: Measurement, count: Option<nat>): real {
    if count.None? || m.tests <= 0 || count.value == m.tests then m.seconds
    else m.seconds * (count.value as real / m.tests as real)
  }

  /** A file nobody has measured: its tests at its directory's rate, or the median file. */
  function EstimatedSeconds(count: Option<nat>, medianFile: real, perTest: real): real {
    if count.None? then medianFile else count.value as real * perTest
  }

  /** The predicted cost of one test file; no file weighs less than the floor. */
  function WeightOf(path: Path, count: Option<nat>, t: Timings): (w: real)
    ensures w >= MINIMUM_WEIGHT_SECONDS
  {
    match Lookup(t, path)
    case Some(m) => AtLeastFloor(MeasuredSeconds(m, count))
    case None => AtLeastFloor(EstimatedSeconds(count, MedianFileSeconds(t), PerTestSeconds(t, Directory(path))))
  }

  function CountOf(counts: map<Path, nat>, path: Path): Option<nat> {
    if path in counts then Some(counts[path]) else None
  }

  /** What each file costs, given the live test counts and the timing table. */
  function Price(counts: map<Path, nat>, t: Timings): Path -> real {
    (p: Path) => WeightOf(p, CountOf(counts, p), t)
  }

  // -- the table is read as a dictionary: insertion order never shows -----------------

  lemma RealIsTotalOrder()
    ensures TotalOrder(RealLeq)
  {
  }

  lemma {:induction false} CollectWithout<T>(t: seq<T>, column: T -> seq<real>, i: nat)
    requires i < |t|
    ensures multiset(Collect(t, column)) == multiset(column(t[i])) + multiset(Collect(Without(t, i), column))
  {
    if i == 0 {
      assert Without(t, 0) == t[1..];
    } else {
      CollectWithout(t[1..], column, i - 1);
      assert Without(t[1..], i - 1) == Without(t, i)[1..];
    }
  }

  lemma {:induction false} CollectForgetsOrder<T>(t: seq<T>, u: seq<T>, column: T -> seq<real>)
    requires multiset(t) == multiset(u)
    ensures multiset(Collect(t, column)) == multiset(Collect(u, column))
    decreases |t|
  {
    SameLength(t, u);
    if t != [] {
      assert t[0] in multiset(u);
      var i :| 0 <= i < |u| && u[i] == t[0];
      WithoutDrops(t, 0);
      WithoutDrops(u, i);
      CollectForgetsOrder(Without(t, 0), Without(u, i), column);
      CollectWithout(t, column, 0);
      CollectWithout(u, column, i);
    }
  }

  lemma MedianForgetsOrder(a: seq<real>, b: seq<real>)
    requires multiset(a) == multiset(b)
    ensures MedianOr(a) == MedianOr(b)
  {
    SameLength(a, b);
    RealIsTotalOrder();
    SortForgetsOrder(a, b, RealLeq);
  }

  lemma RatesForgetOrder(t: Timings, u: Timings, prefix: Path)
    requires multiset(t) == multiset(u)
    ensures multiset(Rates(t, prefix)) == multiset(Rates(u, prefix))
    ensures |Rates(t, prefix)| == |Rates(u, prefix)|
  {
    CollectForgetsOrder(t, u, (m: Measurement) => Rate(m, prefix));
    SameLength(Rates(t, prefix), Rates(u, prefix));
  }

  lemma LookupForgetsOrder(t: Timings, u: Timings, path: Path)
    requires IsTable(t) && IsTable(u) && multiset(t) == multiset(u)
    ensures Lookup(t, path) == Lookup(u, path)
  {
    forall m ensures m in t <==> m in u {
      assert m in multiset(t) <==> m in multiset(u);
    }
  }

  lemma MedianFileForgetsOrder(t: Timings, u: Timings)
    requires multiset(t) == multiset(u)
    ensures MedianFileSeconds(t) == MedianFileSeconds(u)
  {
    var column := (m: Measurement) => [m.seconds];
    SameLength(t, u);
    CollectForgetsOrder(t, u, column);
    if t != [] {
      assert Collect(t, column) != [] && Collect(u, column) != [];
      MedianForgetsOrder(Collect(t, column), Collect(u, column));
    }
  }

  lemma PerTestForgetsOrder(t: Timings, u: Timings, directory: Path)
    requires multiset(t) == multiset(u)
    ensures PerTestSeconds(t, directory) == PerTestSeconds(u, directory)
  {
    var p := directory + "/";
    RatesForgetOrder(t, u, p);
    RatesForgetOrder(t, u, "");
    MedianForgetsOrder(Rates(t, p), Rates(u, p));
    MedianForgetsOrder(Rates(t, ""), Rates(u, ""));
  }

  /** What a file weighs depends on what the timing table says, not on the order it says it in. */
  lemma WeightIgnoresTableOrder(path: Path, count: Option<nat>, t: Timings, u: Timings)
    requires IsTable(t) && IsTable(u) && multiset(t) == multiset(u)
    ensures WeightOf(path, count, t) == WeightOf(path, count, u)
  {
    LookupForgetsOrder(t, u, path);
    MedianFileForgetsOrder(t, u);
    PerTestForgetsOrder(t, u, Directory(path));
  }

  // -- files in the order they are handed out -------------------------------------

  datatype File = File(path: Path, weight: real)

  /** The key `(-weight, path)`: heavier first, then by path. */
  predicate Before(a: File, b: File) {
    a.weight > b.weight || (a.weight == b.weight && TextLeq(a.path, b.path))
  }

  lemma BeforeIsTotalOrder()
    ensures TotalOrder(Before)
  {
    TextIsTotalOrder();
  }

  function Priced(paths: seq<Path>, cost: Path -> real): (r: seq<File>)
    ensures |r| == |paths|
    ensures forall i :: 0 <= i < |r| ==> r[i] == File(paths[i], cost(paths[i]))
  {
    seq(|paths|, i requires 0 <= i < |paths| => File(paths[i], cost(paths[i])))
  }

  /** Every file once, heaviest first, ties by path. */
  function Queue(files: seq<Path>, cost: Path -> real): seq<File> {
    Sort(Priced(Dedupe(files), cost), Before)
  }

  function Weights(queue: seq<File>): (w: seq<real>)
    ensures |w| == |queue|
    ensures forall i :: 0 <= i < |w| ==> w[i] == queue[i].weight
  {
    seq(|queue|, i requires 0 <= i < |queue| => queue[i].weight)
  }

  /** The first `n` files' paths that assignment `a` puts on shard `j`, in hand-out order. */
  function Placed(queue: seq<File>, a: seq<nat>, n: nat, j: nat): seq<Path>
    requires n <= |queue| && n <= |a|
  {
    if n == 0 then []
    else if a[n - 1] == j then Placed(queue, a, n - 1, j) + [queue[n - 1].path]
    else Placed(queue, a, n - 1, j)
  }

  function AllPlaced(queue: seq<File>, a: seq<nat>, n: nat, m: nat): (s: seq<seq<Path>>)
    requires n <= |queue| && n <= |a|
    ensures |s| == m
    ensures forall j :: 0 <= j < m ==> s[j] == Placed(queue, a, n, j)
  {
    seq(m, j requires 0 <= j < m => Placed(queue, a, n, j))
  }

  /** Handing out file `k` changes the one shard it goes to. */
  lemma OneMorePlaced(queue: seq<File>, w: seq<real>, a: seq<nat>, k: nat, m: nat)
    requires k < |queue| == |w| == |a| && a[k] < m
    ensures var s := AllPlaced(queue, a, k, m);
            AllPlaced(queue, a, k + 1, m) == s[a[k] := s[a[k]] + [queue[k].path]]
    ensures var l := Loads(w, a, k, m); Loads(w, a, k + 1, m) == l[a[k] := l[a[k]] + w[k]]
  {
  }

  /** What `partition` returns: each shard's files, in alphabetical order. */
  function Shards(files: seq<Path>, m: nat, cost: Path -> real): (s: seq<seq<Path>>)
    requires m >= 1
    ensures |s| == m
  {
    var queue := Queue(files, cost);
    var a := Assign(Weights(queue), m, |queue|);
    seq(m, j requires 0 <= j < m => Sort(Placed(queue, a, |queue|, j), TextLeq))
  }

  datatype PartitionError = NoSuchSplit

  method Partition(files: seq<Path>, shardCount: int, counts: map<Path, nat>, t: Timings)
    returns (r: Result<seq<seq<Path>>, PartitionError>)
    ensures shardCount < 1 ==> r == Refused(NoSuchSplit)
    ensures shardCount >= 1 ==> r == Ok(Shards(files, shardCount, Price(counts, t)))
  {
    if shardCount < 1 { return Refused(NoSuchSplit); }
    var ordered := Queue(files, Price(counts, t));
    var shards := HandOut(ordered, shardCount);
    var byName := seq(shardCount, j requires 0 <= j < shardCount reads shards => Sort(shards[j], TextLeq));
    assert byName == Shards(files, shardCount, Price(counts, t));
    r := Ok(byName);
  }

  /** The shards and loads once the first `k` files are handed out. */
  ghost predicate HandedOut(ordered: seq<File>, m: nat, k: nat, shards: seq<seq<Path>>, load: seq<real>)
    requires m >= 1 && k <= |ordered|
  {
    var w := Weights(ordered);
    var a := Assign(w, m, |ordered|);
    shards == AllPlaced(ordered, a, k, m) && load == Loads(w, a, k, m)
  }

  /** The loop of `partition`: each file to whichever shard is lightest so far. */
  method HandOut(ordered: seq<File>, shardCount: nat) returns (shards: array<seq<Path>>)
    requires shardCount >= 1
    ensures fresh(shards) && shards.Length == shardCount
    ensures var a := Assign(Weights(ordered), shardCount, |ordered|);
            shards[..] == AllPlaced(ordered, a, |ordered|, shardCount)
  {
    hide AllPlaced, Loads, Assign, Weights, Lightest, HandedOut;
    shards := new seq<Path>[shardCount](_ => []);
    var load := new real[shardCount](_ => 0.0);
    NothingHandedOut(ordered, shardCount, shards[..], load[..]);
    for k := 0 to |ordered|
      invariant HandedOut(ordered, shardCount, k, shards[..], load[..])
    {
      HandOutOne(ordered, shardCount, k, shards[..], load[..]);
      var lightest := Lightest(load[..]);
      Give(shards, load, lightest, ordered[k]);
    }
    AllHandedOut(ordered, shardCount, shards[..], load[..]);
  }

  lemma NothingHandedOut(ordered: seq<File>, m: nat, shards: seq<seq<Path>>, load: seq<real>)
    requires m >= 1 && |shards| == |load| == m
    requires forall j :: 0 <= j < m ==> shards[j] == [] && load[j] == 0.0
    ensures HandedOut(ordered, m, 0, shards, load)
  {
  }

  lemma AllHandedOut(ordered: seq<File>, m: nat, shards: seq<seq<Path>>, load: seq<real>)
    requires m >= 1 && HandedOut(ordered, m, |ordered|, shards, load)
    ensures shards == AllPlaced(ordered, Assign(Weights(ordered), m, |ordered|), |ordered|, m)
  {
  }

  method Give(shards: array<seq<Path>>, load: array<real>, i: nat, file: File)
    requires i < shards.Length == load.Length
    modifies shards, load
    ensures shards[..] == old(shards[..])[i := old(shards[..])[i] + [file.path]]
    ensures load[..] == old(load[..])[i := old(load[..])[i] + file.weight]
  {
    shards[i] := shards[i] + [file.path];
    load[i] := load[i] + file.weight;
  }

  /** Handing out file `k`: the shard that is lightest then gets it, and no other shard changes. */
  lemma HandOutOne(ordered: seq<File>, m: nat, k: nat, shards: seq<seq<Path>>, load: seq<real>)
    requires m >= 1 && k < |ordered| && HandedOut(ordered, m, k, shards, load)
    ensures |shards| == |load| == m
    ensures var i := Lightest(load);
            HandedOut(ordered, m, k + 1,
              shards[i := shards[i] + [ordered[k].path]], load[i := load[i] + ordered[k].weight])
  {
    var w := Weights(ordered);
    hide Assign, AllPlaced, Loads, Lightest;
    NextShard(w, m, k);
    OneMorePlaced(ordered, w, Assign(w, m, |ordered|), k, m);
  }

  /** File `k` goes where the loads before it say. */
  lemma NextShard(w: seq<real>, m: nat, k: nat)
    requires m >= 1 && k < |w|
    ensures var a := Assign(w, m, |w|); a[k] == Lightest(Loads(w, a, k, m))
  {
    var a, before := Assign(w, m, |w|), Assign(w, m, k);
    AssignExtends(w, m, k, |w|);
    AssignExtends(w, m, k + 1, |w|);
    assert a[k] == a[..k + 1][k] == Lightest(Loads(w, before, k, m));
    SameLoads(w, m, k, a, before);
  }

  lemma SameLoads(w: seq<real>, m: nat, k: nat, a: seq<nat>, before: seq<nat>)
    requires k <= |w| && k <= |a| && a[..k] == before
    ensures Loads(w, a, k, m) == Loads(w, before, k, m)
  {
    assert forall t :: 0 <= t < k ==> a[t] == a[..k][t];
    forall j | 0 <= j < m ensures Loads(w, a, k, m)[j] == Loads(w, before, k, m)[j] {
      LoadReadsPrefix(w, a, before, k, j);
    }
  }
}
