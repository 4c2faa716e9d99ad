/** Which split `partition` returns, exactly: said of the files, their weights and the shards. */
module GreedySplit {
  import opened Ordering
  import opened Outcomes
  import opened Schedule
  import opened Sharding
  import opened PartitionLaws

  /** Every file once: heavier before lighter, and by name where equally heavy. */
  ghost predicate InOrder(files: seq<Path>, cost: Path -> real, queue: seq<Path>) {
    && Distinct(queue) && (forall p :: p in queue <==> p in files)
    && forall i, j :: 0 <= i < j < |queue| ==>
         cost(queue[i]) > cost(queue[j]) || (cost(queue[i]) == cost(queue[j]) && TextLeq(queue[i], queue[j]))
  }

  /** What shard `j` weighs when the first `k` files of the queue are placed. */
  function Weighs(queue: seq<Path>, cost: Path -> real, a: seq<nat>, k: nat, j: nat): real
    requires k <= |queue| && k <= |a|
  {
    if k == 0 then 0.0 else Weighs(queue, cost, a, k - 1, j) + (if a[k - 1] == j then cost(queue[k - 1]) else 0.0)
  }

  /** File `k` goes to the first shard that is lightest when its turn comes. */
  ghost predicate ToLightest(queue: seq<Path>, cost: Path -> real, m: nat, a: seq<nat>, k: nat)
    requires k < |a| == |queue|
  {
    && a[k] < m
    && forall j :: 0 <= j < m ==>
         if j < a[k] then Weighs(queue, cost, a, k, a[k]) < Weighs(queue, cost, a, k, j)
         else Weighs(queue, cost, a, k, a[k]) <= Weighs(queue, cost, a, k, j)
  }

  ghost predicate EachToLightest(queue: seq<Path>, cost: Path -> real, m: nat, a: seq<nat>) {
    |a| == |queue| && forall k :: 0 <= k < |a| ==> ToLightest(queue, cost, m, a, k)
  }

  /** Each shard holds what was placed on it, by name. */
  ghost predicate ByName(queue: seq<Path>, a: seq<nat>, m: nat, shards: seq<seq<Path>>)
    requires |a| == |queue|
  {
    && |shards| == m
    && (forall j :: 0 <= j < m ==> Distinct(shards[j]) && Sorted(shards[j], TextLeq))
    && (forall j, p :: 0 <= j < m ==> (p in shards[j] <==> exists i :: 0 <= i < |queue| && a[i] == j && queue[i] == p))
  }

  ghost predicate IsGreedySplit(files: seq<Path>, cost: Path -> real, m: nat, queue: seq<Path>, a: seq<nat>, shards: seq<seq<Path>>) {
    InOrder(files, cost, queue) && EachToLightest(queue, cost, m, a) && ByName(queue, a, m, shards)
  }

  // -- the queue is the sorted one ---------------------------------------------------------------

  function PathsIn(queue: seq<File>): (r: seq<Path>)
    ensures |r| == |queue|
    ensures forall i :: 0 <= i < |r| ==> r[i] == queue[i].path
  {
    seq(|queue|, i requires 0 <= i < |queue| => queue[i].path)
  }

  lemma {:induction false} WeighsIsLoad(queue: seq<File>, cost: Path -> real, a: seq<nat>, k: nat, j: nat)
    requires k <= |queue| && k <= |a| && forall i :: 0 <= i < |queue| ==> queue[i].weight == cost(queue[i].path)
    ensures Weighs(PathsIn(queue), cost, a, k, j) == Load(Weights(queue), a, k, j)
  {
    if k > 0 { WeighsIsLoad(queue, cost, a, k - 1, j); }
  }

  lemma QueueIsInOrder(files: seq<Path>, cost: Path -> real)
    ensures InOrder(files, cost, PathsIn(Queue(files, cost)))
  {
    var queue := Queue(files, cost);
    QueueHolds(files, cost);
    QueueDistinct(files, cost);
    BeforeIsTotalOrder();
    SortSorts(Priced(Dedupe(files), cost), Before);
    forall i, j | 0 <= i < j < |queue|
      ensures cost(queue[i].path) > cost(queue[j].path)
              || (cost(queue[i].path) == cost(queue[j].path) && TextLeq(queue[i].path, queue[j].path))
    {
      assert Before(queue[i], queue[j]);
    }
  }

  function AsFiles(queue: seq<Path>, cost: Path -> real): (r: seq<File>)
    ensures |r| == |queue|
    ensures forall i :: 0 <= i < |r| ==> r[i] == File(queue[i], cost(queue[i]))
  {
    Priced(queue, cost)
  }

  /** Only one queue is in order. */
  lemma OrderIsUnique(files: seq<Path>, cost: Path -> real, queue: seq<Path>)
    requires InOrder(files, cost, queue)
    ensures queue == PathsIn(Queue(files, cost)) && AsFiles(queue, cost) == Queue(files, cost)
  {
    var mine, theirs := AsFiles(queue, cost), Queue(files, cost);
    BeforeIsTotalOrder();
    SortSorts(Priced(Dedupe(files), cost), Before);
    QueueHolds(files, cost);
    QueueDistinct(files, cost);
    SameFiles(files, cost, queue);
    DistinctSameMembers(mine, theirs);
    SortedIsUnique(mine, theirs, Before);
  }

  lemma SameFiles(files: seq<Path>, cost: Path -> real, queue: seq<Path>)
    requires InOrder(files, cost, queue)
    ensures Distinct(AsFiles(queue, cost)) && Distinct(Queue(files, cost))
    ensures forall f :: f in AsFiles(queue, cost) <==> f in Queue(files, cost)
  {
    var mine, theirs := AsFiles(queue, cost), Queue(files, cost);
    QueueHolds(files, cost);
    QueueDistinct(files, cost);
    forall f | f in mine ensures f in theirs {
      assert f.path in files;
      var i :| 0 <= i < |theirs| && theirs[i].path == f.path;
      assert theirs[i] == f;
    }
    forall f | f in theirs ensures f in mine {
      assert f.path in queue;
      var i :| 0 <= i < |queue| && queue[i] == f.path;
      assert mine[i] == f;
    }
  }

  lemma LightestIsGreedy(queue: seq<File>, cost: Path -> real, m: nat, a: seq<nat>)
    requires forall i :: 0 <= i < |queue| ==> queue[i].weight == cost(queue[i].path)
    ensures EachToLightest(PathsIn(queue), cost, m, a) <==> Greedy(Weights(queue), m, a)
  {
    if |a| == |queue| {
      forall k | 0 <= k < |a| ensures ToLightest(PathsIn(queue), cost, m, a, k) <==> WentToLightest(Weights(queue), m, a, k) {
        WeighsIsLoad(queue, cost, a, k, a[k]);
        forall j | 0 <= j < m ensures Weighs(PathsIn(queue), cost, a, k, j) == Load(Weights(queue), a, k, j) {
          WeighsIsLoad(queue, cost, a, k, j);
        }
      }
    }
  }

  /** `partition` returns such a split, and there is no other: the files, their weights and the number of
      shards leave no choice. */
  lemma {:induction false} PartitionIsTheGreedySplit(files: seq<Path>, cost: Path -> real, m: nat, shards: seq<seq<Path>>)
    requires m >= 1
    ensures (exists queue, a :: IsGreedySplit(files, cost, m, queue, a, shards)) <==> shards == Shards(files, m, cost)
  {
    if shards == Shards(files, m, cost) {
      ShardsAreGreedy(files, cost, m);
    }
    forall queue, a | IsGreedySplit(files, cost, m, queue, a, shards) ensures shards == Shards(files, m, cost) {
      GreedyIsShards(files, cost, m, queue, a, shards);
    }
  }

  lemma ShardsAreGreedy(files: seq<Path>, cost: Path -> real, m: nat)
    requires m >= 1
    ensures exists queue, a :: IsGreedySplit(files, cost, m, queue, a, Shards(files, m, cost))
  {
    var queue := Queue(files, cost);
    var a := Assign(Weights(queue), m, |queue|);
    QueueIsInOrder(files, cost);
    QueueHolds(files, cost);
    AssignIsGreedy(Weights(queue), m);
    LightestIsGreedy(queue, cost, m, a);
    forall j | 0 <= j < m
      ensures Distinct(Shards(files, m, cost)[j]) && Sorted(Shards(files, m, cost)[j], TextLeq)
      ensures forall p :: p in Shards(files, m, cost)[j]
                <==> exists i :: 0 <= i < |queue| && a[i] == j && PathsIn(queue)[i] == p
    {
      MembersByPath(files, m, cost, j);
      ShardsAreAlphabetical(files, m, cost, j);
    }
    assert IsGreedySplit(files, cost, m, PathsIn(queue), a, Shards(files, m, cost));
  }

  lemma MembersByPath(files: seq<Path>, m: nat, cost: Path -> real, j: nat)
    requires j < m
    ensures var queue := Queue(files, cost); var a := Assign(Weights(queue), m, |queue|);
            && Distinct(Shards(files, m, cost)[j])
            && forall p :: p in Shards(files, m, cost)[j]
                 <==> exists i :: 0 <= i < |queue| && a[i] == j && PathsIn(queue)[i] == p
  {
    var queue := Queue(files, cost);
    var a := Assign(Weights(queue), m, |queue|);
    var shard := Shards(files, m, cost)[j];
    ShardMembers(files, m, cost, j);
    forall p ensures p in shard <==> exists i :: 0 <= i < |queue| && a[i] == j && PathsIn(queue)[i] == p {
      if p in shard {
        var i :| 0 <= i < |queue| && a[i] == j && queue[i].path == p;
        assert PathsIn(queue)[i] == p;
      }
      if i :| 0 <= i < |queue| && a[i] == j && PathsIn(queue)[i] == p {
        assert queue[i].path == p;
      }
    }
  }

  lemma GreedyIsShards(files: seq<Path>, cost: Path -> real, m: nat, queue: seq<Path>, a: seq<nat>, shards: seq<seq<Path>>)
    requires m >= 1 && IsGreedySplit(files, cost, m, queue, a, shards)
    ensures shards == Shards(files, m, cost)
  {
    var ordered := Queue(files, cost);
    var chosen := Assign(Weights(ordered), m, |ordered|);
    OrderIsUnique(files, cost, queue);
    QueueHolds(files, cost);
    LightestIsGreedy(ordered, cost, m, a);
    AssignIsGreedy(Weights(ordered), m);
    GreedyIsUnique(Weights(ordered), m, a, chosen, |ordered|);
    assert a == a[..|ordered|] == chosen[..|ordered|] == chosen;
    forall j | 0 <= j < m ensures shards[j] == Shards(files, m, cost)[j] {
      MembersByPath(files, m, cost, j);
      ShardsAreAlphabetical(files, m, cost, j);
      SameSorted(shards[j], Shards(files, m, cost)[j]);
    }
  }

  lemma SameSorted(a: seq<Path>, b: seq<Path>)
    requires Distinct(a) && Distinct(b) && Sorted(a, TextLeq) && Sorted(b, TextLeq)
    requires forall p :: p in a <==> p in b
    ensures a == b
  {
    TextIsTotalOrder();
    DistinctSameMembers(a, b);
    SortedIsUnique(a, b, TextLeq);
  }

  /** The price every file is split by is its weight, under the count it is given, if it is given one. */
  lemma PriceIsWeight(counts: map<Path, nat>, t: Timings, p: Path)
    ensures Price(counts, t)(p) == WeightOf(p, if p in counts then Some(counts[p]) else None, t)
  {
  }
}
