/** What `partition` promises: completeness, reproducibility, balance and near-optimality. */
module PartitionLaws {
  import opened Ordering
  import opened Schedule
  import opened Sharding

  /** Every file in exactly one shard, exactly once, and nothing else in any. */
  ghost predicate IsPartition(files: seq<Path>, shards: seq<seq<Path>>) {
    && (forall j :: 0 <= j < |shards| ==> Distinct(shards[j]))
    && (forall j, p :: 0 <= j < |shards| && p in shards[j] ==> p in files)
    && (forall p :: p in files ==> exists j :: 0 <= j < |shards| && p in shards[j])
    && (forall i, j, p :: 0 <= i < j < |shards| && p in shards[i] ==> p !in shards[j])
  }

  /** `predicted_load`: the seconds a shard's files are expected to take together. */
  function PredictedLoad(shard: seq<Path>, cost: Path -> real): real {
    Sum(shard, cost)
  }

  /** Every file costs something, as the weight floor guarantees. */
  ghost predicate Positive(cost: Path -> real) {
    forall p :: cost(p) > 0.0
  }

  lemma PriceIsPositive(counts: map<Path, nat>, t: Timings)
    ensures Positive(Price(counts, t))
  {
  }

  // -- the queue --------------------------------------------------------------------

  lemma QueueHolds(files: seq<Path>, cost: Path -> real)
    ensures var queue := Queue(files, cost);
            && |queue| == |Dedupe(files)|
            && (forall i :: 0 <= i < |queue| ==>
                  && queue[i].path in files
                  && queue[i].weight == cost(queue[i].path))
            && (forall p :: p in files ==> exists i :: 0 <= i < |queue| && queue[i].path == p)
  {
    var queue, priced := Queue(files, cost), Priced(Dedupe(files), cost);
    SortKeepsElements(priced, Before);
    forall i | 0 <= i < |queue|
      ensures queue[i].path in files
      ensures queue[i].weight == cost(queue[i].path)
    {
      assert queue[i] in priced;
    }
    forall p | p in files ensures exists i :: 0 <= i < |queue| && queue[i].path == p {
      var k :| 0 <= k < |Dedupe(files)| && Dedupe(files)[k] == p;
      assert priced[k] in queue;
    }
  }

  lemma QueueDistinct(files: seq<Path>, cost: Path -> real)
    ensures var queue := Queue(files, cost);
            forall i, j :: 0 <= i < j < |queue| ==> queue[i].path != queue[j].path
  {
    var queue, priced := Queue(files, cost), Priced(Dedupe(files), cost);
    SortKeepsElements(priced, Before);
    MultisetDistinct(priced, queue);
    QueueHolds(files, cost);
  }

  lemma QueueDescends(files: seq<Path>, cost: Path -> real)
    requires Positive(cost)
    ensures Descending(Weights(Queue(files, cost)))
  {
    BeforeIsTotalOrder();
    SortSorts(Priced(Dedupe(files), cost), Before);
    QueueHolds(files, cost);
  }

  // -- which files a shard holds --------------------------------------------------------

  lemma {:induction false} PlacedMembers(queue: seq<File>, a: seq<nat>, n: nat, j: nat)
    requires n <= |queue| && n <= |a|
    ensures forall p :: p in Placed(queue, a, n, j) <==> exists i :: 0 <= i < n && a[i] == j && queue[i].path == p
  {
    if n > 0 {
      PlacedMembers(queue, a, n - 1, j);
    }
  }

  lemma {:induction false} PlacedDistinct(queue: seq<File>, a: seq<nat>, n: nat, j: nat)
    requires n <= |queue| && n <= |a|
    requires forall i, k :: 0 <= i < k < |queue| ==> queue[i].path != queue[k].path
    ensures Distinct(Placed(queue, a, n, j))
  {
    if n > 0 {
      PlacedDistinct(queue, a, n - 1, j);
      PlacedMembers(queue, a, n - 1, j);
      assert queue[n - 1].path !in Placed(queue, a, n - 1, j);
    }
  }

  lemma ShardMembers(files: seq<Path>, m: nat, cost: Path -> real, j: nat)
    requires j < m
    ensures var queue := Queue(files, cost); var a := Assign(Weights(queue), m, |queue|);
            && multiset(Shards(files, m, cost)[j]) == multiset(Placed(queue, a, |queue|, j))
            && Distinct(Shards(files, m, cost)[j])
            && (forall p :: p in Shards(files, m, cost)[j] <==>
                  exists i :: 0 <= i < |queue| && a[i] == j && queue[i].path == p)
  {
    var queue := Queue(files, cost);
    var a := Assign(Weights(queue), m, |queue|);
    var placed := Placed(queue, a, |queue|, j);
    SortKeepsElements(placed, TextLeq);
    PlacedMembers(queue, a, |queue|, j);
    QueueDistinct(files, cost);
    PlacedDistinct(queue, a, |queue|, j);
    MultisetDistinct(placed, Shards(files, m, cost)[j]);
  }

  /** Completeness: the shards are a partition of the collected files. */
  lemma PartitionIsComplete(files: seq<Path>, m: nat, cost: Path -> real)
    requires m >= 1
    ensures IsPartition(files, Shards(files, m, cost))
  {
    var shards := Shards(files, m, cost);
    var queue := Queue(files, cost);
    var a := Assign(Weights(queue), m, |queue|);
    QueueHolds(files, cost);
    QueueDistinct(files, cost);
    forall j | 0 <= j < m
      ensures Distinct(shards[j])
      ensures forall p :: p in shards[j] ==> p in files
    {
      ShardMembers(files, m, cost, j);
    }
    forall p | p in files ensures exists j :: 0 <= j < m && p in shards[j] {
      var i :| 0 <= i < |queue| && queue[i].path == p;
      ShardMembers(files, m, cost, a[i]);
    }
    forall i, j, p | 0 <= i < j < m && p in shards[i] ensures p !in shards[j] {
      ShardMembers(files, m, cost, i);
      ShardMembers(files, m, cost, j);
    }
  }

  /** Inside a shard the files stand in the order the serial run takes them. */
  lemma ShardsAreAlphabetical(files: seq<Path>, m: nat, cost: Path -> real, j: nat)
    requires j < m
    ensures Sorted(Shards(files, m, cost)[j], TextLeq)
  {
    var queue := Queue(files, cost);
    TextIsTotalOrder();
    SortSorts(Placed(queue, Assign(Weights(queue), m, |queue|), |queue|, j), TextLeq);
  }

  /** Reproducibility: nothing counts but which files there are and what each weighs — neither the
      order they come in, nor repeats, nor anything else in the counts or the table. */
  lemma PartitionIsReproducible(files: seq<Path>, again: seq<Path>, m: nat,
                                cost: Path -> real, cost': Path -> real)
    requires m >= 1
    requires forall p :: p in files <==> p in again
    requires forall p :: p in files ==> cost(p) == cost'(p)
    ensures Shards(files, m, cost) == Shards(again, m, cost')
  {
    var a, b := Priced(Dedupe(files), cost), Priced(Dedupe(again), cost');
    forall f ensures f in a <==> f in b {
      if f in a {
        assert f.path in Dedupe(again);
        var k :| 0 <= k < |Dedupe(again)| && Dedupe(again)[k] == f.path;
        assert b[k] == f;
      }
      if f in b {
        assert f.path in Dedupe(files);
        var k :| 0 <= k < |Dedupe(files)| && Dedupe(files)[k] == f.path;
        assert a[k] == f;
      }
    }
    DistinctSameMembers(a, b);
    BeforeIsTotalOrder();
    SortForgetsOrder(a, b, Before);
  }

  // -- how heavy a shard is ----------------------------------------------------------------

  lemma {:induction false} PlacedLoad(queue: seq<File>, cost: Path -> real, a: seq<nat>, n: nat, j: nat)
    requires n <= |queue| && n <= |a|
    requires forall i :: 0 <= i < |queue| ==> queue[i].weight == cost(queue[i].path)
    ensures PredictedLoad(Placed(queue, a, n, j), cost) == Load(Weights(queue), a, n, j)
  {
    if n > 0 {
      PlacedLoad(queue, cost, a, n - 1, j);
      SumAppend(Placed(queue, a, n - 1, j), queue[n - 1].path, cost);
    }
  }

  lemma ShardLoad(files: seq<Path>, m: nat, cost: Path -> real, j: nat)
    requires j < m
    ensures var w := Weights(Queue(files, cost));
            PredictedLoad(Shards(files, m, cost)[j], cost) == Load(w, Assign(w, m, |w|), |w|, j)
  {
    var queue := Queue(files, cost);
    var a := Assign(Weights(queue), m, |queue|);
    ShardMembers(files, m, cost, j);
    SumForgetsOrder(Shards(files, m, cost)[j], Placed(queue, a, |queue|, j), cost);
    QueueHolds(files, cost);
    PlacedLoad(queue, cost, a, |queue|, j);
  }

  /** The shard `other` puts each queued file on. */
  ghost function Placement(queue: seq<File>, files: seq<Path>, other: seq<seq<Path>>): (b: seq<nat>)
    requires IsPartition(files, other)
    requires forall i :: 0 <= i < |queue| ==> queue[i].path in files
    ensures |b| == |queue|
    ensures forall i :: 0 <= i < |b| ==> b[i] < |other| && queue[i].path in other[b[i]]
  {
    seq(|queue|, i requires 0 <= i < |queue| =>
      assert queue[i].path in files;
      var j: nat :| 0 <= j < |other| && queue[i].path in other[j]; j)
  }

  lemma OtherShardLoad(files: seq<Path>, cost: Path -> real, other: seq<seq<Path>>, b: seq<nat>, j: nat)
    requires IsPartition(files, other) && j < |other|
    requires var queue := Queue(files, cost);
             && |b| == |queue|
             && forall i :: 0 <= i < |b| ==> b[i] < |other| && queue[i].path in other[b[i]]
    ensures var queue := Queue(files, cost);
            Load(Weights(queue), b, |queue|, j) == PredictedLoad(other[j], cost)
  {
    var queue := Queue(files, cost);
    var placed := Placed(queue, b, |queue|, j);
    PlacedMembers(queue, b, |queue|, j);
    QueueHolds(files, cost);
    QueueDistinct(files, cost);
    PlacedDistinct(queue, b, |queue|, j);
    forall p ensures p in placed <==> p in other[j] {
      if p in other[j] {
        assert p in files;
        var i :| 0 <= i < |queue| && queue[i].path == p;
        assert p in other[b[i]];
      }
    }
    DistinctSameMembers(placed, other[j]);
    SumForgetsOrder(placed, other[j], cost);
    PlacedLoad(queue, cost, b, |queue|, j);
  }

  /** The documented promise made precise: whatever other way the same files are split into as many
      shards, no shard of `partition` is heavier than (4/3 - 1/(3m)) times the heaviest of those. */
  lemma PartitionIsNearOptimal(files: seq<Path>, m: nat, cost: Path -> real,
                               other: seq<seq<Path>>, heaviest: real, j: nat)
    requires j < m == |other| && IsPartition(files, other) && Positive(cost)
    requires forall i :: 0 <= i < m ==> PredictedLoad(other[i], cost) <= heaviest
    ensures PredictedLoad(Shards(files, m, cost)[j], cost)
         <= (4.0 / 3.0 - 1.0 / (3.0 * m as real)) * heaviest
  {
    var queue := Queue(files, cost);
    var w := Weights(queue);
    QueueHolds(files, cost);
    QueueDescends(files, cost);
    AssignIsGreedy(w, m);
    var b := Placement(queue, files, other);
    forall i | 0 <= i < m ensures Load(w, b, |w|, i) <= heaviest {
      OtherShardLoad(files, cost, other, b, i);
    }
    GreedyIsNearOptimal(w, m, Assign(w, m, |w|), b, j, heaviest);
    ShardLoad(files, m, cost, j);
  }

  /** Any two shards differ by at most the heaviest single file. */
  lemma ShardsAreBalanced(files: seq<Path>, m: nat, cost: Path -> real, i: nat, j: nat, top: real)
    requires i < m && j < m && top >= 0.0 && Positive(cost)
    requires forall p :: p in files ==> cost(p) <= top
    ensures PredictedLoad(Shards(files, m, cost)[i], cost)
          - PredictedLoad(Shards(files, m, cost)[j], cost) <= top
  {
    var w := Weights(Queue(files, cost));
    QueueHolds(files, cost);
    AssignIsGreedy(w, m);
    ShardsDifferByOneFile(w, m, Assign(w, m, |w|), |w|, i, j, top);
    ShardLoad(files, m, cost, i);
    ShardLoad(files, m, cost, j);
  }

  lemma EarlyShardHolds(files: seq<Path>, m: nat, cost: Path -> real, j: nat)
    requires j < m && Positive(cost) && j < |Dedupe(files)|
    ensures Shards(files, m, cost)[j] != []
  {
    var queue := Queue(files, cost);
    var w := Weights(queue);
    QueueHolds(files, cost);
    QueueDescends(files, cost);
    AssignIsGreedy(w, m);
    FirstFilesSpread(w, m, Assign(w, m, |w|), j);
    ShardMembers(files, m, cost, j);
    assert queue[j].path in Shards(files, m, cost)[j];
  }

  lemma LateShardIsEmpty(files: seq<Path>, m: nat, cost: Path -> real, j: nat)
    requires j < m && Positive(cost) && |Dedupe(files)| <= j
    ensures Shards(files, m, cost)[j] == []
  {
    var shard, queue := Shards(files, m, cost)[j], Queue(files, cost);
    var w := Weights(queue);
    var a := Assign(w, m, |w|);
    QueueHolds(files, cost);
    QueueDescends(files, cost);
    AssignIsGreedy(w, m);
    ShardMembers(files, m, cost, j);
    if shard != [] {
      assert shard[0] in shard;
      var i :| 0 <= i < |queue| && a[i] == j && queue[i].path == shard[0];
      FirstFilesSpread(w, m, a, i);
      assert false;
    }
  }

  /** A shard is empty exactly when there are not as many files as its number asks for. */
  lemma ShardIsEmptyIff(files: seq<Path>, m: nat, cost: Path -> real, j: nat)
    requires j < m && Positive(cost)
    ensures Shards(files, m, cost)[j] == [] <==> |Dedupe(files)| <= j
  {
    if j < |Dedupe(files)| {
      EarlyShardHolds(files, m, cost, j);
    } else {
      LateShardIsEmpty(files, m, cost, j);
    }
  }
}
