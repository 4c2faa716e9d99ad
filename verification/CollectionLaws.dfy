/** Which tests a shard runs, said of the collected items, the timing table and the layout. */
module CollectionLaws {
  import opened Ordering
  import opened Outcomes
  import opened Sharding
  import opened PartitionLaws
  import opened GreedySplit
  import opened Collection

  /** How many items were collected from a file. */
  function ItemsFrom(items: seq<Item>, p: Path): nat {
    if items == [] then 0 else (if items[0].path == Some(p) then 1 else 0) + ItemsFrom(items[1..], p)
  }

  ghost predicate WasCollected(items: seq<Item>, p: Path) {
    exists i :: 0 <= i < |items| && items[i].path == Some(p)
  }

  lemma {:induction false} OneItemMore(items: seq<Item>, p: Path)
    requires items != []
    ensures var n := |items| - 1;
            ItemsFrom(items, p) == ItemsFrom(items[..n], p) + (if items[n].path == Some(p) then 1 else 0)
  {
    if |items| > 1 {
      var n := |items| - 1;
      OneItemMore(items[1..], p);
      assert items[1..][..n - 1] == items[..n][1..];
    }
  }

  lemma {:induction false} PathsCount(items: seq<Item>, p: Path)
    ensures multiset(PathsOf(items))[p] == ItemsFrom(items, p)
    ensures p in PathsOf(items) <==> WasCollected(items, p)
  {
    if items != [] {
      var n := |items| - 1;
      PathsCount(items[..n], p);
      OneItemMore(items, p);
      assert forall i :: 0 <= i < n ==> items[..n][i] == items[i];
      assert WasCollected(items, p) <==> WasCollected(items[..n], p) || items[n].path == Some(p);
    }
  }

  /** The files collected, each once. */
  ghost predicate AreTheFiles(items: seq<Item>, files: seq<Path>) {
    Distinct(files) && forall p :: p in files <==> WasCollected(items, p)
  }

  /** A file's cost is its weight for the tests it holds now, whatever it held when it was measured. */
  ghost predicate AreLiveCosts(items: seq<Item>, t: Timings, cost: Path -> real) {
    forall p :: WasCollected(items, p) ==> cost(p) == WeightOf(p, Some(ItemsFrom(items, p)), t)
  }

  /** A shard's files are those the greedy split of the collected files gives it, by what they weigh now. */
  lemma {:induction false} ShardIsLive(items: seq<Item>, count: int, index: int, t: Timings, files: seq<Path>, cost: Path -> real,
                                       queue: seq<Path>, a: seq<nat>, shards: seq<seq<Path>>)
    requires 1 <= index <= count && AreTheFiles(items, files) && AreLiveCosts(items, t, cost)
    requires IsGreedySplit(files, cost, count, queue, a, shards)
    ensures Mine(items, count, index, t) == shards[index - 1]
  {
    hide IsGreedySplit, WasCollected, Shards, FilesOf, CountsOf, PathsOf, ItemsFrom, WeightOf;
    PartitionIsTheGreedySplit(files, cost, count, shards);
    var price := Price(CountsOf(items), t);
    CountedPaths(items);
    FilesMembers(items);
    forall p ensures p in files <==> p in FilesOf(items) { PathsCount(items, p); }
    forall p | p in files ensures cost(p) == price(p) {
      PathsCount(items, p);
      PriceIsWeight(CountsOf(items), t, p);
    }
    PartitionIsReproducible(files, FilesOf(items), count, cost, price);
  }

  /** There is always such a split. */
  lemma SomeGreedySplit(items: seq<Item>, count: int, t: Timings)
    requires count >= 1
    ensures exists files, cost, queue, a, shards ::
              AreTheFiles(items, files) && AreLiveCosts(items, t, cost) && IsGreedySplit(files, cost, count, queue, a, shards)
  {
    hide IsGreedySplit, WasCollected, Shards, FilesOf, CountsOf, PathsOf, ItemsFrom, WeightOf;
    var files := FilesOf(items);
    FilesDistinct(items);
    FilesMembers(items);
    var cost := (p: Path) => WeightOf(p, Some(ItemsFrom(items, p)), t);
    forall p ensures p in files <==> WasCollected(items, p) { PathsCount(items, p); }
    PartitionIsTheGreedySplit(files, cost, count, Shards(files, count, cost));
    var queue, a :| IsGreedySplit(files, cost, count, queue, a, Shards(files, count, cost));
    assert AreTheFiles(items, files) && AreLiveCosts(items, t, cost);
  }

  /** When an invocation is refused, and why. */
  lemma {:induction false} RefusedIff(items: seq<Item>, count: int, index: int, t: Timings, files: seq<Path>)
    requires AreTheFiles(items, files)
    ensures var r := Refusal(items, count, index, t);
            && (r == Some(BadShardCount) <==> count < 1)
            && (r == Some(NoSuchShard) <==> count >= 1 && (index < 1 || index > count))
            && (r == Some(EmptyShard) <==> 1 <= index <= count && count > 1 && 0 < |files| < index)
  {
    FilesDistinct(items);
    FilesMembers(items);
    forall p ensures p in files <==> p in FilesOf(items) { PathsCount(items, p); }
    DistinctSameMembers(files, FilesOf(items));
    assert |files| == |multiset(files)| == |multiset(FilesOf(items))| == |FilesOf(items)|;
    if 1 <= index <= count && !Unsharded(count, index) {
      EmptyShardIff(items, count, index, t);
    }
  }

  /** An accepted invocation keeps an item when there is but one shard, and otherwise when its file is in the shard. */
  lemma KeepsIff(items: seq<Item>, count: int, index: int, t: Timings, i: nat)
    requires i < |items| && Refusal(items, count, index, t) == None
    ensures Keeps(items, count, index, t, i)
       <==> count == 1 || i in Positions(items, Mine(items, count, index, t), true)
  {
    KeptInSerialOrder(items, Mine(items, count, index, t), true);
  }

  /** The shards of one runner are consecutive, and all runners host equally many; any other layout is refused. */
  lemma {:induction false} SlicesAre(runner: int, runners: int, shardCount: int)
    ensures var r := SlicesFor(runner, runners, shardCount);
            && (r == Refused(NoRunners) <==> runners < 1)
            && (r == Refused(NoSuchRunner) <==> runners >= 1 && (runner < 1 || runner > runners))
            && (r == Refused(UnequalShare) <==>
                  1 <= runner <= runners && forall k: int :: 1 <= k ==> k * runners != shardCount)
            && (r.Ok? ==> 1 <= |r.value| && |r.value| * runners == shardCount
                          && (forall k :: 0 <= k < |r.value| ==> r.value[k] == (runner - 1) * |r.value| + k + 1))
  {
    if 1 <= runner <= runners {
      if k: int :| 1 <= k && k * runners == shardCount {
        Scaled(1, k, runners);
        QuotientIs(shardCount, runners, k);
        assert shardCount % runners == 0;
      }
      DivisionFacts(shardCount, runners);
      if shardCount >= runners && shardCount % runners == 0 {
        if shardCount / runners <= 0 { Scaled(shardCount / runners, 0, runners); }
        assert shardCount / runners * runners == shardCount;
      }
    }
  }
}
