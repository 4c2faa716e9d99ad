/** `conftest.py` and `ci_slices.py`: which collected items a runner keeps, and
that all runners together keep each item once. */
module Collection {
  import opened Ordering
  import opened Outcomes
  import opened Sharding
  import opened PartitionLaws

  /** A collected test. Its path is relative to the root; some items have none. */
  datatype Item = Item(name: string, path: Option<Path>)

  datatype UsageError =
    | BadShardCount
    | NoSuchShard
    | EmptyShard

  // -- what the filter reads off the collected items ---------------------------------------

  /** The paths of the items that have one, in collection order. */
  function PathsOf(items: seq<Item>): seq<Path> {
    if items == [] then []
    else
      var before, last := PathsOf(items[..|items| - 1]), items[|items| - 1];
      if last.path.Some? then before + [last.path.value] else before
  }

  function Bump(counts: map<Path, nat>, p: Path): map<Path, nat> {
    counts[p := (if p in counts then counts[p] else 0) + 1]
  }

  /** How many items each file holds. */
  function CountsOf(items: seq<Item>): map<Path, nat> {
    if items == [] then map[]
    else
      var before, last := CountsOf(items[..|items| - 1]), items[|items| - 1];
      if last.path.Some? then Bump(before, last.path.value) else before
  }

  /** Counting is counting: every collected file, with as many items as were collected from it. */
  lemma {:induction false} CountedPaths(items: seq<Item>)
    ensures forall p :: p in CountsOf(items) <==> p in PathsOf(items)
    ensures forall p :: p in CountsOf(items) ==> CountsOf(items)[p] == multiset(PathsOf(items))[p]
  {
    if items != [] {
      var n := |items| - 1;
      CountedPaths(items[..n]);
      assert forall p :: p !in PathsOf(items[..n]) ==> multiset(PathsOf(items[..n]))[p] == 0;
    }
  }

  /** The collected files, alphabetically. */
  function FilesOf(items: seq<Item>): seq<Path> {
    Sort(Dedupe(PathsOf(items)), TextLeq)
  }

  lemma FilesMembers(items: seq<Item>)
    ensures forall p :: p in FilesOf(items) <==> p in PathsOf(items)
  {
    SortKeepsElements(Dedupe(PathsOf(items)), TextLeq);
  }

  /** The files of 1-based shard `index`. */
  function Mine(items: seq<Item>, count: int, index: int, t: Timings): seq<Path>
    requires 1 <= index <= count
  {
    Shards(FilesOf(items), count, Price(CountsOf(items), t))[index - 1]
  }

  predicate Unsharded(count: int, index: int) { count == 1 && index == 1 }

  /** Why the invocation is refused, if it is. */
  function Refusal(items: seq<Item>, count: int, index: int, t: Timings): Option<UsageError> {
    if Unsharded(count, index) then None
    else if count < 1 then Some(BadShardCount)
    else if !(1 <= index <= count) then Some(NoSuchShard)
    else if Mine(items, count, index, t) == [] && FilesOf(items) != [] then Some(EmptyShard)
    else None
  }

  predicate InFile(item: Item, mine: seq<Path>) {
    item.path.Some? && item.path.value in mine
  }

  /** Whether an accepted invocation keeps item `i`. */
  predicate Keeps(items: seq<Item>, count: int, index: int, t: Timings, i: nat)
    requires i < |items| && Refusal(items, count, index, t) == None
  {
    Unsharded(count, index) || InFile(items[i], Mine(items, count, index, t))
  }

  function Select(items: seq<Item>, mine: seq<Path>, wanted: bool): seq<Item> {
    if items == [] then []
    else
      var last := items[|items| - 1];
      Select(items[..|items| - 1], mine, wanted) + (if InFile(last, mine) == wanted then [last] else [])
  }

  /** The pytest session whose collected items the hook narrows in place. */
  class Session {
    var items: seq<Item>
    var deselected: seq<Item>

    constructor (collected: seq<Item>)
      ensures items == collected && deselected == []
    {
      items, deselected := collected, [];
    }

    method ModifyItems(count: int, index: int, t: Timings) returns (r: Result<(), UsageError>)
      modifies this
      ensures var refusal := Refusal(old(items), count, index, t);
              && (refusal.Some? ==> r == Refused(refusal.value) && unchanged(this))
              && (refusal.None? ==> r == Ok(()))
              && (refusal.None? && Unsharded(count, index) ==> unchanged(this))
              && (refusal.None? && !Unsharded(count, index) ==>
                    && items == Select(old(items), Mine(old(items), count, index, t), true)
                    && deselected == old(deselected) + Select(old(items), Mine(old(items), count, index, t), false))
    {
      if count == 1 && index == 1 { return Ok(()); }
      if count < 1 { return Refused(BadShardCount); }
      if !(1 <= index <= count) { return Refused(NoSuchShard); }

      var counts, keys := Tally(items);
      var files := Sort(keys, TextLeq);
      var shards := Partition(files, count, counts, t);
      var mine := shards.value[index - 1];
      assert mine == Mine(items, count, index, t);
      if mine == [] && files != [] { return Refused(EmptyShard); }

      var kept, dropped := Divide(items, mine);
      deselected := deselected + dropped;
      items := kept;
      r := Ok(());
    }
  }

  /** The filtering loop: the items whose file is in `mine`, and the others. */
  method Divide(items: seq<Item>, mine: seq<Path>) returns (kept: seq<Item>, dropped: seq<Item>)
    ensures kept == Select(items, mine, true)
    ensures dropped == Select(items, mine, false)
  {
    kept, dropped := [], [];
    for k := 0 to |items|
      invariant kept == Select(items[..k], mine, true)
      invariant dropped == Select(items[..k], mine, false)
    {
      assert items[..k + 1][..k] == items[..k];
      if InFile(items[k], mine) {
        kept := kept + [items[k]];
      } else {
        dropped := dropped + [items[k]];
      }
    }
    assert items[..|items|] == items;
  }

  /** The counting loop: a dictionary of counts, and its keys in insertion order. */
  method Tally(items: seq<Item>) returns (counts: map<Path, nat>, keys: seq<Path>)
    ensures counts == CountsOf(items)
    ensures keys == Dedupe(PathsOf(items))
    ensures forall p :: p in counts <==> p in PathsOf(items)
    ensures forall p :: p in counts ==> counts[p] == multiset(PathsOf(items))[p]
  {
    counts, keys := map[], [];
    for k := 0 to |items|
      invariant counts == CountsOf(items[..k])
      invariant keys == Dedupe(PathsOf(items[..k]))
    {
      TallyStep(items[..k], items[k]);
      assert items[..k + 1] == items[..k] + [items[k]];
      if items[k].path.Some? {
        var p := items[k].path.value;
        if p !in counts { keys := keys + [p]; }
        counts := Bump(counts, p);
      }
    }
    assert items[..|items|] == items;
    CountedPaths(items);
  }

  lemma TallyStep(items: seq<Item>, item: Item)
    ensures var p, counts, keys := item.path, CountsOf(items), Dedupe(PathsOf(items));
            && CountsOf(items + [item]) == (if p.Some? then Bump(counts, p.value) else counts)
            && Dedupe(PathsOf(items + [item]))
                == (if p.Some? && p.value !in counts then keys + [p.value] else keys)
  {
    assert (items + [item])[..|items|] == items;
    CountedPaths(items);
    if item.path.Some? {
      var paths := PathsOf(items) + [item.path.value];
      assert paths[..|paths| - 1] == PathsOf(items);
    }
  }

  // -- order and refusals -----------------------------------------------------------------

  /** The positions of the items kept, or of the others, ascending. */
  ghost function Positions(items: seq<Item>, mine: seq<Path>, wanted: bool): seq<nat> {
    if items == [] then []
    else
      var n := |items| - 1;
      Positions(items[..n], mine, wanted) + (if InFile(items[n], mine) == wanted then [n] else [])
  }

  /** A shard runs its items in the order the serial run does: what it keeps is the collected list
      with exactly the other items struck out, and those are what it reports. */
  lemma {:induction false} KeptInSerialOrder(items: seq<Item>, mine: seq<Path>, wanted: bool)
    ensures var pos, chosen := Positions(items, mine, wanted), Select(items, mine, wanted);
            && |pos| == |chosen|
            && (forall k :: 0 <= k < |pos| ==> pos[k] < |items| && chosen[k] == items[pos[k]])
            && (forall k, l :: 0 <= k < l < |pos| ==> pos[k] < pos[l])
            && (forall i :: 0 <= i < |items| ==>
                  (i in pos <==> (items[i].path.Some? && items[i].path.value in mine) == wanted))
  {
    if items != [] {
      var n := |items| - 1;
      KeptInSerialOrder(items[..n], mine, wanted);
      var before, pos := Positions(items[..n], mine, wanted), Positions(items, mine, wanted);
      forall i | 0 <= i < |items| ensures i in pos <==> InFile(items[i], mine) == wanted {
        if i < n {
          assert items[..n][i] == items[i];
        } else {
          assert n !in before;
        }
      }
    }
  }

  lemma NothingIsMineIff(items: seq<Item>, count: int, index: int, t: Timings)
    requires 1 <= index <= count
    ensures Mine(items, count, index, t) == [] <==> |FilesOf(items)| < index
  {
    PriceIsPositive(CountsOf(items), t);
    FilesDistinct(items);
    DistinctShardIsEmptyIff(FilesOf(items), count, Price(CountsOf(items), t), index - 1);
  }

  lemma DistinctShardIsEmptyIff(files: seq<Path>, m: nat, cost: Path -> real, j: nat)
    requires j < m && Positive(cost) && Distinct(files)
    ensures Shards(files, m, cost)[j] == [] <==> |files| <= j
  {
    ShardIsEmptyIff(files, m, cost, j);
    DedupeDistinct(files);
  }

  /** The red job for an empty shard comes exactly when the matrix asks for more shards than files. */
  lemma EmptyShardIff(items: seq<Item>, count: int, index: int, t: Timings)
    requires 1 <= index <= count && !Unsharded(count, index)
    ensures Refusal(items, count, index, t) == Some(EmptyShard) <==> 0 < |FilesOf(items)| < index
  {
    NothingIsMineIff(items, count, index, t);
  }

  lemma FilesDistinct(items: seq<Item>)
    ensures Distinct(FilesOf(items))
  {
    SortKeepsElements(Dedupe(PathsOf(items)), TextLeq);
    MultisetDistinct(Dedupe(PathsOf(items)), FilesOf(items));
  }

  lemma {:induction false} DedupeDistinct<T(!new)>(s: seq<T>)
    requires Distinct(s)
    ensures Dedupe(s) == s
  {
    if s != [] {
      DedupeDistinct(s[..|s| - 1]);
      assert s == s[..|s| - 1] + [s[|s| - 1]];
    }
  }

  // -- the runners ------------------------------------------------------------------------

  datatype LayoutError =
    | NoRunners
    | NoSuchRunner
    | UnequalShare

  /** The 1-based shards runner `runner` of `runners` hosts: consecutive, equally many on each. */
  function SlicesFor(runner: int, runners: int, shardCount: int): Result<seq<int>, LayoutError> {
    if runners < 1 then Refused(NoRunners)
    else if !(1 <= runner <= runners) then Refused(NoSuchRunner)
    else if shardCount < runners || shardCount % runners != 0 then Refused(UnequalShare)
    else
      var perRunner := shardCount / runners;
      var first := (runner - 1) * perRunner + 1;
      Ok(seq(perRunner, k requires 0 <= k < perRunner => first + k))
  }

  /** The runners can share the shards equally. */
  predicate Shareable(runners: int, shardCount: int) {
    1 <= runners <= shardCount && shardCount % runners == 0
  }

  predicate Hosts(runner: int, runners: int, shardCount: int, shard: int) {
    var slices := SlicesFor(runner, runners, shardCount);
    slices.Ok? && shard in slices.value
  }

  /** The runner that hosts a shard. */
  function RunnerOf(runners: int, shardCount: int, shard: int): int
    requires Shareable(runners, shardCount)
  {
    (shard - 1) / (shardCount / runners) + 1
  }

  lemma DivisionFacts(x: int, per: int)
    requires per >= 1
    ensures x / per * per <= x < (x / per + 1) * per
  {
  }

  lemma QuotientIs(x: int, per: int, q: int)
    requires per >= 1 && q * per <= x < (q + 1) * per
    ensures x / per == q
  {
    var d := x / per;
    DivisionFacts(x, per);
    if d < q { Scaled(d + 1, q, per); }
    if d > q { Scaled(q + 1, d, per); }
  }

  lemma Scaled(a: int, b: int, c: int)
    requires a <= b && c >= 0
    ensures a * c <= b * c
  {
  }

  lemma HostedShard(runner: int, runners: int, shardCount: int, shard: int)
    requires Shareable(runners, shardCount)
    requires 1 <= runner <= runners
    requires var per := shardCount / runners; 0 <= shard - 1 - (runner - 1) * per < per
    ensures 1 <= shard <= shardCount && runner == RunnerOf(runners, shardCount, shard)
  {
    var per := shardCount / runners;
    DivisionFacts(shardCount, runners);
    Scaled(runner, runners, per);
    Scaled(0, runner - 1, per);
    QuotientIs(shard - 1, per, runner - 1);
  }

  lemma QuotientBelow(x: int, per: int, n: int, q: int)
    requires per >= 1 && 0 <= x < n * per
    requires q * per <= x < (q + 1) * per
    ensures 0 <= q < n
  {
    if q < 0 { Scaled(q + 1, 0, per); }
    if q >= n { Scaled(n, q, per); }
  }

  lemma RunnerHosts(runners: int, shardCount: int, shard: int)
    requires Shareable(runners, shardCount)
    requires 1 <= shard <= shardCount
    ensures var per := shardCount / runners; var runner := RunnerOf(runners, shardCount, shard);
            1 <= runner <= runners && 0 <= shard - 1 - (runner - 1) * per < per
  {
    var per := shardCount / runners;
    DivisionFacts(shardCount, runners);
    DivisionFacts(shard - 1, per);
    QuotientBelow(shard - 1, per, runners, (shard - 1) / per);
  }

  /** A runner hosts a shard exactly when the runners can share the shards and that one is its own. No
      other layout hosts anything. */
  lemma HostsIff(runner: int, runners: int, shardCount: int, shard: int)
    ensures Hosts(runner, runners, shardCount, shard)
       <==> Shareable(runners, shardCount) && 1 <= shard <= shardCount && runner == RunnerOf(runners, shardCount, shard)
  {
    if Shareable(runners, shardCount) {
      if Hosts(runner, runners, shardCount, shard) {
        HostedShard(runner, runners, shardCount, shard);
      }
      if 1 <= shard <= shardCount && runner == RunnerOf(runners, shardCount, shard) {
        var per := shardCount / runners;
        RunnerHosts(runners, shardCount, shard);
        var slices := SlicesFor(runner, runners, shardCount).value;
        assert slices[shard - 1 - (runner - 1) * per] == shard;
      }
    }
  }

  // -- the composition ---------------------------------------------------------------------

  ghost predicate RunsOn(items: seq<Item>, runners: int, shardCount: int, t: Timings, i: nat, runner: int, shard: int)
    requires i < |items|
  {
    && Hosts(runner, runners, shardCount, shard)
    && Refusal(items, shardCount, shard, t) == None
    && Keeps(items, shardCount, shard, t, i)
  }

  /** The shard whose files include `p`, and only that one. */
  lemma ShardOfFile(files: seq<Path>, m: nat, cost: Path -> real, p: Path) returns (j: nat)
    requires m >= 1 && p in files
    ensures j < m && p in Shards(files, m, cost)[j]
    ensures forall k :: 0 <= k < m && k != j ==> p !in Shards(files, m, cost)[k]
  {
    PartitionIsComplete(files, m, cost);
    j :| 0 <= j < m && p in Shards(files, m, cost)[j];
  }

  lemma ShardOf(items: seq<Item>, shardCount: int, t: Timings, i: nat) returns (shard: int)
    requires i < |items| && items[i].path.Some? && shardCount >= 1
    ensures 1 <= shard <= shardCount
    ensures Refusal(items, shardCount, shard, t) == None && Keeps(items, shardCount, shard, t, i)
    ensures forall s :: 1 <= s <= shardCount && s != shard && Refusal(items, shardCount, s, t) == None
              ==> !Keeps(items, shardCount, s, t, i)
  {
    if shardCount == 1 { return 1; }
    FilesMembers(items);
    ItemPath(items, i);
    var j := ShardOfFile(FilesOf(items), shardCount, Price(CountsOf(items), t), items[i].path.value);
    shard := j + 1;
    assert items[i].path.value in Mine(items, shardCount, shard, t);
  }

  lemma {:induction false} ItemPath(items: seq<Item>, i: nat)
    requires i < |items| && items[i].path.Some?
    ensures items[i].path.value in PathsOf(items)
  {
    if i < |items| - 1 { ItemPath(items[..|items| - 1], i); }
  }

  /** An item with no path is kept exactly in the unsharded run. */
  lemma PathlessItems(items: seq<Item>, count: int, index: int, t: Timings, i: nat)
    requires i < |items| && items[i].path.None? && Refusal(items, count, index, t) == None
    ensures Keeps(items, count, index, t, i) <==> Unsharded(count, index)
  {
  }

  /** The whole suite, once. No item runs twice, under any layout; and an item runs exactly when the runners
      can share the shards and it has a path - or there is nothing to share out. */
  lemma EveryItemRunsOnce(items: seq<Item>, runners: int, shardCount: int, t: Timings, i: nat)
    requires i < |items|
    ensures (exists runner, shard :: RunsOn(items, runners, shardCount, t, i, runner, shard))
       <==> Shareable(runners, shardCount) && (items[i].path.Some? || shardCount == 1)
    ensures forall r, s, r', s' ::
              (RunsOn(items, runners, shardCount, t, i, r, s) && RunsOn(items, runners, shardCount, t, i, r', s'))
              ==> r == r' && s == s'
  {
    hide Hosts, Keeps, Refusal, RunnerOf;
    if Shareable(runners, shardCount) && (items[i].path.Some? || shardCount == 1) {
      var shard := OnlyShard(items, shardCount, t, i);
      var runner := RunnerOf(runners, shardCount, shard);
      HostsIff(runner, runners, shardCount, shard);
      assert RunsOn(items, runners, shardCount, t, i, runner, shard);
      forall r, s | RunsOn(items, runners, shardCount, t, i, r, s) ensures r == runner && s == shard {
        HostsIff(r, runners, shardCount, s);
      }
    } else {
      forall r, s ensures !RunsOn(items, runners, shardCount, t, i, r, s) {
        NowhereElse(items, runners, shardCount, t, i, r, s);
      }
    }
  }

  /** The shard that keeps an item, and only that one. */
  lemma OnlyShard(items: seq<Item>, shardCount: int, t: Timings, i: nat) returns (shard: int)
    requires i < |items| && shardCount >= 1 && (items[i].path.Some? || shardCount == 1)
    ensures 1 <= shard <= shardCount
    ensures Refusal(items, shardCount, shard, t) == None && Keeps(items, shardCount, shard, t, i)
    ensures forall s :: 1 <= s <= shardCount && s != shard && Refusal(items, shardCount, s, t) == None
              ==> !Keeps(items, shardCount, s, t, i)
  {
    if shardCount == 1 {
      shard := 1;
    } else {
      shard := ShardOf(items, shardCount, t, i);
    }
  }

  lemma NowhereElse(items: seq<Item>, runners: int, shardCount: int, t: Timings, i: nat, runner: int, shard: int)
    requires i < |items|
    requires !Shareable(runners, shardCount) || (items[i].path.None? && shardCount != 1)
    ensures !RunsOn(items, runners, shardCount, t, i, runner, shard)
  {
    HostsIff(runner, runners, shardCount, shard);
    if Hosts(runner, runners, shardCount, shard) && Refusal(items, shardCount, shard, t) == None {
      PathlessItems(items, shardCount, shard, t, i);
    }
  }
}
