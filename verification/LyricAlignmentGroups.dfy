/**
  The rows of an auxiliary lyric track sorted and grouped by time, and each group's
  distance to the originals counted.
*/
module LyricAlignmentGroups {
  import opened Basics
  import opened LyricAlignmentSpec

  // ----- Sorting helpers

  /** The order of row indexes: by start time, then by position. */
  ghost predicate Before(rows: seq<AuxiliaryLyricLine>, r: nat, s: nat)
    requires r < |rows| && s < |rows|
  {
    rows[r].startMs < rows[s].startMs || (rows[r].startMs == rows[s].startMs && r < s)
  }

  ghost predicate IsOrder(rows: seq<AuxiliaryLyricLine>, n: nat, indexes: seq<nat>)
    requires n <= |rows|
  {
    && |indexes| == n
    && (forall k :: 0 <= k < n ==> indexes[k] < n)
    && (forall k, l :: 0 <= k < l < n ==> Before(rows, indexes[k], indexes[l]))
    && (forall r: nat :: r < n ==> r in indexes)
  }

  lemma InsertedElements<T>(s: seq<T>, at: nat, x: T)
    requires at <= |s|
    ensures forall y :: y in s[..at] + [x] + s[at..] <==> y == x || y in s
  {
    assert s == s[..at] + s[at..];
    assert (s[..at] + [x] + s[at..])[at] == x;
    forall y ensures y in s <==> y in s[..at] || y in s[at..] {
      assert y in s <==> y in s[..at] + s[at..];
    }
  }

  lemma InsertedIndex(rows: seq<AuxiliaryLyricLine>, n: nat, indexes: seq<nat>, at: nat)
    requires n < |rows| && IsOrder(rows, n, indexes) && at <= n
    requires at < n ==> rows[n].startMs < rows[indexes[at]].startMs
    requires 0 < at ==> rows[indexes[at - 1]].startMs <= rows[n].startMs
    ensures IsOrder(rows, n + 1, indexes[..at] + [n] + indexes[at..])
  {
    InsertedElements(indexes, at, n);
    var inserted := indexes[..at] + [n] + indexes[at..];
    forall k, l | 0 <= k < l < n + 1 ensures Before(rows, inserted[k], inserted[l]) {
      if l == at && k < at - 1 { assert Before(rows, indexes[k], indexes[at - 1]); }
      if k == at && at < l - 1 { assert Before(rows, indexes[at], indexes[l - 1]); }
    }
  }

  method SortIndexes(rows: seq<AuxiliaryLyricLine>) returns (indexes: seq<nat>)
    ensures IsOrder(rows, |rows|, indexes)
  {
    indexes := [];
    for n := 0 to |rows|
      invariant IsOrder(rows, n, indexes)
    {
      var at := n;
      while 0 < at && rows[n].startMs < rows[indexes[at - 1]].startMs
        invariant 0 <= at <= n
        invariant at < n ==> rows[n].startMs < rows[indexes[at]].startMs
      {
        at := at - 1;
      }
      InsertedIndex(rows, n, indexes, at);
      indexes := indexes[..at] + [n] + indexes[at..];
    }
  }

  ghost predicate Ordered(s: seq<U32>) {
    forall k, l :: 0 <= k <= l < |s| ==> s[k] <= s[l]
  }

  method SortStarts(starts: seq<U32>) returns (sorted: seq<U32>)
    ensures Ordered(sorted)
    ensures forall x :: x in sorted <==> x in starts
  {
    sorted := [];
    for n := 0 to |starts|
      invariant |sorted| == n && Ordered(sorted)
      invariant forall x :: x in sorted <==> x in starts[..n]
    {
      var at := n;
      while 0 < at && starts[n] < sorted[at - 1]
        invariant 0 <= at <= n
        invariant forall k :: at <= k < n ==> starts[n] < sorted[k]
      {
        at := at - 1;
      }
      InsertedElements(sorted, at, starts[n]);
      sorted := sorted[..at] + [starts[n]] + sorted[at..];
      assert starts[..n + 1] == starts[..n] + [starts[n]];
    }
  }

  /** First position whose value is at least `bound`, by bisection. */
  method PartitionPoint(s: seq<U32>, bound: int) returns (k: nat)
    requires Ordered(s)
    ensures k <= |s|
    ensures forall l :: 0 <= l < k ==> s[l] < bound
    ensures forall l :: k <= l < |s| ==> bound <= s[l]
  {
    k := 0;
    var high := |s|;
    while k < high
      invariant k <= high <= |s|
      invariant forall l :: 0 <= l < k ==> s[l] < bound
      invariant forall l :: high <= l < |s| ==> bound <= s[l]
    {
      var mid := (k + high) / 2;
      if s[mid] < bound { k := mid + 1; } else { high := mid; }
    }
  }

  function Starts(groups: seq<Group>): (s: seq<U32>)
    ensures |s| == |groups| && forall k :: 0 <= k < |s| ==> s[k] == groups[k].startMs
  {
    seq(|groups|, k requires 0 <= k < |groups| => groups[k].startMs)
  }

  // ----- Grouping

  ghost function RowSet(rows: seq<AuxiliaryLyricLine>, start: U32, n: nat): set<nat>
    requires n <= |rows|
  {
    if n == 0 then {}
    else if rows[n - 1].startMs == start then RowSet(rows, start, n - 1) + {n - 1}
    else RowSet(rows, start, n - 1)
  }

  lemma {:induction false} RowSetHas(rows: seq<AuxiliaryLyricLine>, start: U32, n: nat, r: nat)
    requires n <= |rows|
    ensures r in RowSet(rows, start, n) <==> r < n && rows[r].startMs == start
  {
    if n > 0 { RowSetHas(rows, start, n - 1, r); }
  }

  lemma {:induction false} RowSetCardinality(rows: seq<AuxiliaryLyricLine>, start: U32, n: nat)
    requires n <= |rows|
    ensures |RowSet(rows, start, n)| == RowsAt(rows[..n], start)
  {
    if n > 0 {
      RowSetCardinality(rows, start, n - 1);
      RowSetHas(rows, start, n - 1, n - 1);
      assert rows[..n][..n - 1] == rows[..n - 1];
    }
  }

  ghost function Elements(s: seq<nat>): set<nat> {
    if s == [] then {} else Elements(s[..|s| - 1]) + {s[|s| - 1]}
  }

  lemma {:induction false} ElementsHas(s: seq<nat>, x: nat)
    ensures x in Elements(s) <==> x in s
  {
    if s != [] {
      ElementsHas(s[..|s| - 1], x);
      assert s == s[..|s| - 1] + [s[|s| - 1]];
    }
  }

  lemma {:induction false} DistinctElements(s: seq<nat>)
    requires forall k, l :: 0 <= k < l < |s| ==> s[k] != s[l]
    ensures |Elements(s)| == |s|
  {
    if s != [] {
      DistinctElements(s[..|s| - 1]);
      ElementsHas(s[..|s| - 1], s[|s| - 1]);
    }
  }

  /** A maximal run of equal starts in the sorted order holds every row of that start. */
  lemma RunHoldsAllRows(rows: seq<AuxiliaryLyricLine>, indexes: seq<nat>, cursor: nat, end: nat, start: U32)
    requires IsOrder(rows, |rows|, indexes) && cursor <= end <= |rows|
    requires forall k :: 0 <= k < |rows| ==> (rows[indexes[k]].startMs == start <==> cursor <= k < end)
    ensures RowsAt(rows, start) == end - cursor
    ensures forall r: nat :: r < |rows| && rows[r].startMs == start ==> r in indexes[cursor..end]
  {
    var run := indexes[cursor..end];
    forall k, l | 0 <= k < l < |run| ensures run[k] != run[l] {
      assert Before(rows, indexes[cursor + k], indexes[cursor + l]);
    }
    DistinctElements(run);
    RowSetCardinality(rows, start, |rows|);
    assert rows[..|rows|] == rows;
    forall r: nat | r < |rows| && rows[r].startMs == start ensures r in run {
      assert r in indexes;
      var k :| 0 <= k < |rows| && indexes[k] == r;
      assert run[k - cursor] == r;
    }
    forall r: nat ensures r in RowSet(rows, start, |rows|) <==> r in Elements(run) {
      RowSetHas(rows, start, |rows|, r);
      ElementsHas(run, r);
      if r in run {
        var k :| 0 <= k < |run| && run[k] == r;
        assert indexes[cursor + k] == r;
      }
    }
    assert RowSet(rows, start, |rows|) == Elements(run);
  }

  lemma RunIsGroup(rows: seq<AuxiliaryLyricLine>, indexes: seq<nat>, cursor: nat, end: nat, g: Group)
    requires IsOrder(rows, |rows|, indexes) && cursor < end <= |rows|
    requires g.sourceIndex == indexes[cursor] && g.startMs == rows[indexes[cursor]].startMs
    requires g.sourceRowCount == Sat(end - cursor) && !g.matched && !g.ambiguous
    requires forall k :: 0 <= k < |rows| ==> (rows[indexes[k]].startMs == g.startMs <==> cursor <= k < end)
    requires g.conflicting <==> exists k :: cursor < k < end && rows[indexes[k]].text != rows[g.sourceIndex].text
    ensures GroupStandsFor(rows, g)
  {
    RunHoldsAllRows(rows, indexes, cursor, end, g.startMs);
    forall r: nat | r < |rows| && rows[r].startMs == g.startMs
      ensures g.sourceIndex <= r && (rows[r].text != rows[g.sourceIndex].text ==> g.conflicting)
    {
      assert r in indexes[cursor..end];
      var k :| 0 <= k < end - cursor && indexes[cursor..end][k] == r;
      assert indexes[cursor + k] == r;
      if k > 0 { assert Before(rows, indexes[cursor], indexes[cursor + k]); }
    }
  }

  ghost predicate IsRun(rows: seq<AuxiliaryLyricLine>, indexes: seq<nat>, cursor: nat, end: nat)
    requires IsOrder(rows, |rows|, indexes)
  {
    && cursor < end <= |rows|
    && forall k :: 0 <= k < |rows| ==>
                     (rows[indexes[k]].startMs == rows[indexes[cursor]].startMs <==> cursor <= k < end)
  }

  /** The run of equal starts that begins at `cursor`, and whether its texts disagree. */
  method EndOfRun(rows: seq<AuxiliaryLyricLine>, indexes: seq<nat>, cursor: nat) returns (end: nat, conflicting: bool)
    requires IsOrder(rows, |rows|, indexes) && cursor < |rows|
    requires 0 < cursor ==> rows[indexes[cursor - 1]].startMs < rows[indexes[cursor]].startMs
    ensures IsRun(rows, indexes, cursor, end)
    ensures end < |rows| ==> rows[indexes[end - 1]].startMs < rows[indexes[end]].startMs
    ensures conflicting <==> exists k :: cursor < k < end && rows[indexes[k]].text != rows[indexes[cursor]].text
  {
    var startMs := rows[indexes[cursor]].startMs;
    var text := rows[indexes[cursor]].text;
    end := cursor + 1;
    conflicting := false;
    while end < |indexes| && rows[indexes[end]].startMs == startMs
      invariant cursor < end <= |rows|
      invariant forall k :: cursor <= k < end ==> rows[indexes[k]].startMs == startMs
      invariant conflicting <==> exists k :: cursor < k < end && rows[indexes[k]].text != text
    {
      conflicting := conflicting || rows[indexes[end]].text != text;
      end := end + 1;
    }
    if end < |rows| { RunBoundary(rows, indexes, end - 1, end); }
    forall k | 0 <= k < |rows| ensures rows[indexes[k]].startMs == startMs <==> cursor <= k < end {
      if k < cursor { RunBoundary(rows, indexes, k, cursor); }
      if end <= k { RunBoundary(rows, indexes, end - 1, k); }
    }
  }

  ghost predicate GroupsTo(rows: seq<AuxiliaryLyricLine>, indexes: seq<nat>, cursor: nat, groups: seq<Group>)
    requires IsOrder(rows, |rows|, indexes)
  {
    && cursor <= |rows|
    && TimeOrdered(groups)
    && (groups != [] ==> 0 < cursor && groups[|groups| - 1].startMs == rows[indexes[cursor - 1]].startMs)
    && (forall j :: 0 <= j < |groups| ==> GroupStandsFor(rows, groups[j]))
    && (forall k :: 0 <= k < cursor ==> HasGroup(groups, rows[indexes[k]].startMs))
  }

  lemma GroupsExtend(rows: seq<AuxiliaryLyricLine>, indexes: seq<nat>, cursor: nat, end: nat, groups: seq<Group>,
      g: Group)
    requires IsOrder(rows, |rows|, indexes) && GroupsTo(rows, indexes, cursor, groups)
    requires IsRun(rows, indexes, cursor, end) && GroupStandsFor(rows, g) && g.startMs == rows[indexes[cursor]].startMs
    requires 0 < cursor ==> rows[indexes[cursor - 1]].startMs < rows[indexes[cursor]].startMs
    ensures GroupsTo(rows, indexes, end, groups + [g])
  {
    var extended := groups + [g];
    forall j, k | 0 <= j < k < |extended| ensures extended[j].startMs < extended[k].startMs {
      if k == |groups| && j < |groups| - 1 { assert groups[j].startMs < groups[|groups| - 1].startMs; }
    }
    forall k | 0 <= k < end ensures HasGroup(extended, rows[indexes[k]].startMs) {
      if k < cursor {
        assert HasGroup(groups, rows[indexes[k]].startMs);
        var j :| 0 <= j < |groups| && groups[j].startMs == rows[indexes[k]].startMs;
        assert extended[j] == groups[j];
      } else {
        assert extended[|groups|].startMs == rows[indexes[k]].startMs;
      }
    }
  }

  method GroupAuxiliaryRows(rows: seq<AuxiliaryLyricLine>, stats: Stats) returns (groups: seq<Group>, stats': Stats)
    requires stats.deduplicatedRows == 0
    ensures IsGrouping(rows, groups)
    ensures stats' == stats.(deduplicatedRows := Sat(Deduplicated(groups, |groups|)))
  {
    hide GroupStandsFor, RowsAt;
    var indexes := SortIndexes(rows);
    groups, stats' := [], stats;
    var cursor := 0;
    while cursor < |indexes|
      invariant GroupsTo(rows, indexes, cursor, groups)
      invariant 0 < cursor < |rows| ==> rows[indexes[cursor - 1]].startMs < rows[indexes[cursor]].startMs
      invariant stats' == stats.(deduplicatedRows := Sat(Deduplicated(groups, |groups|)))
    {
      var sourceIndex := indexes[cursor];
      var end, conflicting := EndOfRun(rows, indexes, cursor);
      var sourceRowCount := Sat(end - cursor);
      if !conflicting {
        stats' := stats'.(deduplicatedRows := SatAdd(stats'.deduplicatedRows, SatSub(sourceRowCount, 1)));
      }
      var g := Group(rows[sourceIndex].startMs, sourceIndex, sourceRowCount, conflicting, false, false);
      RunIsGroup(rows, indexes, cursor, end, g);
      GroupsExtend(rows, indexes, cursor, end, groups, g);
      ExtendGroups(groups, g);
      groups := groups + [g];
      cursor := end;
    }
    forall r | 0 <= r < |rows| ensures HasGroup(groups, rows[r].startMs) {
      assert r in indexes;
    }
  }

  /** Positions on either side of a strict step in the sorted order have different starts. */
  lemma RunBoundary(rows: seq<AuxiliaryLyricLine>, indexes: seq<nat>, k: nat, l: nat)
    requires IsOrder(rows, |rows|, indexes) && k < l < |rows|
    ensures rows[indexes[k]].startMs <= rows[indexes[l]].startMs
    ensures rows[indexes[l - 1]].startMs < rows[indexes[l]].startMs ==>
        rows[indexes[k]].startMs < rows[indexes[l]].startMs
    ensures k + 1 < |rows| && rows[indexes[k]].startMs < rows[indexes[k + 1]].startMs ==>
              rows[indexes[k]].startMs < rows[indexes[l]].startMs
  {
    assert Before(rows, indexes[k], indexes[l]);
    if k < l - 1 {
      assert Before(rows, indexes[k], indexes[l - 1]);
      assert Before(rows, indexes[k + 1], indexes[l]);
    }
  }

  lemma {:induction false} DeduplicatedPrefix(groups: seq<Group>, g: Group, n: nat)
    requires n <= |groups|
    ensures Deduplicated(groups + [g], n) == Deduplicated(groups, n)
  {
    if n > 0 { DeduplicatedPrefix(groups, g, n - 1); }
  }

  lemma ExtendGroups(groups: seq<Group>, g: Group)
    ensures Deduplicated(groups + [g], |groups| + 1) ==
            Deduplicated(groups, |groups|) + (if g.conflicting then 0 else SatSub(g.sourceRowCount, 1))
  {
    DeduplicatedPrefix(groups, g, |groups|);
  }

  // ----- Delta buckets

  ghost predicate BucketsTo(O: seq<U32>, groups: seq<Group>, n: nat, buckets: seq<U32>)
    requires n <= |groups|
  {
    |buckets| == 6 && forall b :: 0 <= b < 6 ==> buckets[b] == Sat(BucketCount(O, groups, b, n))
  }

  lemma {:induction false} NoOriginalsNoBucket(groups: seq<Group>, b: nat, n: nat)
    requires n <= |groups|
    ensures BucketCount([], groups, b, n) == 0
  {
    if n > 0 { NoOriginalsNoBucket(groups, b, n - 1); }
  }

  lemma LeastDeltaFixesBucket(O: seq<U32>, start: U32, delta: nat)
    requires IsLeastDelta(O, start, delta)
    ensures forall b :: InBucket(O, start, b) <==> b == Bucket(delta)
  {
    assert InBucket(O, start, Bucket(delta));
    forall b | InBucket(O, start, b) ensures b == Bucket(delta) {
      var other: nat :| IsLeastDelta(O, start, other) && Bucket(other) == b;
      assert other == delta;
    }
  }

  /** Neighbours on either side of the insertion point hold the least distance. */
  lemma NeighboursAreNearest(O: seq<U32>, sorted: seq<U32>, start: U32, insertion: nat, delta: nat)
    requires Ordered(sorted) && (forall x :: x in sorted <==> x in O) && sorted != [] && insertion <= |sorted|
    requires forall l :: 0 <= l < insertion ==> sorted[l] < start
    requires forall l :: insertion <= l < |sorted| ==> start <= sorted[l]
    requires insertion > 0 ==> delta <= Dist(sorted[insertion - 1], start)
    requires insertion < |sorted| ==> delta <= Dist(sorted[insertion], start)
    requires (insertion > 0 && delta == Dist(sorted[insertion - 1], start))
             || (insertion < |sorted| && delta == Dist(sorted[insertion], start))
    ensures IsLeastDelta(O, start, delta)
  {
    forall i | 0 <= i < |O| ensures delta <= Dist(O[i], start) {
      assert O[i] in sorted;
      var l :| 0 <= l < |sorted| && sorted[l] == O[i];
      if l < insertion { assert sorted[l] <= sorted[insertion - 1]; } else { assert sorted[insertion] <= sorted[l]; }
    }
    var near := if insertion > 0 && delta == Dist(sorted[insertion - 1], start) then insertion - 1 else insertion;
    assert sorted[near] in O;
    var i :| 0 <= i < |O| && O[i] == sorted[near];
    assert Dist(O[i], start) == delta;
  }

  method PopulateDeltaBuckets(O: seq<U32>, groups: seq<Group>, stats: Stats) returns (stats': Stats)
    requires stats.nearestDeltaBuckets == [0, 0, 0, 0, 0, 0]
    ensures BucketsTo(O, groups, |groups|, stats'.nearestDeltaBuckets)
    ensures stats' == stats.(nearestDeltaBuckets := stats'.nearestDeltaBuckets)
  {
    stats' := stats;
    if O == [] {
      forall b: nat | b < 6 ensures BucketCount(O, groups, b, |groups|) == 0 {
        NoOriginalsNoBucket(groups, b, |groups|);
      }
      return;
    }
    var sorted := SortStarts(O);
    assert O[0] in sorted;
    for n := 0 to |groups|
      invariant BucketsTo(O, groups, n, stats'.nearestDeltaBuckets)
      invariant stats' == stats.(nearestDeltaBuckets := stats'.nearestDeltaBuckets)
    {
      var start := groups[n].startMs;
      var insertion := PartitionPoint(sorted, start);
      var before := if 0 < insertion then Some(Dist(sorted[insertion - 1], start)) else None;
      var after := if insertion < |sorted| then Some(Dist(sorted[insertion], start)) else None;
      var delta: nat;
      if before.Some? && after.Some? {
        delta := if before.value <= after.value then before.value else after.value;
      } else if before.Some? {
        delta := before.value;
      } else {
        delta := after.value;
      }
      NeighboursAreNearest(O, sorted, start, insertion, delta);
      LeastDeltaFixesBucket(O, start, delta);
      var b := Bucket(delta);
      var buckets := stats'.nearestDeltaBuckets;
      stats' := stats'.(nearestDeltaBuckets := buckets[b := SatAdd(buckets[b], 1)]);
    }
  }
}
