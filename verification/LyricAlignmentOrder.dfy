/** Order independence of the alignment, and the delta buckets as a partition of the groups. */
module LyricAlignmentOrder {
  import opened Basics
  import opened LyricAlignmentSpec
  import opened LyricAlignmentTheorems

  // ----- Delta buckets

  lemma {:induction false} LeastDeltaExists(O: seq<U32>, start: U32) returns (delta: nat)
    requires O != []
    ensures IsLeastDelta(O, start, delta)
  {
    var n := |O| - 1;
    delta := Dist(O[n], start);
    if n > 0 {
      var rest := LeastDeltaExists(O[..n], start);
      var i :| 0 <= i < n && Dist(O[..n][i], start) == rest;
      assert Dist(O[i], start) == rest;
      forall k | 0 <= k < n ensures rest <= Dist(O[k], start) { assert O[..n][k] == O[k]; }
      if rest < delta { delta := rest; }
    }
    assert exists i :: 0 <= i < |O| && Dist(O[i], start) == delta;
  }

  /** With any original present, a group falls into one bucket and no other. */
  lemma ExactlyOneBucket(O: seq<U32>, start: U32) returns (b: nat)
    requires O != []
    ensures b < 6 && InBucket(O, start, b)
    ensures forall c :: InBucket(O, start, c) ==> c == b
  {
    var delta := LeastDeltaExists(O, start);
    b := Bucket(delta);
    assert InBucket(O, start, b);
    forall c | InBucket(O, start, c) ensures c == b {
      var other: nat :| IsLeastDelta(O, start, other) && Bucket(other) == c;
      assert other == delta;
    }
  }

  lemma {:induction false} BucketsPartitionGroups(O: seq<U32>, G: seq<Group>, n: nat)
    requires O != [] && n <= |G|
    ensures BucketCount(O, G, 0, n) + BucketCount(O, G, 1, n) + BucketCount(O, G, 2, n)
            + BucketCount(O, G, 3, n) + BucketCount(O, G, 4, n) + BucketCount(O, G, 5, n) == n
  {
    if n > 0 {
      BucketsPartitionGroups(O, G, n - 1);
      var b := ExactlyOneBucket(O, G[n - 1].startMs);
    }
  }

  // ----- Permuted rows have the same groups up to the row index that represents them

  ghost predicate SameKeys(G: seq<Group>, H: seq<Group>) {
    && |G| == |H|
    && forall j :: 0 <= j < |G| ==>
                     && G[j].startMs == H[j].startMs
                     && G[j].conflicting == H[j].conflicting
                     && G[j].sourceRowCount == H[j].sourceRowCount
  }

  lemma {:induction false} RowsAtConcat(a: seq<AuxiliaryLyricLine>, b: seq<AuxiliaryLyricLine>, start: U32)
    ensures RowsAt(a + b, start) == RowsAt(a, start) + RowsAt(b, start)
  {
    if b == [] {
      assert a + b == a;
    } else {
      assert (a + b)[..|a + b| - 1] == a + b[..|b| - 1];
      RowsAtConcat(a, b[..|b| - 1], start);
    }
  }

  lemma RowsAtWithout(rows: seq<AuxiliaryLyricLine>, k: nat, start: U32)
    requires k < |rows|
    ensures RowsAt(rows, start) ==
            RowsAt(rows[..k] + rows[k + 1..], start) + (if rows[k].startMs == start then 1 else 0)
    ensures multiset(rows[..k] + rows[k + 1..]) == multiset(rows) - multiset{rows[k]}
  {
    assert rows == rows[..k] + ([rows[k]] + rows[k + 1..]);
    RowsAtConcat(rows[..k], [rows[k]] + rows[k + 1..], start);
    RowsAtConcat([rows[k]], rows[k + 1..], start);
    RowsAtConcat(rows[..k], rows[k + 1..], start);
    assert [rows[k]][..0] == [];
  }

  lemma {:induction false} RowsAtPermuted(rows: seq<AuxiliaryLyricLine>, other: seq<AuxiliaryLyricLine>, start: U32)
    requires multiset(rows) == multiset(other)
    ensures RowsAt(rows, start) == RowsAt(other, start)
  {
    if rows == [] {
      assert |multiset(other)| == 0;
    } else {
      var last := |rows| - 1;
      var k := RowAppears(rows, other, last);
      RowsAtWithout(rows, last, start);
      RowsAtWithout(other, k, start);
      RowsAtPermuted(rows[..last] + rows[last + 1..], other[..k] + other[k + 1..], start);
    }
  }

  lemma RowAppears(rows: seq<AuxiliaryLyricLine>, other: seq<AuxiliaryLyricLine>, r: nat) returns (k: nat)
    requires multiset(rows) == multiset(other) && r < |rows|
    ensures k < |other| && other[k] == rows[r]
  {
    assert rows[r] in multiset(other);
    k :| 0 <= k < |other| && other[k] == rows[r];
  }

  lemma GroupAppears(rows: seq<AuxiliaryLyricLine>, other: seq<AuxiliaryLyricLine>, G: seq<Group>, H: seq<Group>,
      j: nat)
    requires multiset(rows) == multiset(other) && IsGrouping(rows, G) && IsGrouping(other, H) && j < |G|
    ensures HasGroup(H, G[j].startMs)
  {
    assert GroupStandsFor(rows, G[j]);
    var k := RowAppears(rows, other, G[j].sourceIndex);
    assert HasGroup(H, other[k].startMs);
  }

  lemma FrontHasGroup(G: seq<Group>, H: seq<Group>, j: nat)
    requires TimeOrdered(G) && H != []
    requires j < |G| - 1 && HasGroup(H, G[j].startMs) && H[|H| - 1].startMs == G[|G| - 1].startMs
    ensures HasGroup(H[..|H| - 1], G[j].startMs)
  {
    var k :| 0 <= k < |H| && H[k].startMs == G[j].startMs;
    assert H[..|H| - 1][k] == H[k];
  }

  lemma LastTimesAgree(G: seq<Group>, H: seq<Group>)
    requires TimeOrdered(G) && TimeOrdered(H) && G != [] && H != []
    requires HasGroup(H, G[|G| - 1].startMs) && HasGroup(G, H[|H| - 1].startMs)
    ensures G[|G| - 1].startMs == H[|H| - 1].startMs
  {
  }

  /** Two strictly increasing group lists over the same times are the same list of times. */
  lemma {:induction false} IncreasingTimesAgree(G: seq<Group>, H: seq<Group>)
    requires TimeOrdered(G) && TimeOrdered(H)
    requires forall j :: 0 <= j < |G| ==> HasGroup(H, G[j].startMs)
    requires forall j :: 0 <= j < |H| ==> HasGroup(G, H[j].startMs)
    ensures |G| == |H| && forall j :: 0 <= j < |G| ==> G[j].startMs == H[j].startMs
  {
    var first := if H == [] then 0 else H[0].startMs;
    assert H != [] ==> HasGroup(G, first);
    if G != [] {
      assert HasGroup(H, G[0].startMs);
      var g, h := |G| - 1, |H| - 1;
      LastTimesAgree(G, H);
      forall j | 0 <= j < g ensures HasGroup(H[..h], G[..g][j].startMs) { FrontHasGroup(G, H, j); }
      forall j | 0 <= j < h ensures HasGroup(G[..g], H[..h][j].startMs) { FrontHasGroup(H, G, j); }
      IncreasingTimesAgree(G[..g], H[..h]);
      forall j | 0 <= j < |G| ensures G[j].startMs == H[j].startMs {
        if j < g { assert G[..g][j].startMs == H[..h][j].startMs; }
      }
    }
  }

  lemma ConflictAppears(rows: seq<AuxiliaryLyricLine>, other: seq<AuxiliaryLyricLine>, g: Group, h: Group)
    requires multiset(rows) == multiset(other)
    requires GroupStandsFor(rows, g) && GroupStandsFor(other, h) && g.startMs == h.startMs
    ensures g.conflicting ==> h.conflicting
    ensures !g.conflicting ==> rows[g.sourceIndex] == other[h.sourceIndex]
  {
    var s := RowAppears(other, rows, h.sourceIndex);
    if g.conflicting {
      var r :| 0 <= r < |rows| && rows[r].startMs == g.startMs && rows[r].text != rows[g.sourceIndex].text;
      var k := RowAppears(rows, other, r);
      var l := RowAppears(rows, other, g.sourceIndex);
      assert other[k].text != other[l].text;
    }
  }

  lemma PermutedGroupsAgree(rows: seq<AuxiliaryLyricLine>, other: seq<AuxiliaryLyricLine>, G: seq<Group>, H: seq<Group>)
    requires multiset(rows) == multiset(other) && IsGrouping(rows, G) && IsGrouping(other, H)
    ensures SameKeys(G, H)
    ensures forall j :: 0 <= j < |G| && !G[j].conflicting ==>
                          GroupStandsFor(rows, G[j]) && GroupStandsFor(other, H[j]) &&
                          rows[G[j].sourceIndex] == other[H[j].sourceIndex]
  {
    forall j | 0 <= j < |G| ensures HasGroup(H, G[j].startMs) { GroupAppears(rows, other, G, H, j); }
    forall j | 0 <= j < |H| ensures HasGroup(G, H[j].startMs) { GroupAppears(other, rows, H, G, j); }
    IncreasingTimesAgree(G, H);
    forall j | 0 <= j < |G|
      ensures G[j].conflicting == H[j].conflicting && G[j].sourceRowCount == H[j].sourceRowCount
      ensures !G[j].conflicting ==>
                GroupStandsFor(rows, G[j]) && GroupStandsFor(other, H[j]) &&
                rows[G[j].sourceIndex] == other[H[j].sourceIndex]
    {
      assert GroupStandsFor(rows, G[j]) && GroupStandsFor(other, H[j]);
      RowsAtPermuted(rows, other, G[j].startMs);
      ConflictAppears(rows, other, G[j], H[j]);
      ConflictAppears(other, rows, H[j], G[j]);
    }
  }

  // ----- The specification reads nothing else of a group

  lemma SameExact(O: seq<U32>, G: seq<Group>, H: seq<Group>)
    requires SameKeys(G, H)
    ensures forall i, j :: Exact(O, G, i, j) <==> Exact(O, H, i, j)
    ensures MonotoneAnchors(O, G) <==> MonotoneAnchors(O, H)
  {
    forall i, j ensures Exact(O, G, i, j) <==> Exact(O, H, i, j) {}
  }

  lemma SameCandidates(O: seq<U32>, G: seq<Group>, H: seq<Group>, tol: U32)
    requires SameKeys(G, H)
    ensures forall j :: Open(O, G, j) <==> Open(O, H, j)
    ensures forall i, j :: Candidate(O, G, tol, i, j) <==> Candidate(O, H, tol, i, j)
  {
  }

  lemma PairInCarries(O: seq<U32>, G: seq<Group>, H: seq<Group>, tol: U32, p: Gap, i: int, j: int)
    requires SameKeys(G, H) && p.lo <= p.hi <= |O| && PairIn(O, G, tol, p, i, j)
    ensures PairIn(O, H, tol, p, i, j)
  {
    SameCandidates(O, G, H, tol);
    assert Candidate(O, H, tol, i, j);
    assert NearestGroup(O, H, tol, p.groupLo, p.groupHi, i, j);
    assert NearestOriginal(O, H, tol, p.lo, p.hi, i, j);
    assert NoEarlierRepeat(O, H, tol, p.lo, i, j);
  }

  lemma GapCarries(O: seq<U32>, G: seq<Group>, H: seq<Group>, p: Gap)
    requires SameKeys(G, H) && IsGap(O, G, p)
    ensures IsGap(O, H, p)
  {
    SameExact(O, G, H);
  }

  lemma NearCarries(O: seq<U32>, G: seq<Group>, H: seq<Group>, tol: U32, i: int, j: int)
    requires SameKeys(G, H) && Near(O, G, tol, i, j)
    ensures Near(O, H, tol, i, j)
  {
    SameExact(O, G, H);
    var p := NearIsIn(O, G, tol, i, j);
    GapCarries(O, G, H, p);
    PairInCarries(O, G, H, tol, p, i, j);
  }

  lemma SamePairs(O: seq<U32>, G: seq<Group>, H: seq<Group>, tol: U32)
    requires SameKeys(G, H)
    ensures forall i, j :: Near(O, G, tol, i, j) <==> Near(O, H, tol, i, j)
    ensures forall i, j :: Pair(O, G, tol, i, j) <==> Pair(O, H, tol, i, j)
  {
    SameExact(O, G, H);
    forall i, j ensures Near(O, G, tol, i, j) <==> Near(O, H, tol, i, j) {
      if Near(O, G, tol, i, j) { NearCarries(O, G, H, tol, i, j); }
      if Near(O, H, tol, i, j) { NearCarries(O, H, G, tol, i, j); }
    }
  }

  lemma RefusedInCarries(O: seq<U32>, G: seq<Group>, H: seq<Group>, tol: U32, p: Gap, j: int)
    requires SameKeys(G, H) && p.lo <= p.hi <= |O| && RefusedIn(O, G, tol, p, j)
    ensures RefusedIn(O, H, tol, p, j)
  {
    SameCandidates(O, G, H, tol);
    if Sorted(O, p.lo, p.hi) {
      forall i | PairIn(O, H, tol, p, i, j) ensures PairIn(O, G, tol, p, i, j) {
        PairInCarries(O, H, G, tol, p, i, j);
      }
    }
  }

  lemma AmbiguousCarries(O: seq<U32>, G: seq<Group>, H: seq<Group>, tol: U32, j: int)
    requires SameKeys(G, H) && Ambiguous(O, G, tol, j)
    ensures Ambiguous(O, H, tol, j)
  {
    SameExact(O, G, H);
    SameCandidates(O, G, H, tol);
    if ExactlyAmbiguous(O, G, j) {
      assert Anchored(O, G, j) <==> Anchored(O, H, j);
    } else if MonotoneAnchors(O, G) {
      var p :| IsGap(O, G, p) && RefusedIn(O, G, tol, p, j);
      GapCarries(O, G, H, p);
      RefusedInCarries(O, G, H, tol, p, j);
    }
  }

  lemma SameFate(O: seq<U32>, G: seq<Group>, H: seq<Group>, tol: U32, j: int)
    requires SameKeys(G, H)
    ensures FateOf(O, G, tol, j) == FateOf(O, H, tol, j)
  {
    if Ambiguous(O, G, tol, j) { AmbiguousCarries(O, G, H, tol, j); }
    if Ambiguous(O, H, tol, j) { AmbiguousCarries(O, H, G, tol, j); }
    SamePairs(O, G, H, tol);
  }

  lemma {:induction false} SameRowsWithFate(O: seq<U32>, G: seq<Group>, H: seq<Group>, tol: U32, fate: Fate, n: nat)
    requires SameKeys(G, H) && n <= |G|
    ensures RowsWithFate(O, G, tol, fate, n) == RowsWithFate(O, H, tol, fate, n)
  {
    hide FateOf;
    if n > 0 {
      SameRowsWithFate(O, G, H, tol, fate, n - 1);
      SameFate(O, G, H, tol, n - 1);
    }
  }

  lemma {:induction false} SameOriginalCounts(O: seq<U32>, G: seq<Group>, H: seq<Group>, tol: U32, n: nat)
    requires SameKeys(G, H)
    ensures ExactCount(O, G, n) == ExactCount(O, H, n) && NearCount(O, G, tol, n) == NearCount(O, H, tol, n)
  {
    if n > 0 {
      SameOriginalCounts(O, G, H, tol, n - 1);
      SameExact(O, G, H);
      SamePairs(O, G, H, tol);
      assert AnchoredOriginal(O, G, n - 1) <==> AnchoredOriginal(O, H, n - 1);
      assert NearOriginal(O, G, tol, n - 1) <==> NearOriginal(O, H, tol, n - 1);
    }
  }

  lemma {:induction false} SameGroupCounts(O: seq<U32>, G: seq<Group>, H: seq<Group>, b: nat, n: nat)
    requires SameKeys(G, H) && n <= |G|
    ensures Deduplicated(G, n) == Deduplicated(H, n) && BucketCount(O, G, b, n) == BucketCount(O, H, b, n)
  {
    if n > 0 { SameGroupCounts(O, G, H, b, n - 1); }
  }

  lemma SameStats(O: seq<U32>, G: seq<Group>, H: seq<Group>, tol: U32, stats: Stats, other: Stats)
    requires SameKeys(G, H) && AlignedStats(O, G, tol, stats) && AlignedStats(O, H, tol, other)
    ensures stats == other
  {
    SameOriginalCounts(O, G, H, tol, |O|);
    SameRowsWithFate(O, G, H, tol, IsAmbiguous, |G|);
    SameRowsWithFate(O, G, H, tol, IsUnmatched, |G|);
    SameGroupCounts(O, G, H, 0, |G|);
    forall b: nat | b < 6 ensures stats.nearestDeltaBuckets[b] == other.nearestDeltaBuckets[b] {
      SameGroupCounts(O, G, H, b, |G|);
    }
    assert stats.nearestDeltaBuckets == other.nearestDeltaBuckets;
  }

  ghost predicate SameTexts(rows: seq<AuxiliaryLyricLine>, G: seq<Group>, other: seq<AuxiliaryLyricLine>, H: seq<Group>)
  {
    |G| == |H| && forall j :: 0 <= j < |G| && !G[j].conflicting ==>
                                G[j].sourceIndex < |rows| && H[j].sourceIndex < |other| &&
                                rows[G[j].sourceIndex] == other[H[j].sourceIndex]
  }

  lemma SameLineAt(O: seq<U32>, G: seq<Group>, H: seq<Group>, rows: seq<AuxiliaryLyricLine>,
                   other: seq<AuxiliaryLyricLine>, tol: U32, i: int, a: Option<nat>, b: Option<nat>)
    requires SameKeys(G, H) && SameTexts(rows, G, other, H) && TimeOrdered(H)
    requires AssignedRow(O, G, tol, i, a) && AssignedRow(O, H, tol, i, b)
    ensures SameLine(rows, a, other, b)
  {
    hide MonotoneAnchors, PairIn, Exact, Near;
    SamePairs(O, G, H, tol);
    if a.Some? {
      var j :| 0 <= j < |G| && Pair(O, G, tol, i, j) && a.value == G[j].sourceIndex;
      assert Pair(O, H, tol, i, j);
      var k :| 0 <= k < |H| && Pair(O, H, tol, i, k) && b.value == H[k].sourceIndex;
      PairsAreOneToOne(O, H, tol, i, j, i, k);
      PairGroupIsSound(O, G, tol, i, j);
    } else {
      assert forall j :: !Pair(O, H, tol, i, j);
    }
  }

  /**
    Permuting the auxiliary rows changes no statistic and no line attached to an
    original: the same originals are served, with the same time and text.
  */
  lemma OrderIndependence(O: seq<U32>, rows: seq<AuxiliaryLyricLine>, other: seq<AuxiliaryLyricLine>, tol: U32,
                          assignments: seq<Option<nat>>, stats: Stats,
                          otherAssignments: seq<Option<nat>>, otherStats: Stats)
    requires multiset(rows) == multiset(other)
    requires Aligned(O, rows, tol, assignments, stats)
    requires Aligned(O, other, tol, otherAssignments, otherStats)
    ensures stats == otherStats
    ensures |assignments| == |otherAssignments| == |O|
    ensures forall i :: 0 <= i < |O| ==>
                          SameLine(rows, assignments[i], other, otherAssignments[i])
  {
    var G: seq<Group> :| AlignedBy(O, rows, tol, G, assignments, stats);
    var H: seq<Group> :| AlignedBy(O, other, tol, H, otherAssignments, otherStats);
    PermutedGroupsAgree(rows, other, G, H);
    SameStats(O, G, H, tol, stats, otherStats);
    assert SameTexts(rows, G, other, H);
    forall i | 0 <= i < |O| ensures SameLine(rows, assignments[i], other, otherAssignments[i]) {
      SameLineAt(O, G, H, rows, other, tol, i, assignments[i], otherAssignments[i]);
    }
  }

  lemma PairGroupIsSound(O: seq<U32>, G: seq<Group>, tol: U32, i: int, j: int)
    requires Pair(O, G, tol, i, j)
    ensures 0 <= j < |G| && !G[j].conflicting
  {
    if Near(O, G, tol, i, j) { var p := NearIsIn(O, G, tol, i, j); }
  }

  ghost predicate SameLine(rows: seq<AuxiliaryLyricLine>, a: Option<nat>, other: seq<AuxiliaryLyricLine>,
      b: Option<nat>) {
    && (a.Some? <==> b.Some?)
    && (a.Some? ==> a.value < |rows| && b.value < |other| && rows[a.value] == other[b.value])
  }
}
