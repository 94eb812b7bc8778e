/** What every alignment that meets the specification guarantees. */
module LyricAlignmentTheorems {
  import opened Basics
  import opened LyricAlignmentSpec

  // ----- Non-crossing and one-to-one

  /** Every other open group is strictly farther than the nearest one, candidate or not. */
  lemma FartherThanNearest(O: seq<U32>, G: seq<Group>, tol: U32, gLo: int, gHi: int, i: int, j: int, l: int)
    requires NearestGroup(O, G, tol, gLo, gHi, i, j)
    requires gLo <= l < gHi && l != j && Open(O, G, l)
    ensures Dist(O[i], G[j].startMs) < Dist(O[i], G[l].startMs)
  {
    assert Candidate(O, G, tol, i, l) || Dist(O[i], G[l].startMs) > tol;
  }

  /** Exchange argument: two mutual nearest pairs of one gap never cross and never share a group. */
  lemma NonCrossing(O: seq<U32>, G: seq<Group>, tol: U32, p: Gap, i: int, j: int, k: int, l: int)
    requires TimeOrdered(G) && p.lo <= p.hi <= |O|
    requires PairIn(O, G, tol, p, i, j) && PairIn(O, G, tol, p, k, l)
    requires i < k
    ensures j < l
  {
    assert O[i] <= O[k];
    if j >= l {
      var g, h := G[j].startMs, G[l].startMs;
      assert Dist(O[i], g) <= tol && Dist(O[k], h) <= tol;
      if j > l {
        FartherThanNearest(O, G, tol, p.groupLo, p.groupHi, i, j, l);
        FartherThanNearest(O, G, tol, p.groupLo, p.groupHi, k, l, j);
      }
    }
  }

  lemma PairInFixesGroup(O: seq<U32>, G: seq<Group>, tol: U32, p: Gap, i: int, j: int, l: int)
    requires p.lo <= p.hi <= |O|
    requires PairIn(O, G, tol, p, i, j) && PairIn(O, G, tol, p, i, l)
    ensures j == l
  {
  }

  /** An original lies in at most one gap. */
  lemma GapOfOriginal(O: seq<U32>, G: seq<Group>, p: Gap, q: Gap, i: int)
    requires TimeOrdered(G) && IsGap(O, G, p) && IsGap(O, G, q)
    requires p.lo <= i < p.hi && q.lo <= i < q.hi
    ensures p == q
  {
  }

  /** A group lies in at most one gap. */
  lemma GapOfGroup(O: seq<U32>, G: seq<Group>, p: Gap, q: Gap, j: int)
    requires TimeOrdered(G) && IsGap(O, G, p) && IsGap(O, G, q)
    requires p.groupLo <= j < p.groupHi && q.groupLo <= j < q.groupHi
    ensures p == q
  {
  }

  lemma NearIsIn(O: seq<U32>, G: seq<Group>, tol: U32, i: int, j: int) returns (p: Gap)
    requires Near(O, G, tol, i, j)
    ensures IsGap(O, G, p) && PairIn(O, G, tol, p, i, j)
  {
    p :| IsGap(O, G, p) && PairIn(O, G, tol, p, i, j);
  }

  /** Near pairs of different gaps keep the order of the anchors between them. */
  lemma NearPairsOrdered(O: seq<U32>, G: seq<Group>, tol: U32, i: int, j: int, k: int, l: int)
    requires TimeOrdered(G)
    requires Near(O, G, tol, i, j) && Near(O, G, tol, k, l) && i < k
    ensures j < l
  {
    var p := NearIsIn(O, G, tol, i, j);
    var q := NearIsIn(O, G, tol, k, l);
    if p == q {
      NonCrossing(O, G, tol, p, i, j, k, l);
    } else {
      if k < p.hi { GapOfOriginal(O, G, p, q, k); }
      if q.lo <= i { GapOfOriginal(O, G, p, q, i); }
      assert Exact(O, G, p.hi, p.groupHi) && Exact(O, G, q.lo - 1, q.groupLo - 1);
    }
  }

  lemma NearAndExactOrdered(O: seq<U32>, G: seq<Group>, tol: U32, i: int, j: int, k: int, l: int)
    requires Near(O, G, tol, i, j) && Exact(O, G, k, l)
    ensures i != k && j != l && (i < k <==> j < l)
  {
    var p := NearIsIn(O, G, tol, i, j);
    if i < k {
      if p.hi < k { assert Exact(O, G, p.hi, p.groupHi) ==> p.groupHi < l; }
    } else {
      if k < p.lo - 1 { assert Exact(O, G, p.lo - 1, p.groupLo - 1) ==> l < p.groupLo - 1; }
    }
  }

  /** No original takes two groups and no group serves two originals, on any input. */
  lemma PairsAreOneToOne(O: seq<U32>, G: seq<Group>, tol: U32, i: int, j: int, k: int, l: int)
    requires TimeOrdered(G)
    requires Pair(O, G, tol, i, j) && Pair(O, G, tol, k, l)
    ensures i == k <==> j == l
  {
    if Near(O, G, tol, i, j) && Near(O, G, tol, k, l) {
      if i < k { NearPairsOrdered(O, G, tol, i, j, k, l); }
      if k < i { NearPairsOrdered(O, G, tol, k, l, i, j); }
      if i == k {
        var p := NearIsIn(O, G, tol, i, j);
        var q := NearIsIn(O, G, tol, k, l);
        GapOfOriginal(O, G, p, q, i);
        PairInFixesGroup(O, G, tol, p, i, j, l);
      }
    } else if Near(O, G, tol, i, j) {
      NearAndExactOrdered(O, G, tol, i, j, k, l);
    } else if Near(O, G, tol, k, l) {
      NearAndExactOrdered(O, G, tol, k, l, i, j);
    }
  }

  lemma PairsAreClose(O: seq<U32>, G: seq<Group>, tol: U32, i: int, j: int)
    requires Pair(O, G, tol, i, j)
    ensures 0 <= i < |O| && 0 <= j < |G| && Dist(O[i], G[j].startMs) <= tol
  {
    if Near(O, G, tol, i, j) { var p := NearIsIn(O, G, tol, i, j); }
  }

  lemma PairsAreOrdered(O: seq<U32>, G: seq<Group>, tol: U32, i: int, j: int, k: int, l: int)
    requires TimeOrdered(G) && MonotoneAnchors(O, G)
    requires Pair(O, G, tol, i, j) && Pair(O, G, tol, k, l) && i < k
    ensures j < l
  {
    if Near(O, G, tol, i, j) && Near(O, G, tol, k, l) {
      NearPairsOrdered(O, G, tol, i, j, k, l);
    } else if Near(O, G, tol, i, j) {
      NearAndExactOrdered(O, G, tol, i, j, k, l);
    } else if Near(O, G, tol, k, l) {
      NearAndExactOrdered(O, G, tol, k, l, i, j);
    }
  }

  /**
    The promise of the alignment on every input: assignments are row indexes,
    one-to-one, inside the tolerance, and increasing in time whenever the exact
    anchors are.
  */
  lemma AlignmentIsSafe(O: seq<U32>, rows: seq<AuxiliaryLyricLine>, tol: U32, G: seq<Group>,
                        assignments: seq<Option<nat>>, stats: Stats, i: nat, k: nat)
    requires AlignedBy(O, rows, tol, G, assignments, stats)
    requires i < k < |O| && assignments[i].Some? && assignments[k].Some?
    ensures assignments[i].value < |rows| && assignments[k].value < |rows|
    ensures assignments[i].value != assignments[k].value
    ensures Dist(O[i], rows[assignments[i].value].startMs) <= tol
    ensures Dist(O[k], rows[assignments[k].value].startMs) <= tol
    ensures MonotoneAnchors(O, G) ==>
              rows[assignments[i].value].startMs < rows[assignments[k].value].startMs
  {
    hide AlignedStats, MonotoneAnchors;
    assert AssignedRow(O, G, tol, i, assignments[i]) && AssignedRow(O, G, tol, k, assignments[k]);
    var j :| 0 <= j < |G| && Pair(O, G, tol, i, j) && assignments[i].value == G[j].sourceIndex;
    var l :| 0 <= l < |G| && Pair(O, G, tol, k, l) && assignments[k].value == G[l].sourceIndex;
    PairsAreClose(O, G, tol, i, j);
    PairsAreClose(O, G, tol, k, l);
    PairsAreOneToOne(O, G, tol, i, j, k, l);
    assert G[j].startMs != G[l].startMs;
    if MonotoneAnchors(O, G) { PairsAreOrdered(O, G, tol, i, j, k, l); }
  }

  ghost predicate StartsIncrease(rows: seq<AuxiliaryLyricLine>, assignments: seq<Option<nat>>) {
    forall i, k :: 0 <= i < k < |assignments| && assignments[i].Some? && assignments[k].Some? ==>
      assignments[i].value < |rows| && assignments[k].value < |rows|
      && rows[assignments[i].value].startMs < rows[assignments[k].value].startMs
  }

  lemma ExactIsAssigned(O: seq<U32>, rows: seq<AuxiliaryLyricLine>, tol: U32, G: seq<Group>,
                        assignments: seq<Option<nat>>, stats: Stats, i: nat, j: nat)
    requires AlignedBy(O, rows, tol, G, assignments, stats) && i < |O| && Exact(O, G, i, j)
    ensures assignments[i].Some? && assignments[i].value < |rows| && rows[assignments[i].value].startMs == G[j].startMs
  {
    hide AlignedStats, MonotoneAnchors, Exact;
    assert AssignedRow(O, G, tol, i, assignments[i]);
    assert Pair(O, G, tol, i, j);
    var l :| 0 <= l < |G| && Pair(O, G, tol, i, l) && assignments[i].value == G[l].sourceIndex;
    PairsAreOneToOne(O, G, tol, i, j, i, l);
    assert GroupStandsFor(rows, G[l]);
  }

  /** Attached times increase along the originals exactly when the exact anchors do not cross. */
  lemma IncreasingIffAnchorsMonotone(O: seq<U32>, rows: seq<AuxiliaryLyricLine>, tol: U32, G: seq<Group>,
                                     assignments: seq<Option<nat>>, stats: Stats)
    requires AlignedBy(O, rows, tol, G, assignments, stats)
    ensures StartsIncrease(rows, assignments) <==> MonotoneAnchors(O, G)
  {
    if MonotoneAnchors(O, G) {
      forall i, k | 0 <= i < k < |assignments| && assignments[i].Some? && assignments[k].Some?
        ensures assignments[i].value < |rows| && assignments[k].value < |rows|
        ensures rows[assignments[i].value].startMs < rows[assignments[k].value].startMs
      {
        AlignmentIsSafe(O, rows, tol, G, assignments, stats, i, k);
      }
    }
    if StartsIncrease(rows, assignments) {
      forall i, j, k, l | Exact(O, G, i, j) && Exact(O, G, k, l) && i < k ensures j < l {
        ExactIsAssigned(O, rows, tol, G, assignments, stats, i, j);
        ExactIsAssigned(O, rows, tol, G, assignments, stats, k, l);
        assert G[j].startMs < G[l].startMs;
      }
    }
  }

  /** In terms of the input alone: the one original at its time, met by rows that all carry one text. */
  ghost predicate ExactOriginal(O: seq<U32>, rows: seq<AuxiliaryLyricLine>, i: int) {
    0 <= i < |O| && (forall k :: 0 <= k < |O| && O[k] == O[i] ==> k == i)
    && (exists r :: 0 <= r < |rows| && rows[r].startMs == O[i])
    && forall r, s :: 0 <= r < |rows| && 0 <= s < |rows| && rows[r].startMs == rows[s].startMs == O[i] ==>
      rows[r].text == rows[s].text
  }

  ghost predicate ExactOriginalsIncrease(O: seq<U32>, rows: seq<AuxiliaryLyricLine>) {
    forall i, k :: ExactOriginal(O, rows, i) && ExactOriginal(O, rows, k) && i < k ==> O[i] < O[k]
  }

  lemma ExactOriginalIff(O: seq<U32>, rows: seq<AuxiliaryLyricLine>, G: seq<Group>, i: int)
    requires IsGrouping(rows, G)
    ensures AnchoredOriginal(O, G, i) <==> ExactOriginal(O, rows, i)
  {
    if AnchoredOriginal(O, G, i) {
      var j :| Exact(O, G, i, j);
      assert GroupStandsFor(rows, G[j]);
      assert rows[G[j].sourceIndex].startMs == O[i];
    }
    if ExactOriginal(O, rows, i) {
      var r :| 0 <= r < |rows| && rows[r].startMs == O[i];
      assert HasGroup(G, rows[r].startMs);
      var j :| 0 <= j < |G| && G[j].startMs == O[i];
      assert GroupStandsFor(rows, G[j]);
      assert Exact(O, G, i, j);
    }
  }

  lemma MonotoneIffExactOriginalsIncrease(O: seq<U32>, rows: seq<AuxiliaryLyricLine>, G: seq<Group>)
    requires IsGrouping(rows, G)
    ensures MonotoneAnchors(O, G) <==> ExactOriginalsIncrease(O, rows)
  {
    hide ExactOriginal;
    if MonotoneAnchors(O, G) {
      forall i, k | ExactOriginal(O, rows, i) && ExactOriginal(O, rows, k) && i < k
        ensures 0 <= i < |O| && 0 <= k < |O| && O[i] < O[k]
      {
        ExactOriginalIff(O, rows, G, i);
        ExactOriginalIff(O, rows, G, k);
        var j :| Exact(O, G, i, j);
        var l :| Exact(O, G, k, l);
        assert j < l;
      }
    }
    if ExactOriginalsIncrease(O, rows) {
      forall i, j, k, l | Exact(O, G, i, j) && Exact(O, G, k, l) && i < k ensures j < l {
        ExactOriginalIff(O, rows, G, i);
        ExactOriginalIff(O, rows, G, k);
        assert AnchoredOriginal(O, G, i) && AnchoredOriginal(O, G, k);
        assert G[j].startMs < G[l].startMs;
      }
    }
  }

  /**
    The exact condition of the promised order, from the input alone: attached times increase along the
    originals exactly when the originals that are met exactly do.
  */
  lemma IncreasingIffExactOriginalsIncrease(O: seq<U32>, rows: seq<AuxiliaryLyricLine>, tol: U32,
                                            assignments: seq<Option<nat>>, stats: Stats)
    requires Aligned(O, rows, tol, assignments, stats)
    ensures StartsIncrease(rows, assignments) <==> ExactOriginalsIncrease(O, rows)
  {
    hide StartsIncrease, ExactOriginalsIncrease, MonotoneAnchors;
    var G: seq<Group> :| AlignedBy(O, rows, tol, G, assignments, stats);
    IncreasingIffAnchorsMonotone(O, rows, tol, G, assignments, stats);
    MonotoneIffExactOriginalsIncrease(O, rows, G);
  }

  /** A document out of order: both lines are met exactly, and the attached times run backwards. */
  lemma CrossingAnchorsRunBackwards(assignments: seq<Option<nat>>, stats: Stats, tol: U32)
    requires var O: seq<U32> := [2000, 1000];
             Aligned(O, [AuxiliaryLyricLine(1000, "a"), AuxiliaryLyricLine(2000, "b")], tol, assignments, stats)
    ensures var rows := [AuxiliaryLyricLine(1000, "a"), AuxiliaryLyricLine(2000, "b")];
            !StartsIncrease(rows, assignments)
  {
    var O: seq<U32> := [2000, 1000];
    var rows := [AuxiliaryLyricLine(1000, "a"), AuxiliaryLyricLine(2000, "b")];
    CrossingOriginals(O, rows);
    hide StartsIncrease, Aligned, ExactOriginalsIncrease;
    IncreasingIffExactOriginalsIncrease(O, rows, tol, assignments, stats);
  }

  lemma CrossingOriginals(O: seq<U32>, rows: seq<AuxiliaryLyricLine>)
    requires O == [2000, 1000] && rows == [AuxiliaryLyricLine(1000, "a"), AuxiliaryLyricLine(2000, "b")]
    ensures !ExactOriginalsIncrease(O, rows)
  {
    assert rows[1].startMs == O[0] && rows[0].startMs == O[1];
    assert ExactOriginal(O, rows, 0) && ExactOriginal(O, rows, 1);
  }

  // ----- When a near pair is accepted

  /** Before a strictly nearest original, an equal distance can only come from an equal start. */
  lemma TieBeforeNearestIsRepeat(O: seq<U32>, G: seq<Group>, tol: U32, lo: int, hi: int, i: int, j: int, k: int, l: int)
    requires 0 <= lo <= hi <= |O| && Sorted(O, lo, hi)
    requires NearestOriginal(O, G, tol, lo, hi, i, j)
    requires lo <= k < l < i && Candidate(O, G, tol, k, j) && Candidate(O, G, tol, l, j)
    requires Dist(O[k], G[j].startMs) == Dist(O[l], G[j].startMs)
    ensures O[k] == O[l]
  {
    assert O[k] <= O[l] <= O[i];
  }

  /** With strictly increasing originals, acceptance is exactly mutual unique nearest. */
  lemma AcceptedIffMutuallyNearest(O: seq<U32>, G: seq<Group>, tol: U32, p: Gap, i: int, j: int)
    requires IsGap(O, G, p) && MonotoneAnchors(O, G) && p.lo <= i < p.hi
    requires TimeOrdered(G)
    requires forall k, l :: p.lo <= k < l < p.hi ==> O[k] < O[l]
    ensures Near(O, G, tol, i, j) <==> MutuallyNearest(O, G, tol, p, i, j)
  {
    if Near(O, G, tol, i, j) {
      var q := NearIsIn(O, G, tol, i, j);
      GapOfOriginal(O, G, p, q, i);
    }
    if MutuallyNearest(O, G, tol, p, i, j) {
      assert PairIn(O, G, tol, p, i, j);
    }
  }

  /** In any ordered gap the extra condition is exactly that no earlier candidates repeat. */
  lemma AcceptedIff(O: seq<U32>, G: seq<Group>, tol: U32, p: Gap, i: int, j: int)
    requires IsGap(O, G, p) && MonotoneAnchors(O, G) && p.lo <= i < p.hi
    requires TimeOrdered(G)
    ensures Near(O, G, tol, i, j) <==>
            Sorted(O, p.lo, p.hi) && MutuallyNearest(O, G, tol, p, i, j) && NoEarlierRepeat(O, G, tol, p.lo, i, j)
  {
    if Near(O, G, tol, i, j) {
      var q := NearIsIn(O, G, tol, i, j);
      GapOfOriginal(O, G, p, q, i);
    }
    if Sorted(O, p.lo, p.hi) && MutuallyNearest(O, G, tol, p, i, j) && NoEarlierRepeat(O, G, tol, p.lo, i, j) {
      assert PairIn(O, G, tol, p, i, j);
    }
  }

  lemma HiddenByRepeat(O: seq<U32>, G: seq<Group>)
    requires O == [0, 0, 10] && |G| == 1 && G[0].startMs == 11 && !G[0].conflicting
    ensures var p := Gap(0, 3, 0, 1);
            IsGap(O, G, p) && MutuallyNearest(O, G, 20, p, 2, 0)
            && forall i, j :: !Pair(O, G, 20, i, j)
  {
    var p := Gap(0, 3, 0, 1);
    assert Open(O, G, 0);
    assert Candidate(O, G, 20, 0, 0) && Candidate(O, G, 20, 1, 0) && O[0] == O[1];
    assert Candidate(O, G, 20, 2, 0);
    assert IsGap(O, G, p);
    forall i, j ensures !Pair(O, G, 20, i, j) {
      if Near(O, G, 20, i, j) {
        var q := NearIsIn(O, G, 20, i, j);
        GapOfOriginal(O, G, p, q, i);
      }
    }
  }

  /**
    All three originals lie in one gap with the one group, and the last is its unique nearest within 20, and
    conversely.
  */
  ghost predicate LastIsNearest(O: seq<U32>, rows: seq<AuxiliaryLyricLine>, G: seq<Group>) {
    var p := Gap(0, 3, 0, 1);
    IsGrouping(rows, G) && IsGap(O, G, p) && MutuallyNearest(O, G, 20, p, 2, 0)
  }

  /**
    The sticky tie, concretely: two equal lines at 0 hide the line at 10, which the row at 11 is strictly nearest
    to and the other way round; every result of the alignment leaves the row unattached.
  */
  lemma RepeatedOriginalsHideNearest(O: seq<U32>, rows: seq<AuxiliaryLyricLine>, assignments: seq<Option<nat>>,
                                     stats: Stats)
    requires O == [0, 0, 10] && rows == [AuxiliaryLyricLine(11, "a")] && Aligned(O, rows, 20, assignments, stats)
    ensures assignments == [None, None, None]
    ensures exists G :: LastIsNearest(O, rows, G)
  {
    var G: seq<Group> :| AlignedBy(O, rows, 20, G, assignments, stats);
    OneRowOneGroup(rows, G);
    HiddenByRepeat(O, G);
    hide AlignedStats, Pair;
    forall i | 0 <= i < |O| ensures assignments[i].None? {
      assert AssignedRow(O, G, 20, i, assignments[i]);
    }
    assert LastIsNearest(O, rows, G);
  }

  lemma OneRowOneGroup(rows: seq<AuxiliaryLyricLine>, G: seq<Group>)
    requires |rows| == 1 && IsGrouping(rows, G)
    ensures |G| == 1 && G[0].startMs == rows[0].startMs && !G[0].conflicting
  {
    assert HasGroup(G, rows[0].startMs);
    forall j | 0 <= j < |G| ensures G[j].startMs == rows[0].startMs && !G[j].conflicting {
      assert GroupStandsFor(rows, G[j]);
    }
    OneGroupAtATime(G, 0, |G| - 1);
  }

  lemma OneGroupAtATime(G: seq<Group>, j: nat, k: nat)
    requires TimeOrdered(G) && j < |G| && k < |G| && G[j].startMs == G[k].startMs
    ensures j == k
  {
  }

  // ----- Row accounting

  /** A matched group is never also ambiguous. */
  lemma MatchedIsNotAmbiguous(O: seq<U32>, G: seq<Group>, tol: U32, i: int, j: int)
    requires TimeOrdered(G) && Pair(O, G, tol, i, j)
    ensures !Ambiguous(O, G, tol, j)
  {
    if Exact(O, G, i, j) {
      assert G[j].startMs in O;
      assert Anchored(O, G, j);
      assert !Open(O, G, j);
    } else {
      var p := NearIsIn(O, G, tol, i, j);
      assert Open(O, G, j);
      if Refused(O, G, tol, j) {
        var q :| IsGap(O, G, q) && RefusedIn(O, G, tol, q, j);
        GapOfGroup(O, G, p, q, j);
      }
    }
  }

  lemma {:induction false} FatesPartition(O: seq<U32>, G: seq<Group>, tol: U32, n: nat)
    requires n <= |G|
    ensures RowsWithFate(O, G, tol, IsMatched, n) + RowsWithFate(O, G, tol, IsAmbiguous, n)
            + RowsWithFate(O, G, tol, IsUnmatched, n) == RowTotal(G, n)
  {
    if n > 0 { FatesPartition(O, G, tol, n - 1); }
  }

  ghost function RowTotal(G: seq<Group>, n: nat): nat
    requires n <= |G|
  {
    if n == 0 then 0 else RowTotal(G, n - 1) + G[n - 1].sourceRowCount
  }

  ghost function RowsUnder(rows: seq<AuxiliaryLyricLine>, G: seq<Group>, n: nat): nat
    requires n <= |G|
  {
    if n == 0 then 0 else RowsUnder(rows, G, n - 1) + RowsAt(rows, G[n - 1].startMs)
  }

  lemma {:induction false} RowsUnderSnoc(rows: seq<AuxiliaryLyricLine>, G: seq<Group>, n: nat)
    requires n <= |G| && TimeOrdered(G) && rows != []
    ensures RowsUnder(rows, G, n) == RowsUnder(rows[..|rows| - 1], G, n)
            + (if HasGroup(G[..n], rows[|rows| - 1].startMs) then 1 else 0)
  {
    if n > 0 {
      RowsUnderSnoc(rows, G, n - 1);
      var s := rows[|rows| - 1].startMs;
      if HasGroup(G[..n - 1], s) {
        var j :| 0 <= j < n - 1 && G[..n - 1][j].startMs == s;
        assert G[..n][j].startMs == s && G[n - 1].startMs != s;
      } else if G[n - 1].startMs == s {
        assert G[..n][n - 1].startMs == s;
      } else {
        forall j | 0 <= j < n ensures G[..n][j].startMs != s {
          assert j == n - 1 || G[..n - 1][j] == G[j];
        }
      }
    }
  }

  lemma {:induction false} RowsAtBound(rows: seq<AuxiliaryLyricLine>, start: U32)
    ensures RowsAt(rows, start) <= |rows|
  {
    if rows != [] { RowsAtBound(rows[..|rows| - 1], start); }
  }

  /** Every row is counted under exactly one group. */
  lemma {:induction false} EveryRowIsUnderOneGroup(rows: seq<AuxiliaryLyricLine>, G: seq<Group>)
    requires TimeOrdered(G) && forall r :: 0 <= r < |rows| ==> HasGroup(G, rows[r].startMs)
    ensures RowsUnder(rows, G, |G|) == |rows|
  {
    if rows == [] {
      NoRowsUnder(G, |G|);
    } else {
      var front := rows[..|rows| - 1];
      forall r | 0 <= r < |front| ensures HasGroup(G, front[r].startMs) {
        assert HasGroup(G, rows[r].startMs);
      }
      EveryRowIsUnderOneGroup(front, G);
      RowsUnderSnoc(rows, G, |G|);
      assert G[..|G|] == G;
    }
  }

  lemma {:induction false} NoRowsUnder(G: seq<Group>, n: nat)
    requires n <= |G|
    ensures RowsUnder([], G, n) == 0
  {
    if n > 0 { NoRowsUnder(G, n - 1); }
  }

  lemma {:induction false} TotalIsUnsaturated(rows: seq<AuxiliaryLyricLine>, G: seq<Group>, n: nat)
    requires n <= |G| && IsGrouping(rows, G) && |rows| <= U32_MAX
    ensures RowTotal(G, n) == RowsUnder(rows, G, n)
  {
    if n > 0 {
      TotalIsUnsaturated(rows, G, n - 1);
      assert GroupStandsFor(rows, G[n - 1]);
      RowsAtBound(rows, G[n - 1].startMs);
    }
  }

  /** Below 2^32 rows: matched, ambiguous and unmatched rows add up to all rows, with no saturation. */
  lemma RowAccounting(O: seq<U32>, rows: seq<AuxiliaryLyricLine>, tol: U32, G: seq<Group>,
                      assignments: seq<Option<nat>>, stats: Stats)
    requires AlignedBy(O, rows, tol, G, assignments, stats) && |rows| <= U32_MAX
    ensures RowsWithFate(O, G, tol, IsMatched, |G|) + stats.ambiguousRows + stats.unmatchedRows == |rows|
  {
    FatesPartition(O, G, tol, |G|);
    TotalIsUnsaturated(rows, G, |G|);
    EveryRowIsUnderOneGroup(rows, G);
  }

  ghost function AssignedCount(assignments: seq<Option<nat>>, n: nat): nat
    requires n <= |assignments|
  {
    if n == 0 then 0 else AssignedCount(assignments, n - 1) + (if assignments[n - 1].Some? then 1 else 0)
  }

  ghost function AssignedRows(assignments: seq<Option<nat>>, n: nat): set<nat>
    requires n <= |assignments|
  {
    if n == 0 then {}
    else if assignments[n - 1].Some? then AssignedRows(assignments, n - 1) + {assignments[n - 1].value}
    else AssignedRows(assignments, n - 1)
  }

  lemma {:induction false} AssignedRowsComeFrom(assignments: seq<Option<nat>>, n: nat, r: nat) returns (i: nat)
    requires n <= |assignments| && r in AssignedRows(assignments, n)
    ensures i < n && assignments[i] == Some(r)
  {
    if assignments[n - 1] == Some(r) {
      i := n - 1;
    } else {
      i := AssignedRowsComeFrom(assignments, n - 1, r);
    }
  }

  lemma {:induction false} SubsetOfIndexes(S: set<nat>, n: nat)
    requires forall r :: r in S ==> r < n
    ensures |S| <= n
  {
    if n > 0 {
      SubsetOfIndexes(S - {n - 1}, n - 1);
      assert S <= (S - {n - 1}) + {n - 1};
    } else {
      assert S == {};
    }
  }

  ghost predicate OneToOne(assignments: seq<Option<nat>>) {
    forall i, k :: 0 <= i < k < |assignments| && assignments[i].Some? && assignments[k].Some? ==>
                     assignments[i].value != assignments[k].value
  }

  lemma AssignedRowIsNew(assignments: seq<Option<nat>>, n: nat)
    requires OneToOne(assignments) && n < |assignments| && assignments[n].Some?
    ensures assignments[n].value !in AssignedRows(assignments, n)
  {
    var r := assignments[n].value;
    if r in AssignedRows(assignments, n) {
      var i := AssignedRowsComeFrom(assignments, n, r);
    }
  }

  lemma {:induction false} AssignedRowsAreDistinct(assignments: seq<Option<nat>>, n: nat)
    requires OneToOne(assignments) && n <= |assignments|
    ensures |AssignedRows(assignments, n)| == AssignedCount(assignments, n)
  {
    if n > 0 {
      AssignedRowsAreDistinct(assignments, n - 1);
      if assignments[n - 1].Some? {
        AssignedRowIsNew(assignments, n - 1);
      }
    }
  }

  lemma AlignmentIsOneToOne(O: seq<U32>, rows: seq<AuxiliaryLyricLine>, tol: U32, G: seq<Group>,
                            assignments: seq<Option<nat>>, stats: Stats)
    requires AlignedBy(O, rows, tol, G, assignments, stats)
    ensures OneToOne(assignments)
  {
    forall i, k | 0 <= i < k < |assignments| && assignments[i].Some? && assignments[k].Some?
      ensures assignments[i].value != assignments[k].value
    {
      AlignmentIsSafe(O, rows, tol, G, assignments, stats, i, k);
    }
  }

  lemma AssignedRowExists(O: seq<U32>, rows: seq<AuxiliaryLyricLine>, tol: U32, G: seq<Group>,
                          assignments: seq<Option<nat>>, stats: Stats, i: nat)
    requires AlignedBy(O, rows, tol, G, assignments, stats)
    requires i < |O| && assignments[i].Some?
    ensures assignments[i].value < |rows|
    ensures Dist(O[i], rows[assignments[i].value].startMs) <= tol
  {
    assert AssignedRow(O, G, tol, i, assignments[i]);
    var j :| 0 <= j < |G| && Pair(O, G, tol, i, j) && assignments[i].value == G[j].sourceIndex;
    PairsAreClose(O, G, tol, i, j);
    assert GroupStandsFor(rows, G[j]);
  }

  lemma {:induction false} AssignedIsExactOrNear(O: seq<U32>, rows: seq<AuxiliaryLyricLine>, tol: U32, G: seq<Group>,
                                                 assignments: seq<Option<nat>>, stats: Stats, n: nat)
    requires AlignedBy(O, rows, tol, G, assignments, stats) && n <= |O|
    ensures AssignedCount(assignments, n) == ExactCount(O, G, n) + NearCount(O, G, tol, n)
  {
    hide IsGrouping, AlignedStats, MonotoneAnchors;
    if n > 0 {
      var i := n - 1;
      AssignedIsExactOrNear(O, rows, tol, G, assignments, stats, i);
      assert AssignedRow(O, G, tol, i, assignments[i]);
      if AnchoredOriginal(O, G, i) {
        var j :| Exact(O, G, i, j);
        assert Pair(O, G, tol, i, j);
        forall l ensures !Near(O, G, tol, i, l) {
          if Near(O, G, tol, i, l) { NearAndExactOrdered(O, G, tol, i, l, i, j); }
        }
      } else if NearOriginal(O, G, tol, i) {
        var j :| Near(O, G, tol, i, j);
        assert Pair(O, G, tol, i, j);
      } else {
        assert forall j :: Pair(O, G, tol, i, j) ==> Exact(O, G, i, j) || Near(O, G, tol, i, j);
      }
    }
  }

  /** Below 2^32 rows: exact plus near matches is the number of originals that received a row. */
  lemma MatchAccounting(O: seq<U32>, rows: seq<AuxiliaryLyricLine>, tol: U32, G: seq<Group>,
                        assignments: seq<Option<nat>>, stats: Stats)
    requires AlignedBy(O, rows, tol, G, assignments, stats) && |rows| <= U32_MAX
    ensures stats.exactMatches + stats.nearMatches == AssignedCount(assignments, |O|)
  {
    AssignedIsExactOrNear(O, rows, tol, G, assignments, stats, |O|);
    AlignmentIsOneToOne(O, rows, tol, G, assignments, stats);
    AssignedRowsAreDistinct(assignments, |O|);
    forall r | r in AssignedRows(assignments, |O|) ensures r < |rows| {
      var i := AssignedRowsComeFrom(assignments, |O|, r);
      AssignedRowExists(O, rows, tol, G, assignments, stats, i);
    }
    SubsetOfIndexes(AssignedRows(assignments, |O|), |rows|);
  }
}
