/**
  What the auxiliary lyric alignment promises, stated without its loops.

  `O` is always the list of original line starts, `G` the auxiliary groups in
  time order, `tol` the tolerance in milliseconds. A pair (i, j) attaches
  group j to original line i.
*/
module LyricAlignmentSpec {
  import opened Basics

  datatype AuxiliaryLyricLine = AuxiliaryLyricLine(startMs: U32, text: string)

  datatype Group = Group(
    startMs: U32,
    sourceIndex: nat,
    sourceRowCount: U32,
    conflicting: bool,
    matched: bool,
    ambiguous: bool)

  datatype Stats = Stats(
    exactMatches: U32,
    nearMatches: U32,
    ambiguousRows: U32,
    unmatchedRows: U32,
    deduplicatedRows: U32,
    nearestDeltaBuckets: seq<U32>)

  /** A stretch of originals and of groups between two neighbouring exact anchors. */
  datatype Gap = Gap(lo: nat, hi: nat, groupLo: nat, groupHi: nat)

  // ----- Grouping of auxiliary rows

  ghost function RowsAt(rows: seq<AuxiliaryLyricLine>, start: U32): nat {
    if rows == [] then 0
    else RowsAt(rows[..|rows| - 1], start) + (if rows[|rows| - 1].startMs == start then 1 else 0)
  }

  ghost predicate TimeOrdered(G: seq<Group>) {
    forall j, k :: 0 <= j < k < |G| ==> G[j].startMs < G[k].startMs
  }

  /** `g` stands for exactly the rows that start at its time: first row, row count, conflict. */
  ghost predicate GroupStandsFor(rows: seq<AuxiliaryLyricLine>, g: Group) {
    && g.sourceIndex < |rows|
    && rows[g.sourceIndex].startMs == g.startMs
    && (forall r :: 0 <= r < g.sourceIndex ==> rows[r].startMs != g.startMs)
    && g.sourceRowCount == Sat(RowsAt(rows, g.startMs))
    && (g.conflicting <==>
        exists r :: 0 <= r < |rows| && rows[r].startMs == g.startMs && rows[r].text != rows[g.sourceIndex].text)
    && !g.matched && !g.ambiguous
  }

  ghost predicate HasGroup(G: seq<Group>, start: U32) {
    exists j :: 0 <= j < |G| && G[j].startMs == start
  }

  ghost predicate IsGrouping(rows: seq<AuxiliaryLyricLine>, G: seq<Group>) {
    && TimeOrdered(G)
    && (forall j :: 0 <= j < |G| ==> GroupStandsFor(rows, G[j]))
    && (forall r :: 0 <= r < |rows| ==> HasGroup(G, rows[r].startMs))
  }

  // ----- Exact anchors

  ghost predicate Exact(O: seq<U32>, G: seq<Group>, i: int, j: int) {
    && 0 <= i < |O| && 0 <= j < |G|
    && !G[j].conflicting && O[i] == G[j].startMs
    && forall k :: 0 <= k < |O| && O[k] == O[i] ==> k == i
  }

  ghost predicate Anchored(O: seq<U32>, G: seq<Group>, j: int) {
    exists i :: Exact(O, G, i, j)
  }

  ghost predicate AnchoredOriginal(O: seq<U32>, G: seq<Group>, i: int) {
    exists j :: Exact(O, G, i, j)
  }

  ghost predicate MonotoneAnchors(O: seq<U32>, G: seq<Group>) {
    forall i, j, k, l :: Exact(O, G, i, j) && Exact(O, G, k, l) && i < k ==> j < l
  }

  // ----- Near pairs

  /** A group no exact rule has settled: no conflict and no original at its time. */
  ghost predicate Open(O: seq<U32>, G: seq<Group>, j: int) {
    0 <= j < |G| && !G[j].conflicting && G[j].startMs !in O
  }

  ghost predicate Candidate(O: seq<U32>, G: seq<Group>, tol: U32, i: int, j: int) {
    0 <= i < |O| && Open(O, G, j) && Dist(O[i], G[j].startMs) <= tol
  }

  ghost predicate NoAnchorInside(O: seq<U32>, G: seq<Group>, p: Gap) {
    forall i, j :: Exact(O, G, i, j) ==> !(p.lo <= i < p.hi) && !(p.groupLo <= j < p.groupHi)
  }

  ghost predicate IsGap(O: seq<U32>, G: seq<Group>, p: Gap) {
    && p.lo <= p.hi <= |O| && p.groupLo <= p.groupHi <= |G|
    && ((p.lo == 0 && p.groupLo == 0) || Exact(O, G, p.lo - 1, p.groupLo - 1))
    && ((p.hi == |O| && p.groupHi == |G|) || Exact(O, G, p.hi, p.groupHi))
    && NoAnchorInside(O, G, p)
  }

  ghost predicate Sorted(O: seq<U32>, lo: int, hi: int)
    requires 0 <= lo <= hi <= |O|
  {
    forall k, l :: lo <= k <= l < hi ==> O[k] <= O[l]
  }

  /** Among groups `gLo..gHi`, group j is the one strictly nearest candidate of original i. */
  ghost predicate NearestGroup(O: seq<U32>, G: seq<Group>, tol: U32, gLo: int, gHi: int, i: int, j: int) {
    && gLo <= j < gHi && Candidate(O, G, tol, i, j)
    && forall k :: gLo <= k < gHi && k != j && Candidate(O, G, tol, i, k) ==>
                     Dist(O[i], G[j].startMs) < Dist(O[i], G[k].startMs)
  }

  /** Among originals `lo..hi`, original i is the one strictly nearest candidate of group j. */
  ghost predicate NearestOriginal(O: seq<U32>, G: seq<Group>, tol: U32, lo: int, hi: int, i: int, j: int) {
    && lo <= i < hi && Candidate(O, G, tol, i, j)
    && forall k :: lo <= k < hi && k != i && Candidate(O, G, tol, k, j) ==>
                     Dist(O[i], G[j].startMs) < Dist(O[k], G[j].startMs)
  }

  /** No two candidates of group j before original i start at the same time. */
  ghost predicate NoEarlierRepeat(O: seq<U32>, G: seq<Group>, tol: U32, lo: int, i: int, j: int) {
    forall k, l :: lo <= k < l < i && Candidate(O, G, tol, k, j) && Candidate(O, G, tol, l, j) ==> O[k] != O[l]
  }

  ghost predicate MutuallyNearest(O: seq<U32>, G: seq<Group>, tol: U32, p: Gap, i: int, j: int) {
    && NearestGroup(O, G, tol, p.groupLo, p.groupHi, i, j)
    && NearestOriginal(O, G, tol, p.lo, p.hi, i, j)
  }

  ghost predicate PairIn(O: seq<U32>, G: seq<Group>, tol: U32, p: Gap, i: int, j: int)
    requires p.lo <= p.hi <= |O|
  {
    && Sorted(O, p.lo, p.hi)
    && MutuallyNearest(O, G, tol, p, i, j)
    && NoEarlierRepeat(O, G, tol, p.lo, i, j)
  }

  ghost predicate Near(O: seq<U32>, G: seq<Group>, tol: U32, i: int, j: int) {
    && MonotoneAnchors(O, G)
    && exists p :: IsGap(O, G, p) && PairIn(O, G, tol, p, i, j)
  }

  ghost predicate Pair(O: seq<U32>, G: seq<Group>, tol: U32, i: int, j: int) {
    Exact(O, G, i, j) || Near(O, G, tol, i, j)
  }

  ghost predicate NearOriginal(O: seq<U32>, G: seq<Group>, tol: U32, i: int) {
    exists j :: Near(O, G, tol, i, j)
  }

  ghost predicate Matched(O: seq<U32>, G: seq<Group>, tol: U32, j: int) {
    exists i :: Pair(O, G, tol, i, j)
  }

  /** Why a near pass refuses an open group of gap `p`: unordered originals, or a candidate it did not get. */
  ghost predicate RefusedIn(O: seq<U32>, G: seq<Group>, tol: U32, p: Gap, j: int)
    requires p.lo <= p.hi <= |O|
  {
    && p.lo < p.hi && p.groupLo <= j < p.groupHi && Open(O, G, j)
    && (!Sorted(O, p.lo, p.hi)
        || ((exists i :: p.lo <= i < p.hi && Candidate(O, G, tol, i, j))
            && !exists i :: PairIn(O, G, tol, p, i, j)))
  }

  ghost predicate Refused(O: seq<U32>, G: seq<Group>, tol: U32, j: int) {
    if MonotoneAnchors(O, G) then exists p :: IsGap(O, G, p) && RefusedIn(O, G, tol, p, j)
    else Open(O, G, j)
  }

  ghost predicate ExactlyAmbiguous(O: seq<U32>, G: seq<Group>, j: int) {
    0 <= j < |G| && (G[j].conflicting || (G[j].startMs in O && !Anchored(O, G, j)))
  }

  ghost predicate Ambiguous(O: seq<U32>, G: seq<Group>, tol: U32, j: int) {
    ExactlyAmbiguous(O, G, j) || Refused(O, G, tol, j)
  }

  // ----- The complete answer

  ghost predicate AssignedRow(O: seq<U32>, G: seq<Group>, tol: U32, i: int, row: Option<nat>) {
    && (row.Some? ==> exists j :: 0 <= j < |G| && Pair(O, G, tol, i, j) && row.value == G[j].sourceIndex)
    && (row.None? ==> forall j :: !Pair(O, G, tol, i, j))
  }

  ghost function ExactCount(O: seq<U32>, G: seq<Group>, n: nat): nat {
    if n == 0 then 0 else ExactCount(O, G, n - 1) + (if AnchoredOriginal(O, G, n - 1) then 1 else 0)
  }

  ghost function NearCount(O: seq<U32>, G: seq<Group>, tol: U32, n: nat): nat {
    if n == 0 then 0 else NearCount(O, G, tol, n - 1) + (if NearOriginal(O, G, tol, n - 1) then 1 else 0)
  }

  datatype Fate = IsMatched | IsAmbiguous | IsUnmatched

  ghost function FateOf(O: seq<U32>, G: seq<Group>, tol: U32, j: int): Fate {
    if Ambiguous(O, G, tol, j) then IsAmbiguous
    else if Matched(O, G, tol, j) then IsMatched
    else IsUnmatched
  }

  ghost function RowsWithFate(O: seq<U32>, G: seq<Group>, tol: U32, fate: Fate, n: nat): nat
    requires n <= |G|
  {
    if n == 0 then 0
    else RowsWithFate(O, G, tol, fate, n - 1)
         + (if FateOf(O, G, tol, n - 1) == fate then G[n - 1].sourceRowCount else 0)
  }

  ghost function Deduplicated(G: seq<Group>, n: nat): nat
    requires n <= |G|
  {
    if n == 0 then 0
    else Deduplicated(G, n - 1) + (if G[n - 1].conflicting then 0 else SatSub(G[n - 1].sourceRowCount, 1))
  }

  /** The true least distance of `start` to any original. */
  ghost predicate IsLeastDelta(O: seq<U32>, start: U32, delta: nat) {
    && (exists i :: 0 <= i < |O| && Dist(O[i], start) == delta)
    && forall i :: 0 <= i < |O| ==> delta <= Dist(O[i], start)
  }

  function Bucket(delta: nat): nat {
    if delta == 0 then 0
    else if delta <= 20 then 1
    else if delta <= 100 then 2
    else if delta <= 250 then 3
    else if delta <= 500 then 4
    else 5
  }

  ghost predicate InBucket(O: seq<U32>, start: U32, b: nat) {
    exists delta: nat :: IsLeastDelta(O, start, delta) && Bucket(delta) == b
  }

  ghost function BucketCount(O: seq<U32>, G: seq<Group>, b: nat, n: nat): nat
    requires n <= |G|
  {
    if n == 0 then 0
    else BucketCount(O, G, b, n - 1) + (if InBucket(O, G[n - 1].startMs, b) then 1 else 0)
  }

  ghost predicate AlignedStats(O: seq<U32>, G: seq<Group>, tol: U32, stats: Stats) {
    && stats.exactMatches == Sat(ExactCount(O, G, |O|))
    && stats.nearMatches == Sat(NearCount(O, G, tol, |O|))
    && stats.ambiguousRows == Sat(RowsWithFate(O, G, tol, IsAmbiguous, |G|))
    && stats.unmatchedRows == Sat(RowsWithFate(O, G, tol, IsUnmatched, |G|))
    && stats.deduplicatedRows == Sat(Deduplicated(G, |G|))
    && |stats.nearestDeltaBuckets| == 6
    && forall b :: 0 <= b < 6 ==> stats.nearestDeltaBuckets[b] == Sat(BucketCount(O, G, b, |G|))
  }

  ghost predicate AlignedBy(O: seq<U32>, rows: seq<AuxiliaryLyricLine>, tol: U32, G: seq<Group>,
                            assignments: seq<Option<nat>>, stats: Stats) {
    && IsGrouping(rows, G)
    && |assignments| == |O|
    && (forall i :: 0 <= i < |O| ==> AssignedRow(O, G, tol, i, assignments[i]))
    && AlignedStats(O, G, tol, stats)
  }

  /** The specification of the whole alignment. */
  ghost predicate Aligned(O: seq<U32>, rows: seq<AuxiliaryLyricLine>, tol: U32,
                          assignments: seq<Option<nat>>, stats: Stats) {
    exists G :: AlignedBy(O, rows, tol, G, assignments, stats)
  }
}
