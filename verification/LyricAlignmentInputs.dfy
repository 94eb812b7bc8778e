/**
  The alignment's answer told from its input alone, with no groups and no gaps: which row an
  original receives, and what becomes of the rows that none receives.
*/
module LyricAlignmentInputs {
  import opened Basics
  import opened LyricAlignmentSpec
  import opened LyricAlignmentTheorems

  // ----- Attached rows in general

  /** The first row of its time, where all rows of that time carry one text. */
  ghost predicate SpeaksForItsTime(rows: seq<AuxiliaryLyricLine>, r: nat) {
    r < |rows|
    && forall s :: 0 <= s < |rows| && rows[s].startMs == rows[r].startMs ==> s >= r && rows[s].text == rows[r].text
  }

  lemma PairIsOpenOrExact(O: seq<U32>, G: seq<Group>, tol: U32, i: int, j: int)
    requires Pair(O, G, tol, i, j)
    ensures 0 <= i < |O| && 0 <= j < |G| && !G[j].conflicting
    ensures O[i] == G[j].startMs ==> Exact(O, G, i, j)
  {
    if Near(O, G, tol, i, j) {
      var p := NearIsIn(O, G, tol, i, j);
    }
  }

  lemma AssignedGroup(O: seq<U32>, rows: seq<AuxiliaryLyricLine>, tol: U32, G: seq<Group>,
                      assignments: seq<Option<nat>>, stats: Stats, i: nat) returns (j: nat)
    requires AlignedBy(O, rows, tol, G, assignments, stats) && i < |O| && assignments[i].Some?
    ensures j < |G| && Pair(O, G, tol, i, j) && assignments[i] == Some(G[j].sourceIndex) && GroupStandsFor(rows, G[j])
  {
    hide AlignedStats, Pair, GroupStandsFor;
    assert AssignedRow(O, G, tol, i, assignments[i]);
    j :| 0 <= j < |G| && Pair(O, G, tol, i, j) && assignments[i].value == G[j].sourceIndex;
  }

  /** Any row handed out is the first of its time, and the rows of that time do not disagree. */
  lemma AttachedSpeaksForItsTime(O: seq<U32>, rows: seq<AuxiliaryLyricLine>, tol: U32,
                                 assignments: seq<Option<nat>>, stats: Stats, i: nat)
    requires Aligned(O, rows, tol, assignments, stats) && i < |O| && |assignments| == |O| && assignments[i].Some?
    ensures SpeaksForItsTime(rows, assignments[i].value)
  {
    var G: seq<Group> :| AlignedBy(O, rows, tol, G, assignments, stats);
    var j := AssignedGroup(O, rows, tol, G, assignments, stats, i);
    PairIsOpenOrExact(O, G, tol, i, j);
  }

  /** A line is handed a row of its own time exactly when it alone has that time and the rows at it agree. */
  lemma ExactIff(O: seq<U32>, rows: seq<AuxiliaryLyricLine>, tol: U32, assignments: seq<Option<nat>>, stats: Stats,
                 i: nat)
    requires Aligned(O, rows, tol, assignments, stats) && i < |O|
    ensures |assignments| == |O|
    ensures ExactOriginal(O, rows, i) <==>
      assignments[i].Some? && assignments[i].value < |rows| && rows[assignments[i].value].startMs == O[i]
  {
    var G: seq<Group> :| AlignedBy(O, rows, tol, G, assignments, stats);
    ExactOriginalIff(O, rows, G, i);
    hide ExactOriginal, AlignedStats, Pair;
    if AnchoredOriginal(O, G, i) {
      var j :| Exact(O, G, i, j);
      ExactIsAssigned(O, rows, tol, G, assignments, stats, i, j);
    }
    if assignments[i].Some? {
      var j := AssignedGroup(O, rows, tol, G, assignments, stats, i);
      PairIsOpenOrExact(O, G, tol, i, j);
    }
  }

  // ----- Rows and lines all at different times

  /** Lines in order of time, rows all at different times, and none at a line's time. */
  ghost predicate Apart(O: seq<U32>, rows: seq<AuxiliaryLyricLine>) {
    (forall k, l :: 0 <= k < l < |O| ==> O[k] < O[l])
    && (forall r, s :: 0 <= r < s < |rows| ==> rows[r].startMs != rows[s].startMs)
    && forall k, r :: 0 <= k < |O| && 0 <= r < |rows| ==> O[k] != rows[r].startMs
  }

  /** Within the tolerance, nearer to the line than any other row, and with no other line as near. */
  ghost predicate RowNearest(O: seq<U32>, rows: seq<AuxiliaryLyricLine>, tol: U32, i: nat, r: nat) {
    i < |O| && r < |rows| && Dist(O[i], rows[r].startMs) <= tol
    && (forall s :: 0 <= s < |rows| && s != r ==> Dist(O[i], rows[r].startMs) < Dist(O[i], rows[s].startMs))
    && forall k :: 0 <= k < |O| && k != i ==> Dist(O[i], rows[r].startMs) < Dist(O[k], rows[r].startMs)
  }

  lemma GroupsAreOpen(O: seq<U32>, rows: seq<AuxiliaryLyricLine>, G: seq<Group>)
    requires Apart(O, rows) && IsGrouping(rows, G)
    ensures forall j :: 0 <= j < |G| ==> Open(O, G, j) && G[j].sourceIndex < |rows|
    ensures forall j :: 0 <= j < |G| ==> rows[G[j].sourceIndex].startMs == G[j].startMs
    ensures forall i, j :: !Exact(O, G, i, j)
  {
    forall j | 0 <= j < |G|
      ensures Open(O, G, j) && G[j].sourceIndex < |rows| && rows[G[j].sourceIndex].startMs == G[j].startMs
    {
      assert GroupStandsFor(rows, G[j]);
    }
  }

  ghost function WholeGap(O: seq<U32>, G: seq<Group>): Gap {
    Gap(0, |O|, 0, |G|)
  }

  lemma OnlyGap(O: seq<U32>, G: seq<Group>)
    requires forall i, j :: !Exact(O, G, i, j)
    ensures MonotoneAnchors(O, G) && forall p :: IsGap(O, G, p) <==> p == WholeGap(O, G)
  {
  }

  lemma NearIff(O: seq<U32>, G: seq<Group>, tol: U32, i: int, j: int)
    requires forall i, j :: !Exact(O, G, i, j)
    ensures Pair(O, G, tol, i, j) <==> PairIn(O, G, tol, WholeGap(O, G), i, j)
  {
    OnlyGap(O, G);
    hide PairIn, IsGap, MonotoneAnchors, Exact;
  }

  lemma RefusedIff(O: seq<U32>, G: seq<Group>, tol: U32, j: int)
    requires forall i, j :: !Exact(O, G, i, j)
    ensures Refused(O, G, tol, j) <==> RefusedIn(O, G, tol, WholeGap(O, G), j)
  {
    OnlyGap(O, G);
    hide RefusedIn, IsGap, MonotoneAnchors, Exact;
  }

  /** The group of a row, when all rows are at different times. */
  lemma GroupOfRow(rows: seq<AuxiliaryLyricLine>, G: seq<Group>, r: nat) returns (j: nat)
    requires IsGrouping(rows, G) && r < |rows|
    requires forall r, s :: 0 <= r < s < |rows| ==> rows[r].startMs != rows[s].startMs
    ensures j < |G| && G[j].sourceIndex == r
  {
    assert HasGroup(G, rows[r].startMs);
    j :| 0 <= j < |G| && G[j].startMs == rows[r].startMs;
    assert GroupStandsFor(rows, G[j]);
  }

  /** A pair of groups and lines is a pair of rows and lines. */
  lemma PairIffRowNearest(O: seq<U32>, rows: seq<AuxiliaryLyricLine>, tol: U32, G: seq<Group>, i: nat, j: nat)
    requires Apart(O, rows) && IsGrouping(rows, G) && j < |G| && i < |O|
    ensures PairIn(O, G, tol, WholeGap(O, G), i, j) <==> RowNearest(O, rows, tol, i, G[j].sourceIndex)
  {
    GroupsAreOpen(O, rows, G);
    var r := G[j].sourceIndex;
    if PairIn(O, G, tol, WholeGap(O, G), i, j) {
      forall s: nat | s < |rows| && s != r ensures Dist(O[i], rows[r].startMs) < Dist(O[i], rows[s].startMs) {
        var k := GroupOfRow(rows, G, s);
        FartherThanNearest(O, G, tol, 0, |G|, i, j, k);
      }
      forall k | 0 <= k < |O| && k != i ensures Dist(O[i], rows[r].startMs) < Dist(O[k], rows[r].startMs) {
        assert Candidate(O, G, tol, k, j) || Dist(O[k], G[j].startMs) > tol;
      }
    }
    if RowNearest(O, rows, tol, i, r) {
      forall k | 0 <= k < |G| && k != j ensures Dist(O[i], G[j].startMs) < Dist(O[i], G[k].startMs) {
        assert G[k].startMs != G[j].startMs;
      }
      assert NearestGroup(O, G, tol, 0, |G|, i, j);
      assert NearestOriginal(O, G, tol, 0, |O|, i, j);
    }
  }

  // ----- Lines that rows meet exactly, and what lies between them

  /** Lines in order of time, and rows all at different times. */
  ghost predicate InTime(O: seq<U32>, rows: seq<AuxiliaryLyricLine>) {
    (forall k, l :: 0 <= k < l < |O| ==> O[k] < O[l])
    && forall r, s :: 0 <= r < s < |rows| ==> rows[r].startMs != rows[s].startMs
  }

  ghost predicate Met(O: seq<U32>, rows: seq<AuxiliaryLyricLine>, i: int) {
    0 <= i < |O| && exists r :: 0 <= r < |rows| && rows[r].startMs == O[i]
  }

  ghost predicate Free(O: seq<U32>, rows: seq<AuxiliaryLyricLine>, r: int) {
    0 <= r < |rows| && rows[r].startMs !in O
  }

  /** No line that a row meets stands between them. */
  ghost predicate Together(O: seq<U32>, rows: seq<AuxiliaryLyricLine>, i: int, r: int)
    requires 0 <= i < |O| && 0 <= r < |rows|
  {
    forall k :: Met(O, rows, k) ==> (O[k] < O[i] <==> O[k] < rows[r].startMs)
  }

  ghost predicate NearestFree(O: seq<U32>, rows: seq<AuxiliaryLyricLine>, tol: U32, i: nat, r: nat) {
    i < |O| && r < |rows| && !Met(O, rows, i) && Free(O, rows, r) && Together(O, rows, i, r)
    && Dist(O[i], rows[r].startMs) <= tol
    && (forall s :: 0 <= s < |rows| && s != r && Free(O, rows, s) && Together(O, rows, i, s) ==>
          Dist(O[i], rows[r].startMs) < Dist(O[i], rows[s].startMs))
    && forall k :: 0 <= k < |O| && k != i && !Met(O, rows, k) && Together(O, rows, k, r) ==>
      Dist(O[i], rows[r].startMs) < Dist(O[k], rows[r].startMs)
  }

  /** In time, a group is one row, and a line is anchored exactly when a row meets it. */
  lemma GroupsInTime(O: seq<U32>, rows: seq<AuxiliaryLyricLine>, G: seq<Group>)
    requires InTime(O, rows) && IsGrouping(rows, G)
    ensures forall j :: 0 <= j < |G| ==> !G[j].conflicting && G[j].sourceIndex < |rows|
    ensures forall j :: 0 <= j < |G| ==> rows[G[j].sourceIndex].startMs == G[j].startMs
    ensures forall i, j :: Exact(O, G, i, j) <==> 0 <= i < |O| && 0 <= j < |G| && O[i] == G[j].startMs
    ensures MonotoneAnchors(O, G)
  {
    forall j | 0 <= j < |G|
      ensures !G[j].conflicting && G[j].sourceIndex < |rows| && rows[G[j].sourceIndex].startMs == G[j].startMs
    {
      assert GroupStandsFor(rows, G[j]);
    }
  }

  lemma MetIff(O: seq<U32>, rows: seq<AuxiliaryLyricLine>, G: seq<Group>, i: int)
    requires InTime(O, rows) && IsGrouping(rows, G)
    ensures Met(O, rows, i) <==> AnchoredOriginal(O, G, i)
  {
    GroupsInTime(O, rows, G);
    if Met(O, rows, i) {
      var r :| 0 <= r < |rows| && rows[r].startMs == O[i];
      assert HasGroup(G, rows[r].startMs);
      var j :| 0 <= j < |G| && G[j].startMs == O[i];
      assert Exact(O, G, i, j);
    }
  }

  // ----- The gap around a line

  lemma {:induction false} AnchorBelow(O: seq<U32>, G: seq<Group>, i: nat) returns (lo: nat, groupLo: nat)
    requires i < |O| && !AnchoredOriginal(O, G, i)
    ensures lo <= i && (forall k :: lo <= k <= i ==> !AnchoredOriginal(O, G, k)) && groupLo <= |G|
    ensures (lo == 0 && groupLo == 0) || Exact(O, G, lo - 1, groupLo - 1)
  {
    hide Exact;
    if i == 0 {
      lo, groupLo := 0, 0;
    } else if AnchoredOriginal(O, G, i - 1) {
      var j: int :| Exact(O, G, i - 1, j);
      ExactInRange(O, G, i - 1, j);
      lo, groupLo := i, j + 1;
    } else {
      lo, groupLo := AnchorBelow(O, G, i - 1);
    }
  }

  lemma {:induction false} AnchorAbove(O: seq<U32>, G: seq<Group>, i: nat) returns (hi: nat, groupHi: nat)
    requires i < |O| && !AnchoredOriginal(O, G, i)
    ensures i < hi <= |O| && (forall k :: i <= k < hi ==> !AnchoredOriginal(O, G, k)) && groupHi <= |G|
    ensures (hi == |O| && groupHi == |G|) || Exact(O, G, hi, groupHi)
    decreases |O| - i
  {
    hide Exact;
    if i + 1 == |O| {
      hi, groupHi := |O|, |G|;
    } else if AnchoredOriginal(O, G, i + 1) {
      var j: int :| Exact(O, G, i + 1, j);
      ExactInRange(O, G, i + 1, j);
      hi, groupHi := i + 1, j;
    } else {
      hi, groupHi := AnchorAbove(O, G, i + 1);
    }
  }

  lemma ExactInRange(O: seq<U32>, G: seq<Group>, i: int, j: int)
    requires Exact(O, G, i, j)
    ensures 0 <= i < |O| && 0 <= j < |G|
  {
  }

  /** Every line that is not anchored lies in a gap. */
  lemma GapAround(O: seq<U32>, G: seq<Group>, i: nat) returns (p: Gap)
    requires TimeOrdered(G) && MonotoneAnchors(O, G) && i < |O| && !AnchoredOriginal(O, G, i)
    ensures IsGap(O, G, p) && p.lo <= i < p.hi
  {
    var lo, groupLo := AnchorBelow(O, G, i);
    var hi, groupHi := AnchorAbove(O, G, i);
    p := Gap(lo, hi, groupLo, groupHi);
    hide Exact;
    assert groupLo <= groupHi by {
      if lo > 0 && hi < |O| {
        assert Exact(O, G, lo - 1, groupLo - 1) && Exact(O, G, hi, groupHi);
      }
    }
    forall k, l | Exact(O, G, k, l) ensures !(lo <= k < hi) && !(groupLo <= l < groupHi) {
      assert AnchoredOriginal(O, G, k);
      ExactInRange(O, G, k, l);
      if k < lo {
        ExactAtMost(O, G, k, l, lo - 1, groupLo - 1);
      } else {
        assert k >= hi;
        ExactAtMost(O, G, hi, groupHi, k, l);
      }
    }
  }

  lemma ExactAtMost(O: seq<U32>, G: seq<Group>, i: int, j: int, k: int, l: int)
    requires TimeOrdered(G) && MonotoneAnchors(O, G) && Exact(O, G, i, j) && Exact(O, G, k, l) && i <= k
    ensures j <= l
  {
  }

  /** The rows of the gap around a line are those that no met line parts from it. */
  lemma TogetherIff(O: seq<U32>, rows: seq<AuxiliaryLyricLine>, G: seq<Group>, p: Gap, i: nat, j: nat)
    requires InTime(O, rows) && IsGrouping(rows, G) && IsGap(O, G, p) && p.lo <= i < p.hi && j < |G|
    requires G[j].startMs !in O
    ensures G[j].sourceIndex < |rows|
    ensures p.groupLo <= j < p.groupHi <==> Together(O, rows, i, G[j].sourceIndex)
  {
    GroupsInTime(O, rows, G);
    var r := G[j].sourceIndex;
    if p.groupLo <= j < p.groupHi {
      InGapIsTogether(O, rows, G, p, i, j);
    }
    if Together(O, rows, i, r) {
      TogetherIsInGap(O, rows, G, p, i, j);
    }
  }

  lemma InGapIsTogether(O: seq<U32>, rows: seq<AuxiliaryLyricLine>, G: seq<Group>, p: Gap, i: nat, j: nat)
    requires InTime(O, rows) && IsGrouping(rows, G) && IsGap(O, G, p) && p.lo <= i < p.hi && j < |G|
    requires p.groupLo <= j < p.groupHi && G[j].sourceIndex < |rows| && G[j].startMs == rows[G[j].sourceIndex].startMs
    ensures Together(O, rows, i, G[j].sourceIndex)
  {
    GroupsInTime(O, rows, G);
    var r := G[j].sourceIndex;
    hide IsGap, GroupStandsFor;
    forall k | Met(O, rows, k) ensures O[k] < O[i] <==> O[k] < rows[r].startMs {
      MetIff(O, rows, G, k);
      var l :| Exact(O, G, k, l);
      SideOfGap(O, G, p, k, l);
    }
  }

  lemma TogetherIsInGap(O: seq<U32>, rows: seq<AuxiliaryLyricLine>, G: seq<Group>, p: Gap, i: nat, j: nat)
    requires InTime(O, rows) && IsGrouping(rows, G) && IsGap(O, G, p) && p.lo <= i < p.hi && j < |G|
    requires G[j].startMs !in O && G[j].sourceIndex < |rows| && G[j].startMs == rows[G[j].sourceIndex].startMs
    requires Together(O, rows, i, G[j].sourceIndex)
    ensures p.groupLo <= j < p.groupHi
  {
    GroupsInTime(O, rows, G);
    var r := G[j].sourceIndex;
    hide GroupStandsFor, MonotoneAnchors;
    if p.lo > 0 {
      MetIff(O, rows, G, p.lo - 1);
      assert Exact(O, G, p.lo - 1, p.groupLo - 1);
      assert O[p.lo - 1] < rows[r].startMs;
    }
    if p.hi < |O| {
      MetIff(O, rows, G, p.hi);
      assert Exact(O, G, p.hi, p.groupHi);
      assert !(O[p.hi] < rows[r].startMs);
    }
  }

  /** An anchor stands wholly before a gap or wholly behind it. */
  lemma SideOfGap(O: seq<U32>, G: seq<Group>, p: Gap, k: int, l: int)
    requires MonotoneAnchors(O, G) && IsGap(O, G, p) && Exact(O, G, k, l) && TimeOrdered(G)
    ensures (k < p.lo && l < p.groupLo) || (k >= p.hi && l >= p.groupHi)
  {
    if k < p.lo {
      ExactAtMost(O, G, k, l, p.lo - 1, p.groupLo - 1);
    } else {
      ExactAtMost(O, G, p.hi, p.groupHi, k, l);
    }
  }

  /** The lines of the gap around a row are those not met that no met line parts from it. */
  lemma LineTogetherIff(O: seq<U32>, rows: seq<AuxiliaryLyricLine>, G: seq<Group>, p: Gap, k: nat, j: nat)
    requires InTime(O, rows) && IsGrouping(rows, G) && IsGap(O, G, p) && k < |O| && p.groupLo <= j < p.groupHi
    requires G[j].startMs !in O
    ensures G[j].sourceIndex < |rows|
    ensures p.lo <= k < p.hi <==> !Met(O, rows, k) && Together(O, rows, k, G[j].sourceIndex)
  {
    GroupsInTime(O, rows, G);
    MetIff(O, rows, G, k);
    if p.lo <= k < p.hi {
      TogetherIff(O, rows, G, p, k, j);
    }
    if !Met(O, rows, k) && Together(O, rows, k, G[j].sourceIndex) {
      var q := GapAround(O, G, k);
      TogetherIff(O, rows, G, q, k, j);
      GapOfGroup(O, G, p, q, j);
    }
  }

  lemma OpenIff(O: seq<U32>, rows: seq<AuxiliaryLyricLine>, G: seq<Group>, j: nat)
    requires InTime(O, rows) && IsGrouping(rows, G) && j < |G|
    ensures Open(O, G, j) <==> Free(O, rows, G[j].sourceIndex)
  {
    GroupsInTime(O, rows, G);
  }

  lemma PairIsNearestFree(O: seq<U32>, rows: seq<AuxiliaryLyricLine>, tol: U32, G: seq<Group>, p: Gap, i: nat, j: nat)
    requires InTime(O, rows) && IsGrouping(rows, G) && IsGap(O, G, p) && p.lo <= i < p.hi && i < |O| && j < |G|
    requires PairIn(O, G, tol, p, i, j)
    ensures NearestFree(O, rows, tol, i, G[j].sourceIndex)
  {
    var r := G[j].sourceIndex;
    GroupsInTime(O, rows, G);
    OpenIff(O, rows, G, j);
    TogetherIff(O, rows, G, p, i, j);
    LineTogetherIff(O, rows, G, p, i, j);
    forall s | 0 <= s < |rows| && s != r && Free(O, rows, s) && Together(O, rows, i, s)
      ensures Dist(O[i], rows[r].startMs) < Dist(O[i], rows[s].startMs)
    {
      var k := GroupOfRow(rows, G, s);
      OpenIff(O, rows, G, k);
      TogetherIff(O, rows, G, p, i, k);
      FartherThanNearest(O, G, tol, p.groupLo, p.groupHi, i, j, k);
    }
    forall k | 0 <= k < |O| && k != i && !Met(O, rows, k) && Together(O, rows, k, r)
      ensures Dist(O[i], rows[r].startMs) < Dist(O[k], rows[r].startMs)
    {
      LineTogetherIff(O, rows, G, p, k, j);
      assert Candidate(O, G, tol, k, j) || Dist(O[k], G[j].startMs) > tol;
    }
  }

  lemma FreeIsCandidate(O: seq<U32>, rows: seq<AuxiliaryLyricLine>, tol: U32, G: seq<Group>, p: Gap, i: nat, j: nat)
    requires InTime(O, rows) && IsGrouping(rows, G) && IsGap(O, G, p) && p.lo <= i < p.hi && i < |O| && j < |G|
    requires NearestFree(O, rows, tol, i, G[j].sourceIndex)
    ensures p.groupLo <= j < p.groupHi && Candidate(O, G, tol, i, j) && G[j].sourceIndex < |rows|
    ensures G[j].startMs == rows[G[j].sourceIndex].startMs
  {
    GroupsInTime(O, rows, G);
    OpenIff(O, rows, G, j);
    TogetherIff(O, rows, G, p, i, j);
  }

  lemma FreeIsNearestGroup(O: seq<U32>, rows: seq<AuxiliaryLyricLine>, tol: U32, G: seq<Group>, p: Gap, i: nat,
                           j: nat)
    requires InTime(O, rows) && IsGrouping(rows, G) && IsGap(O, G, p) && p.lo <= i < p.hi && i < |O| && j < |G|
    requires NearestFree(O, rows, tol, i, G[j].sourceIndex)
    ensures NearestGroup(O, G, tol, p.groupLo, p.groupHi, i, j)
  {
    GroupsInTime(O, rows, G);
    FreeIsCandidate(O, rows, tol, G, p, i, j);
    hide IsGap, Exact, MonotoneAnchors, GroupStandsFor;
    forall k | p.groupLo <= k < p.groupHi && k != j && Candidate(O, G, tol, i, k)
      ensures Dist(O[i], G[j].startMs) < Dist(O[i], G[k].startMs)
    {
      OpenIff(O, rows, G, k);
      TogetherIff(O, rows, G, p, i, k);
      assert G[k].startMs != G[j].startMs;
    }
  }

  lemma FreeIsNearestOriginal(O: seq<U32>, rows: seq<AuxiliaryLyricLine>, tol: U32, G: seq<Group>, p: Gap, i: nat,
                              j: nat)
    requires InTime(O, rows) && IsGrouping(rows, G) && IsGap(O, G, p) && p.lo <= i < p.hi && i < |O| && j < |G|
    requires NearestFree(O, rows, tol, i, G[j].sourceIndex)
    ensures NearestOriginal(O, G, tol, p.lo, p.hi, i, j)
  {
    FreeIsCandidate(O, rows, tol, G, p, i, j);
    hide IsGap, Exact, MonotoneAnchors, IsGrouping;
    forall k | p.lo <= k < p.hi && k != i && Candidate(O, G, tol, k, j)
      ensures Dist(O[i], G[j].startMs) < Dist(O[k], G[j].startMs)
    {
      LineTogetherIff(O, rows, G, p, k, j);
    }
  }

  lemma NearestFreeIsPair(O: seq<U32>, rows: seq<AuxiliaryLyricLine>, tol: U32, G: seq<Group>, p: Gap, i: nat, j: nat)
    requires InTime(O, rows) && IsGrouping(rows, G) && IsGap(O, G, p) && p.lo <= i < p.hi && i < |O| && j < |G|
    requires NearestFree(O, rows, tol, i, G[j].sourceIndex)
    ensures PairIn(O, G, tol, p, i, j)
  {
    FreeIsNearestGroup(O, rows, tol, G, p, i, j);
    FreeIsNearestOriginal(O, rows, tol, G, p, i, j);
    hide NearestGroup, NearestOriginal, Candidate, NearestFree, IsGrouping, Exact, NoAnchorInside;
  }

  lemma NearIffNearestFree(O: seq<U32>, rows: seq<AuxiliaryLyricLine>, tol: U32, G: seq<Group>, i: nat, j: nat)
    requires InTime(O, rows) && IsGrouping(rows, G) && i < |O| && j < |G|
    ensures Near(O, G, tol, i, j) <==> NearestFree(O, rows, tol, i, G[j].sourceIndex)
  {
    GroupsInTime(O, rows, G);
    hide PairIn, NearestFree;
    if Near(O, G, tol, i, j) {
      var p := NearIsIn(O, G, tol, i, j);
      InsideGap(O, G, tol, p, i, j);
      PairIsNearestFree(O, rows, tol, G, p, i, j);
    }
    if NearestFree(O, rows, tol, i, G[j].sourceIndex) {
      FreeIsNotMet(O, rows, tol, i, G[j].sourceIndex);
      MetIff(O, rows, G, i);
      var p := GapAround(O, G, i);
      NearestFreeIsPair(O, rows, tol, G, p, i, j);
    }
  }

  lemma InsideGap(O: seq<U32>, G: seq<Group>, tol: U32, p: Gap, i: int, j: int)
    requires p.lo <= p.hi <= |O| && PairIn(O, G, tol, p, i, j)
    ensures p.lo <= i < p.hi
  {
  }

  lemma FreeIsNotMet(O: seq<U32>, rows: seq<AuxiliaryLyricLine>, tol: U32, i: nat, r: nat)
    requires NearestFree(O, rows, tol, i, r)
    ensures !Met(O, rows, i)
  {
  }

  /**
    The whole answer, told from the input, for lines in order and rows at different times: a line receives the row at
    its time, else exactly the free row within the tolerance that is strictly nearest to it while it is strictly
    nearest to the row, among the free rows and lines that no met line parts from them.
  */
  lemma AttachedIff(O: seq<U32>, rows: seq<AuxiliaryLyricLine>, tol: U32, assignments: seq<Option<nat>>, stats: Stats,
                    i: nat, r: nat)
    requires InTime(O, rows) && Aligned(O, rows, tol, assignments, stats) && i < |O| && r < |rows|
    ensures |assignments| == |O|
    ensures assignments[i] == Some(r) <==> rows[r].startMs == O[i] || NearestFree(O, rows, tol, i, r)
  {
    var G: seq<Group> :| AlignedBy(O, rows, tol, G, assignments, stats);
    GroupsInTime(O, rows, G);
    hide AlignedStats, NearestFree, Near, Exact, GroupStandsFor;
    var j := GroupOfRow(rows, G, r);
    NearIffNearestFree(O, rows, tol, G, i, j);
    assert AssignedRow(O, G, tol, i, assignments[i]);
    if assignments[i] == Some(r) {
      var l := AssignedGroup(O, rows, tol, G, assignments, stats, i);
      OneGroupAtATime(G, j, l);
    }
    if rows[r].startMs == O[i] || NearestFree(O, rows, tol, i, r) {
      assert Pair(O, G, tol, i, j);
      var l := AssignedGroup(O, rows, tol, G, assignments, stats, i);
      PairsAreOneToOne(O, G, tol, i, j, i, l);
    }
  }

  // ----- One line and one row

  /** The range a distance in milliseconds is counted under. */
  function Range(delta: nat): nat {
    if delta == 0 then 0
    else if delta < 21 then 1
    else if delta < 101 then 2
    else if delta < 251 then 3
    else if delta < 501 then 4
    else 5
  }

  lemma OneGroup(O: seq<U32>, row: AuxiliaryLyricLine, G: seq<Group>)
    requires IsGrouping([row], G)
    ensures |G| == 1 && G[0].startMs == row.startMs && !G[0].conflicting && G[0].sourceIndex == 0
    ensures G[0].sourceRowCount == 1
  {
    OneRowOneGroup([row], G);
    assert GroupStandsFor([row], G[0]);
    assert RowsAt([row], row.startMs) == RowsAt([row][..0], row.startMs) + 1;
  }

  /** One line and one row: attached exactly within the tolerance, and counted once under its distance. */
  lemma OneLineOneRow(line: U32, row: AuxiliaryLyricLine, tol: U32, assignments: seq<Option<nat>>, stats: Stats)
    requires Aligned([line], [row], tol, assignments, stats)
    ensures var delta := if line < row.startMs then row.startMs - line else line - row.startMs;
      assignments == [if delta <= tol then Some(0) else None]
      && stats.exactMatches == (if delta == 0 then 1 else 0)
      && stats.nearMatches == (if 0 < delta <= tol then 1 else 0)
      && stats.unmatchedRows == (if delta > tol then 1 else 0) && stats.ambiguousRows == 0
      && stats.deduplicatedRows == 0
      && stats.nearestDeltaBuckets == seq(6, b => if b == Range(delta) then 1 else 0)
  {
    var G: seq<Group> :| AlignedBy([line], [row], tol, G, assignments, stats);
    OneGroup([line], row, G);
    OnePair(line, row, tol, G);
    OneFate(line, row, tol, G);
    OneDistance(line, row, G);
    assert AssignedRow([line], G, tol, 0, assignments[0]);
    hide Pair, Near, Exact, FateOf, InBucket;
    assert AnchoredOriginal([line], G, 0) <==> Exact([line], G, 0, 0);
    assert NearOriginal([line], G, tol, 0) <==> Near([line], G, tol, 0, 0);
    OneCounts([line], G, tol);
    assert forall b :: 0 <= b < 6 ==> stats.nearestDeltaBuckets[b] == Sat(BucketCount([line], G, b, 1));
  }

  lemma OneCounts(O: seq<U32>, G: seq<Group>, tol: U32)
    requires |O| == 1 && |G| == 1 && G[0].sourceRowCount == 1 && !G[0].conflicting
    ensures ExactCount(O, G, 1) == if AnchoredOriginal(O, G, 0) then 1 else 0
    ensures NearCount(O, G, tol, 1) == if NearOriginal(O, G, tol, 0) then 1 else 0
    ensures forall fate :: RowsWithFate(O, G, tol, fate, 1) == if FateOf(O, G, tol, 0) == fate then 1 else 0
    ensures Deduplicated(G, 1) == 0
    ensures forall b: nat :: BucketCount(O, G, b, 1) == if InBucket(O, G[0].startMs, b) then 1 else 0
  {
    hide AnchoredOriginal, NearOriginal, FateOf, InBucket;
    forall fate ensures RowsWithFate(O, G, tol, fate, 1) == if FateOf(O, G, tol, 0) == fate then 1 else 0 {
      assert RowsWithFate(O, G, tol, fate, 0) == 0;
    }
    forall b: nat ensures BucketCount(O, G, b, 1) == if InBucket(O, G[0].startMs, b) then 1 else 0 {
      assert BucketCount(O, G, b, 0) == 0;
    }
  }

  lemma OnePair(line: U32, row: AuxiliaryLyricLine, tol: U32, G: seq<Group>)
    requires |G| == 1 && G[0].startMs == row.startMs && !G[0].conflicting
    ensures Exact([line], G, 0, 0) <==> line == row.startMs
    ensures Near([line], G, tol, 0, 0) <==> line != row.startMs && Dist(line, row.startMs) <= tol
    ensures forall i, j :: Pair([line], G, tol, i, j) ==> i == 0 && j == 0
  {
    var O := [line];
    if line == row.startMs {
      assert Exact(O, G, 0, 0);
    } else {
      OnlyGap(O, G);
      if Dist(line, row.startMs) <= tol {
        assert Candidate(O, G, tol, 0, 0);
        assert PairIn(O, G, tol, WholeGap(O, G), 0, 0);
      }
    }
  }

  lemma OneFate(line: U32, row: AuxiliaryLyricLine, tol: U32, G: seq<Group>)
    requires |G| == 1 && G[0].startMs == row.startMs && !G[0].conflicting
    ensures FateOf([line], G, tol, 0) == if Dist(line, row.startMs) <= tol then IsMatched else IsUnmatched
  {
    var O := [line];
    OnePair(line, row, tol, G);
    if Dist(line, row.startMs) <= tol {
      assert Pair(O, G, tol, 0, 0);
      MatchedIsNotAmbiguous(O, G, tol, 0, 0);
    } else {
      OnlyGap(O, G);
      RefusedIff(O, G, tol, 0);
    }
  }

  lemma OneDistance(line: U32, row: AuxiliaryLyricLine, G: seq<Group>)
    requires |G| == 1 && G[0].startMs == row.startMs
    ensures forall b: nat :: InBucket([line], G[0].startMs, b) <==> b == Range(Dist(line, row.startMs))
  {
    var delta := Dist(line, row.startMs);
    assert IsLeastDelta([line], row.startMs, delta) by {
      assert [line][0] == line;
    }
    assert Bucket(delta) == Range(delta);
    forall d: nat | IsLeastDelta([line], row.startMs, d) ensures d == delta {
      assert [line][0] == line;
    }
  }

  // ----- Rows left over

  /**
    One row among any lines in order: ambiguous when lines are near but none is nearest, unmatched when none is
    near.
  */
  lemma OneRowAmongLines(O: seq<U32>, row: AuxiliaryLyricLine, tol: U32, assignments: seq<Option<nat>>, stats: Stats)
    requires Apart(O, [row]) && Aligned(O, [row], tol, assignments, stats)
    ensures stats.unmatchedRows == if forall k :: 0 <= k < |O| ==> Dist(O[k], row.startMs) > tol then 1 else 0
    ensures stats.ambiguousRows ==
      if (exists k :: 0 <= k < |O| && Dist(O[k], row.startMs) <= tol)
         && !exists i: nat :: RowNearest(O, [row], tol, i, 0) then 1 else 0
  {
    var G: seq<Group> :| AlignedBy(O, [row], tol, G, assignments, stats);
    OneGroup(O, row, G);
    FateAmongLines(O, row, tol, G);
    hide Apart, FateOf, RowNearest, IsGrouping, AssignedRow;
    OneFateCounts(O, G, tol);
  }

  lemma OneFateCounts(O: seq<U32>, G: seq<Group>, tol: U32)
    requires |G| == 1 && G[0].sourceRowCount == 1
    ensures RowsWithFate(O, G, tol, IsAmbiguous, 1) == if FateOf(O, G, tol, 0) == IsAmbiguous then 1 else 0
    ensures RowsWithFate(O, G, tol, IsUnmatched, 1) == if FateOf(O, G, tol, 0) == IsUnmatched then 1 else 0
  {
    hide FateOf;
    assert RowsWithFate(O, G, tol, IsAmbiguous, 0) == RowsWithFate(O, G, tol, IsUnmatched, 0) == 0;
  }

  lemma FateAmongLines(O: seq<U32>, row: AuxiliaryLyricLine, tol: U32, G: seq<Group>)
    requires Apart(O, [row]) && IsGrouping([row], G)
    requires |G| == 1 && G[0].startMs == row.startMs && !G[0].conflicting && G[0].sourceIndex == 0
    ensures FateOf(O, G, tol, 0) ==
      if exists i: nat :: RowNearest(O, [row], tol, i, 0) then IsMatched
      else if exists k :: 0 <= k < |O| && Dist(O[k], row.startMs) <= tol then IsAmbiguous
      else IsUnmatched
  {
    GroupsAreOpen(O, [row], G);
    OnlyGap(O, G);
    RefusedIff(O, G, tol, 0);
    if i: nat :| RowNearest(O, [row], tol, i, 0) {
      PairIffRowNearest(O, [row], tol, G, i, 0);
      NearIff(O, G, tol, i, 0);
      MatchedIsNotAmbiguous(O, G, tol, i, 0);
    } else {
      NeverPaired(O, row, tol, G);
      hide PairIn, IsGap, MonotoneAnchors;
      if k :| 0 <= k < |O| && Dist(O[k], row.startMs) <= tol {
        assert Candidate(O, G, tol, k, 0);
        assert [row][0] == row;
      }
    }
  }

  lemma NeverPaired(O: seq<U32>, row: AuxiliaryLyricLine, tol: U32, G: seq<Group>)
    requires Apart(O, [row]) && IsGrouping([row], G) && |G| == 1 && G[0].sourceIndex == 0
    requires forall i: nat :: !RowNearest(O, [row], tol, i, 0)
    ensures !Matched(O, G, tol, 0) && forall i :: !PairIn(O, G, tol, WholeGap(O, G), i, 0)
  {
    GroupsAreOpen(O, [row], G);
    hide RowNearest, Apart, IsGrouping;
    forall i ensures !PairIn(O, G, tol, WholeGap(O, G), i, 0) && !Pair(O, G, tol, i, 0) {
      NearIff(O, G, tol, i, 0);
      if 0 <= i < |O| {
        PairIffRowNearest(O, [row], tol, G, i, 0);
      }
    }
  }

  lemma {:induction false} AllOneFate(O: seq<U32>, G: seq<Group>, tol: U32, fate: Fate, n: nat)
    requires n <= |G|
    ensures (forall j :: 0 <= j < n ==> FateOf(O, G, tol, j) == fate) ==>
      RowsWithFate(O, G, tol, fate, n) == RowTotal(G, n)
    ensures (forall j :: 0 <= j < n ==> FateOf(O, G, tol, j) != fate) ==> RowsWithFate(O, G, tol, fate, n) == 0
  {
    hide FateOf;
    if n > 0 {
      AllOneFate(O, G, tol, fate, n - 1);
    }
  }

  /** Lines out of order and met by no row exactly: no row is attached, and all of them count as ambiguous. */
  lemma DisorderRefusesAll(O: seq<U32>, rows: seq<AuxiliaryLyricLine>, tol: U32, assignments: seq<Option<nat>>,
                           stats: Stats)
    requires Aligned(O, rows, tol, assignments, stats) && |rows| <= U32_MAX
    requires forall k, r :: 0 <= k < |O| && 0 <= r < |rows| ==> O[k] != rows[r].startMs
    requires exists k, l :: 0 <= k < l < |O| && O[k] > O[l]
    ensures stats.ambiguousRows == |rows| && stats.unmatchedRows == 0
    ensures forall i :: 0 <= i < |assignments| ==> assignments[i] == None
  {
    var G: seq<Group> :| AlignedBy(O, rows, tol, G, assignments, stats);
    DisorderedFates(O, rows, tol, G);
    hide FateOf;
    AllOneFate(O, G, tol, IsAmbiguous, |G|);
    AllOneFate(O, G, tol, IsUnmatched, |G|);
    TotalIsUnsaturated(rows, G, |G|);
    EveryRowIsUnderOneGroup(rows, G);
    hide Pair, RowsWithFate, IsGrouping, AlignedStats;
    forall i | 0 <= i < |assignments| ensures assignments[i] == None {
      assert AssignedRow(O, G, tol, i, assignments[i]);
    }
  }

  lemma DisorderedFates(O: seq<U32>, rows: seq<AuxiliaryLyricLine>, tol: U32, G: seq<Group>)
    requires IsGrouping(rows, G) && forall k, r :: 0 <= k < |O| && 0 <= r < |rows| ==> O[k] != rows[r].startMs
    requires exists k, l :: 0 <= k < l < |O| && O[k] > O[l]
    ensures forall j :: 0 <= j < |G| ==> FateOf(O, G, tol, j) == IsAmbiguous
    ensures forall i, j :: !Pair(O, G, tol, i, j)
  {
    forall i, j ensures !Exact(O, G, i, j) {
      if 0 <= j < |G| {
        assert GroupStandsFor(rows, G[j]);
      }
    }
    forall j | 0 <= j < |G| ensures G[j].startMs !in O {
      assert GroupStandsFor(rows, G[j]);
    }
    assert !Sorted(O, 0, |O|);
    hide IsGrouping, Exact;
    forall i, j ensures !Pair(O, G, tol, i, j) {
      NearIff(O, G, tol, i, j);
    }
    forall j | 0 <= j < |G| ensures FateOf(O, G, tol, j) == IsAmbiguous {
      RefusedIff(O, G, tol, j);
    }
  }

  /** Exact anchors that cross: rows are attached exactly or not at all, and no row counts as merely unmatched. */
  lemma CrossingRefusesTheRest(O: seq<U32>, rows: seq<AuxiliaryLyricLine>, tol: U32, assignments: seq<Option<nat>>,
                               stats: Stats)
    requires Aligned(O, rows, tol, assignments, stats) && !ExactOriginalsIncrease(O, rows)
    ensures stats.nearMatches == 0 && stats.unmatchedRows == 0
    ensures forall i :: 0 <= i < |O| && i < |assignments| && assignments[i].Some? ==> ExactOriginal(O, rows, i)
  {
    var G: seq<Group> :| AlignedBy(O, rows, tol, G, assignments, stats);
    MonotoneIffExactOriginalsIncrease(O, rows, G);
    CrossingFates(O, tol, G);
    hide FateOf, Exact, ExactOriginalsIncrease, MonotoneAnchors, ExactOriginal;
    AllOneFate(O, G, tol, IsUnmatched, |G|);
    NoNear(O, G, tol, |O|);
    forall i | 0 <= i < |O| && i < |assignments| && assignments[i].Some? ensures ExactOriginal(O, rows, i) {
      var j := AssignedGroup(O, rows, tol, G, assignments, stats, i);
      ExactOriginalIff(O, rows, G, i);
    }
  }

  lemma CrossingFates(O: seq<U32>, tol: U32, G: seq<Group>)
    requires !MonotoneAnchors(O, G)
    ensures forall j :: 0 <= j < |G| ==> FateOf(O, G, tol, j) != IsUnmatched
    ensures forall i, j :: Pair(O, G, tol, i, j) ==> Exact(O, G, i, j)
  {
    hide MonotoneAnchors;
    forall j | 0 <= j < |G| ensures FateOf(O, G, tol, j) != IsUnmatched {
      if Anchored(O, G, j) {
        var i :| Exact(O, G, i, j);
        assert Pair(O, G, tol, i, j);
      }
    }
  }

  lemma {:induction false} NoNear(O: seq<U32>, G: seq<Group>, tol: U32, n: nat)
    requires n <= |O| && !MonotoneAnchors(O, G)
    ensures NearCount(O, G, tol, n) == 0
  {
    hide MonotoneAnchors;
    if n > 0 {
      NoNear(O, G, tol, n - 1);
    }
  }

  // ----- Repeated rows

  ghost function Times(rows: seq<AuxiliaryLyricLine>): set<U32> {
    set r | 0 <= r < |rows| :: rows[r].startMs
  }

  ghost function GroupTimes(G: seq<Group>, n: nat): set<U32>
    requires n <= |G|
  {
    if n == 0 then {} else GroupTimes(G, n - 1) + {G[n - 1].startMs}
  }

  ghost predicate TimeAmong(G: seq<Group>, n: nat, t: U32) {
    exists j :: 0 <= j < n && j < |G| && G[j].startMs == t
  }

  lemma {:induction false} TimeOfGroups(G: seq<Group>, n: nat, t: U32)
    requires n <= |G|
    ensures t in GroupTimes(G, n) <==> TimeAmong(G, n, t)
  {
    if n > 0 {
      TimeOfGroups(G, n - 1, t);
      if TimeAmong(G, n, t) {
        var j :| 0 <= j < n && j < |G| && G[j].startMs == t;
      }
    }
  }

  lemma {:induction false} TimesOfGroups(G: seq<Group>, n: nat)
    requires n <= |G| && TimeOrdered(G)
    ensures |GroupTimes(G, n)| == n
  {
    if n > 0 {
      TimesOfGroups(G, n - 1);
      TimeOfGroups(G, n - 1, G[n - 1].startMs);
    }
  }

  lemma {:induction false} RowsAtPositive(rows: seq<AuxiliaryLyricLine>, r: nat)
    requires r < |rows|
    ensures RowsAt(rows, rows[r].startMs) >= 1
  {
    if r < |rows| - 1 {
      RowsAtPositive(rows[..|rows| - 1], r);
    }
  }

  lemma {:induction false} DeduplicatedIs(rows: seq<AuxiliaryLyricLine>, G: seq<Group>, n: nat)
    requires n <= |G| && IsGrouping(rows, G) && forall j :: 0 <= j < |G| ==> !G[j].conflicting
    ensures Deduplicated(G, n) + n == RowTotal(G, n)
  {
    if n > 0 {
      DeduplicatedIs(rows, G, n - 1);
      assert GroupStandsFor(rows, G[n - 1]);
      RowsAtPositive(rows, G[n - 1].sourceIndex);
    }
  }

  /** When the rows of each time agree, all but one row of each time count as duplicates. */
  lemma RepeatsAreDuplicates(O: seq<U32>, rows: seq<AuxiliaryLyricLine>, tol: U32, assignments: seq<Option<nat>>,
                             stats: Stats)
    requires Aligned(O, rows, tol, assignments, stats) && |rows| <= U32_MAX
    requires forall r, s :: 0 <= r < |rows| && 0 <= s < |rows| && rows[r].startMs == rows[s].startMs ==>
      rows[r].text == rows[s].text
    ensures stats.deduplicatedRows + |Times(rows)| == |rows|
  {
    var G: seq<Group> :| AlignedBy(O, rows, tol, G, assignments, stats);
    forall j | 0 <= j < |G| ensures !G[j].conflicting {
      assert GroupStandsFor(rows, G[j]);
    }
    DeduplicatedIs(rows, G, |G|);
    TotalIsUnsaturated(rows, G, |G|);
    EveryRowIsUnderOneGroup(rows, G);
    SameTimes(rows, G);
    TimesOfGroups(G, |G|);
  }

  lemma SameTimes(rows: seq<AuxiliaryLyricLine>, G: seq<Group>)
    requires IsGrouping(rows, G)
    ensures Times(rows) == GroupTimes(G, |G|)
  {
    forall t | t in Times(rows) ensures t in GroupTimes(G, |G|) {
      TimeOfGroups(G, |G|, t);
      var r :| 0 <= r < |rows| && rows[r].startMs == t;
      assert HasGroup(G, rows[r].startMs);
    }
    forall t | t in GroupTimes(G, |G|) ensures t in Times(rows) {
      TimeOfGroups(G, |G|, t);
      var j :| 0 <= j < |G| && G[j].startMs == t;
      assert GroupStandsFor(rows, G[j]);
    }
  }
}
