/** The complete alignment: exact pins, near segments between them, final row counts. */
module LyricAlignmentMain {
  import opened Basics
  import opened LyricAlignmentSpec
  import opened LyricAlignmentTheorems
  import opened LyricAlignmentGroups
  import opened LyricAlignmentGaps

  // ----- Exact pins

  ghost predicate IndexList(O: seq<U32>, n: nat, start: U32, indexes: seq<nat>)
    requires n <= |O|
  {
    && indexes != []
    && (forall k :: 0 <= k < |indexes| ==> indexes[k] < n && O[indexes[k]] == start)
    && (forall k, l :: 0 <= k < l < |indexes| ==> indexes[k] < indexes[l])
    && (forall i: nat :: i < n && O[i] == start ==> i in indexes)
  }

  ghost predicate ByStart(O: seq<U32>, n: nat, table: map<U32, seq<nat>>)
    requires n <= |O|
  {
    && (forall start :: start in table ==> IndexList(O, n, start, table[start]))
    && (forall i :: 0 <= i < n ==> O[i] in table)
  }

  method IndexOriginals(O: seq<U32>) returns (table: map<U32, seq<nat>>)
    ensures ByStart(O, |O|, table)
  {
    table := map[];
    for i := 0 to |O|
      invariant ByStart(O, i, table)
    {
      var known := if O[i] in table then table[O[i]] else [];
      var extended := known + [i];
      var next := table[O[i] := extended];
      forall start | start in next ensures IndexList(O, i + 1, start, next[start]) {
        if start == O[i] {
          assert O[i] in table ==> IndexList(O, i, O[i], known);
          assert extended[|known|] == i;
          forall k: nat | k < i + 1 && O[k] == start ensures k in extended {
            if k < i { assert O[k] in table; assert k in known; }
          }
        } else {
          assert IndexList(O, i, start, table[start]);
        }
      }
      table := next;
    }
  }

  ghost predicate AnchorsTo(O: seq<U32>, G: seq<Group>, n: nat, anchors: seq<(nat, nat)>) {
    && (forall t :: 0 <= t < |anchors| ==> Exact(O, G, anchors[t].0, anchors[t].1) && anchors[t].1 < n)
    && (forall t, u :: 0 <= t < u < |anchors| ==> anchors[t].0 != anchors[u].0 && anchors[t].1 != anchors[u].1)
    && (forall i: nat, j: nat :: Exact(O, G, i, j) && j < n ==> (i, j) in anchors)
  }

  ghost predicate PinnedRow(O: seq<U32>, G: seq<Group>, n: nat, i: nat, row: Option<nat>) {
    && (row.Some? ==> exists j :: 0 <= j < n && Exact(O, G, i, j) && row.value == G[j].sourceIndex)
    && (row.None? ==> forall j :: 0 <= j < n ==> !Exact(O, G, i, j))
  }

  lemma ExactByTable(O: seq<U32>, G: seq<Group>, table: map<U32, seq<nat>>, j: nat)
    requires ByStart(O, |O|, table) && j < |G| && !G[j].conflicting
    ensures G[j].startMs in table <==> G[j].startMs in O
    ensures G[j].startMs in table && |table[G[j].startMs]| == 1 ==> Exact(O, G, table[G[j].startMs][0], j)
    ensures G[j].startMs !in table || |table[G[j].startMs]| != 1 ==> !Anchored(O, G, j)
  {
    var start := G[j].startMs;
    if start in table {
      var indexes := table[start];
      assert IndexList(O, |O|, start, indexes);
      assert O[indexes[0]] == start;
      if |indexes| == 1 {
        forall k | 0 <= k < |O| && O[k] == O[indexes[0]] ensures k == indexes[0] { assert k in indexes; }
      } else {
        assert indexes[0] < indexes[1] && O[indexes[0]] == O[indexes[1]];
      }
    }
  }

  lemma PinStep(O: seq<U32>, G: seq<Group>, j: nat, o: nat, anchors: seq<(nat, nat)>)
    requires TimeOrdered(G) && AnchorsTo(O, G, j, anchors) && Exact(O, G, o, j)
    ensures AnchorsTo(O, G, j + 1, anchors + [(o, j)])
  {
    var extended := anchors + [(o, j)];
    assert extended[|anchors|] == (o, j);
    forall i: nat, k: nat | Exact(O, G, i, k) && k < j + 1 ensures (i, k) in extended {
      if k < j { assert (i, k) in anchors; }
    }
    forall t | 0 <= t < |anchors| ensures anchors[t].0 != o && anchors[t].1 != j {
      assert Exact(O, G, anchors[t].0, anchors[t].1);
      assert G[anchors[t].1].startMs < G[j].startMs;
    }
  }

  lemma PinSkip(O: seq<U32>, G: seq<Group>, j: nat, anchors: seq<(nat, nat)>)
    requires AnchorsTo(O, G, j, anchors) && !Anchored(O, G, j)
    ensures AnchorsTo(O, G, j + 1, anchors)
  {
    forall i: nat, k: nat | Exact(O, G, i, k) && k < j + 1 ensures (i, k) in anchors {
      assert k != j;
    }
  }

  method PinExact(O: seq<U32>, groups: array<Group>, assignments: array<Option<nat>>, stats: Stats, ghost G: seq<Group>)
    returns (anchors: seq<(nat, nat)>, stats': Stats)
    requires TimeOrdered(G) && groups[..] == G && assignments.Length == |O|
    requires forall j :: 0 <= j < |G| ==> !G[j].matched && !G[j].ambiguous
    requires forall i :: 0 <= i < |O| ==> assignments[i] == None
    requires stats.exactMatches == 0
    modifies groups, assignments
    ensures forall j :: 0 <= j < |G| ==> groups[j] == AfterExact(O, G, j)
    ensures forall i :: 0 <= i < |O| ==> PinnedRow(O, G, |G|, i, assignments[i])
    ensures AnchorsTo(O, G, |G|, anchors)
    ensures stats' == stats.(exactMatches := Sat(|anchors|))
  {
    var table := IndexOriginals(O);
    anchors, stats' := [], stats;
    for j := 0 to groups.Length
      invariant forall k :: 0 <= k < |G| ==> groups[k] == if k < j then AfterExact(O, G, k) else G[k]
      invariant forall i :: 0 <= i < |O| ==> PinnedRow(O, G, j, i, assignments[i])
      invariant AnchorsTo(O, G, j, anchors)
      invariant stats' == stats.(exactMatches := Sat(|anchors|))
    {
      var group := groups[j];
      if group.conflicting {
        PinSkip(O, G, j, anchors);
        groups[j] := group.(ambiguous := true);
        continue;
      }
      ExactByTable(O, G, table, j);
      if group.startMs !in table {
        PinSkip(O, G, j, anchors);
        continue;
      }
      var originals := table[group.startMs];
      if |originals| == 1 {
        var o := originals[0];
        assignments[o] := Some(group.sourceIndex);
        groups[j] := group.(matched := true);
        stats' := stats'.(exactMatches := SatAdd(stats'.exactMatches, 1));
        PinStep(O, G, j, o, anchors);
        anchors := anchors + [(o, j)];
        assert Anchored(O, G, j);
        forall i | 0 <= i < |O| ensures PinnedRow(O, G, j + 1, i, assignments[i]) {
          if i == o { assert Exact(O, G, i, j); }
        }
      } else {
        PinSkip(O, G, j, anchors);
        groups[j] := group.(ambiguous := true);
      }
    }
  }

  // ----- Anchors in original order

  ghost predicate OriginalsIncrease(anchors: seq<(nat, nat)>) {
    forall t, u :: 0 <= t < u < |anchors| ==> anchors[t].0 < anchors[u].0
  }

  ghost predicate SortedAnchors(O: seq<U32>, G: seq<Group>, anchors: seq<(nat, nat)>) {
    && OriginalsIncrease(anchors)
    && (forall t :: 0 <= t < |anchors| ==> Exact(O, G, anchors[t].0, anchors[t].1))
    && (forall i: nat, j: nat :: Exact(O, G, i, j) ==> (i, j) in anchors)
  }

  lemma InsertedAnchor(sorted: seq<(nat, nat)>, at: nat, x: (nat, nat))
    requires OriginalsIncrease(sorted) && at <= |sorted|
    requires at < |sorted| ==> x.0 < sorted[at].0
    requires 0 < at ==> sorted[at - 1].0 < x.0
    ensures OriginalsIncrease(sorted[..at] + [x] + sorted[at..])
  {
    var inserted := sorted[..at] + [x] + sorted[at..];
    forall t, u | 0 <= t < u < |inserted| ensures inserted[t].0 < inserted[u].0 {
      if u == at && t < at - 1 { assert sorted[t].0 < sorted[at - 1].0; }
      if t == at && at < u - 1 { assert sorted[at].0 < sorted[u - 1].0; }
    }
  }

  method SortAnchors(anchors: seq<(nat, nat)>) returns (sorted: seq<(nat, nat)>)
    requires forall t, u :: 0 <= t < u < |anchors| ==> anchors[t].0 != anchors[u].0
    ensures OriginalsIncrease(sorted) && |sorted| == |anchors|
    ensures forall x :: x in sorted <==> x in anchors
  {
    sorted := [];
    for n := 0 to |anchors|
      invariant |sorted| == n && OriginalsIncrease(sorted)
      invariant forall x :: x in sorted <==> x in anchors[..n]
    {
      var at := n;
      while 0 < at && anchors[n].0 < sorted[at - 1].0
        invariant 0 <= at <= n
        invariant at < n ==> anchors[n].0 < sorted[at].0
      {
        at := at - 1;
      }
      assert 0 < at ==> sorted[at - 1] in anchors[..n];
      InsertedAnchor(sorted, at, anchors[n]);
      InsertedElements(sorted, at, anchors[n]);
      sorted := sorted[..at] + [anchors[n]] + sorted[at..];
      assert anchors[..n + 1] == anchors[..n] + [anchors[n]];
    }
    assert anchors[..|anchors|] == anchors;
  }

  lemma MonotoneIffIncreasing(O: seq<U32>, G: seq<Group>, anchors: seq<(nat, nat)>)
    requires SortedAnchors(O, G, anchors)
    ensures MonotoneAnchors(O, G) <==> GroupsIncrease(anchors)
  {
    if GroupsIncrease(anchors) {
      forall i, j, k, l | Exact(O, G, i, j) && Exact(O, G, k, l) && i < k ensures j < l {
        assert (i, j) in anchors && (k, l) in anchors;
        var t :| 0 <= t < |anchors| && anchors[t] == (i, j);
        var u :| 0 <= u < |anchors| && anchors[u] == (k, l);
        assert t != u && (t < u <==> anchors[t].0 < anchors[u].0);
      }
    }
  }

  /** First original and first group after the first t anchors. */
  function LowOf(anchors: seq<(nat, nat)>, t: nat): (nat, nat)
    requires t <= |anchors|
  {
    if t == 0 then (0, 0) else (anchors[t - 1].0 + 1, anchors[t - 1].1 + 1)
  }

  function HighOf(anchors: seq<(nat, nat)>, t: nat, originals: nat, groups: nat): (nat, nat)
    requires t <= |anchors|
  {
    if t < |anchors| then anchors[t] else (originals, groups)
  }

  function GapOf(anchors: seq<(nat, nat)>, t: nat, originals: nat, groups: nat): Gap
    requires t <= |anchors|
  {
    var low, high := LowOf(anchors, t), HighOf(anchors, t, originals, groups);
    Gap(low.0, high.0, low.1, high.1)
  }

  lemma GapBetweenAnchors(O: seq<U32>, G: seq<Group>, anchors: seq<(nat, nat)>, t: nat)
    requires SortedAnchors(O, G, anchors) && GroupsIncrease(anchors) && t <= |anchors|
    ensures IsGap(O, G, GapOf(anchors, t, |O|, |G|))
  {
    var p := GapOf(anchors, t, |O|, |G|);
    if 0 < t { assert Exact(O, G, anchors[t - 1].0, anchors[t - 1].1); }
    if t < |anchors| { assert Exact(O, G, anchors[t].0, anchors[t].1); }
    forall i, j | Exact(O, G, i, j) ensures !(p.lo <= i < p.hi) && !(p.groupLo <= j < p.groupHi) {
      assert (i, j) in anchors;
      var u :| 0 <= u < |anchors| && anchors[u] == (i, j);
      if u < t - 1 { assert anchors[u].0 < anchors[t - 1].0 && anchors[u].1 < anchors[t - 1].1; }
      if t < u { assert anchors[t].0 < anchors[u].0 && anchors[t].1 < anchors[u].1; }
    }
  }

  lemma {:induction false} NoExactBetween(O: seq<U32>, G: seq<Group>, from: nat, to: nat)
    requires from <= to && forall i :: from <= i < to ==> !AnchoredOriginal(O, G, i)
    ensures ExactCount(O, G, to) == ExactCount(O, G, from)
  {
    if from < to { NoExactBetween(O, G, from, to - 1); }
  }

  lemma NotAnchoredInside(O: seq<U32>, G: seq<Group>, anchors: seq<(nat, nat)>, t: nat, i: nat)
    requires SortedAnchors(O, G, anchors) && t <= |anchors|
    requires LowOf(anchors, t).0 <= i < HighOf(anchors, t, |O|, |G|).0
    ensures !AnchoredOriginal(O, G, i)
  {
    forall u | 0 <= u < |anchors| ensures anchors[u].0 != i {
      if u < t - 1 { assert anchors[u].0 < anchors[t - 1].0; }
      if t < u { assert anchors[t].0 < anchors[u].0; }
    }
    forall j: nat ensures (i, j) !in anchors {}
  }

  lemma {:induction false} ExactCountAtAnchor(O: seq<U32>, G: seq<Group>, anchors: seq<(nat, nat)>, t: nat)
    requires SortedAnchors(O, G, anchors) && t <= |anchors|
    ensures ExactCount(O, G, LowOf(anchors, t).0) == t
  {
    if t > 0 {
      ExactCountAtAnchor(O, G, anchors, t - 1);
      var from, to := LowOf(anchors, t - 1).0, anchors[t - 1].0;
      forall i | from <= i < to ensures !AnchoredOriginal(O, G, i) { NotAnchoredInside(O, G, anchors, t - 1, i); }
      if t > 1 { assert anchors[t - 2].0 < anchors[t - 1].0; }
      NoExactBetween(O, G, from, to);
      assert Exact(O, G, anchors[t - 1].0, anchors[t - 1].1);
      assert AnchoredOriginal(O, G, to);
    }
  }

  /** The number of exact anchors is the number of exactly anchored originals. */
  lemma AnchorsCountOriginals(O: seq<U32>, G: seq<Group>, anchors: seq<(nat, nat)>)
    requires SortedAnchors(O, G, anchors)
    ensures ExactCount(O, G, |O|) == |anchors|
  {
    var t := |anchors|;
    ExactCountAtAnchor(O, G, anchors, t);
    var from := LowOf(anchors, t).0;
    forall i | from <= i < |O| ensures !AnchoredOriginal(O, G, i) { NotAnchoredInside(O, G, anchors, t, i); }
    if t > 0 { assert Exact(O, G, anchors[t - 1].0, anchors[t - 1].1); }
    NoExactBetween(O, G, from, |O|);
  }

  // ----- Near segments between the anchors

  lemma AnchorIsSettled(O: seq<U32>, G: seq<Group>, tol: U32, i: nat, j: nat)
    requires TimeOrdered(G) && Exact(O, G, i, j)
    ensures AfterExact(O, G, j) == Settled(O, G, tol, j)
    ensures NearCount(O, G, tol, i + 1) == NearCount(O, G, tol, i)
  {
    assert Pair(O, G, tol, i, j);
    assert Anchored(O, G, j);
    MatchedIsNotAmbiguous(O, G, tol, i, j);
    forall l ensures !Near(O, G, tol, i, l) {
      if Near(O, G, tol, i, l) { NearAndExactOrdered(O, G, tol, i, l, i, j); }
    }
  }

  lemma PinnedAnchorIsAssigned(O: seq<U32>, G: seq<Group>, tol: U32, i: nat, j: nat, row: Option<nat>)
    requires Exact(O, G, i, j) && PinnedRow(O, G, |G|, i, row)
    ensures AssignedRow(O, G, tol, i, row)
  {
    assert row.Some?;
    var k :| 0 <= k < |G| && Exact(O, G, i, k) && row.value == G[k].sourceIndex;
    assert Pair(O, G, tol, i, k);
  }

  lemma UnanchoredIsUnassigned(O: seq<U32>, G: seq<Group>, anchors: seq<(nat, nat)>, t: nat, i: nat, row: Option<nat>)
    requires SortedAnchors(O, G, anchors) && t <= |anchors|
    requires LowOf(anchors, t).0 <= i < HighOf(anchors, t, |O|, |G|).0
    requires PinnedRow(O, G, |G|, i, row)
    ensures row == None
  {
    NotAnchoredInside(O, G, anchors, t, i);
  }

  ghost predicate SegmentsDone(O: seq<U32>, G: seq<Group>, tol: U32, low: (nat, nat),
                               groups: seq<Group>, assignments: seq<Option<nat>>)
  {
    && low.0 <= |O| == |assignments| && low.1 <= |G| == |groups|
    && (forall j :: 0 <= j < |G| ==>
                      groups[j] == if j < low.1 then Settled(O, G, tol, j) else AfterExact(O, G, j))
    && (forall i :: 0 <= i < |O| ==>
                      if i < low.0 then AssignedRow(O, G, tol, i, assignments[i])
                      else PinnedRow(O, G, |G|, i, assignments[i]))
  }

  lemma PassAnchor(O: seq<U32>, G: seq<Group>, anchors: seq<(nat, nat)>, t: nat, tol: U32,
                   groups: seq<Group>, assignments: seq<Option<nat>>)
    requires TimeOrdered(G) && SortedAnchors(O, G, anchors) && t < |anchors|
    requires SegmentsDone(O, G, tol, anchors[t], groups, assignments)
    ensures SegmentsDone(O, G, tol, LowOf(anchors, t + 1), groups, assignments)
    ensures NearCount(O, G, tol, anchors[t].0 + 1) == NearCount(O, G, tol, anchors[t].0)
  {
    var (i, j) := anchors[t];
    assert Exact(O, G, anchors[t].0, anchors[t].1);
    AnchorIsSettled(O, G, tol, i, j);
    PinnedAnchorIsAssigned(O, G, tol, i, j, assignments[i]);
  }

  method AlignNearSegments(O: seq<U32>, groups: array<Group>, assignments: array<Option<nat>>,
                           anchors: seq<(nat, nat)>, tol: U32, stats: Stats, ghost G: seq<Group>)
    returns (stats': Stats)
    requires TimeOrdered(G) && SortedAnchors(O, G, anchors) && GroupsIncrease(anchors)
    requires SegmentsDone(O, G, tol, (0, 0), groups[..], assignments[..])
    requires stats.nearMatches == 0
    modifies groups, assignments
    ensures SegmentsDone(O, G, tol, (|O|, |G|), groups[..], assignments[..])
    ensures stats' == stats.(nearMatches := Sat(NearCount(O, G, tol, |O|)))
  {
    MonotoneIffIncreasing(O, G, anchors);
    stats' := stats;
    for t := 0 to |anchors| + 1
      invariant SegmentsDone(O, G, tol, Boundary(anchors, t, |O|, |G|), groups[..], assignments[..])
      invariant stats' == stats.(nearMatches := Sat(NearCount(O, G, tol, Boundary(anchors, t, |O|, |G|).0)))
    {
      stats' := AlignBefore(O, groups, assignments, anchors, t, tol, stats', G);
    }
  }

  /** How far the segments before anchor t reach, that anchor's predecessor included. */
  ghost function Boundary(anchors: seq<(nat, nat)>, t: nat, originals: nat, groups: nat): (nat, nat)
    requires t <= |anchors| + 1
  {
    if t <= |anchors| then LowOf(anchors, t) else (originals, groups)
  }

  /** The near segment that ends at anchor t, or at the end of the track. */
  method AlignBefore(O: seq<U32>, groups: array<Group>, assignments: array<Option<nat>>,
                     anchors: seq<(nat, nat)>, t: nat, tol: U32, stats: Stats, ghost G: seq<Group>)
    returns (stats': Stats)
    requires TimeOrdered(G) && SortedAnchors(O, G, anchors) && GroupsIncrease(anchors) && t <= |anchors|
    requires MonotoneAnchors(O, G)
    requires SegmentsDone(O, G, tol, LowOf(anchors, t), groups[..], assignments[..])
    requires stats.nearMatches == Sat(NearCount(O, G, tol, LowOf(anchors, t).0))
    modifies groups, assignments
    ensures SegmentsDone(O, G, tol, Boundary(anchors, t + 1, |O|, |G|), groups[..], assignments[..])
    ensures stats' == stats.(nearMatches := Sat(NearCount(O, G, tol, Boundary(anchors, t + 1, |O|, |G|).0)))
  {
    hide PairIn, Matched, Ambiguous, Exact;
    ghost var groupsBefore, assignmentsBefore := groups[..], assignments[..];
    var p := GapOf(anchors, t, |O|, groups.Length);
    GapBetweenAnchors(O, G, anchors, t);
    forall i | p.lo <= i < p.hi ensures assignments[i] == None {
      UnanchoredIsUnassigned(O, G, anchors, t, i, assignmentsBefore[i]);
    }
    stats' := AlignNearSegment(O, groups, assignments, p, tol, stats, G);
    forall j | 0 <= j < |G|
      ensures groups[j] == if j < p.groupHi then Settled(O, G, tol, j) else AfterExact(O, G, j)
    {
      if !(p.groupLo <= j < p.groupHi) { assert groups[j] == groupsBefore[j]; }
    }
    forall i | 0 <= i < |O|
      ensures if i < p.hi then AssignedRow(O, G, tol, i, assignments[i]) else PinnedRow(O, G, |G|, i, assignments[i])
    {
      if p.lo <= i < p.hi {
        assert AssignedRow(O, G, tol, i, assignments[..][i]);
      } else {
        assert assignments[i] == assignmentsBefore[i];
      }
    }
    if t < |anchors| { PassAnchor(O, G, anchors, t, tol, groups[..], assignments[..]); }
  }

  // ----- No safe boundary

  lemma {:induction false} NoNearMatches(O: seq<U32>, G: seq<Group>, tol: U32, n: nat)
    requires !MonotoneAnchors(O, G)
    ensures NearCount(O, G, tol, n) == 0
  {
    if n > 0 { NoNearMatches(O, G, tol, n - 1); }
  }

  lemma CrossedAnchorsSettle(O: seq<U32>, G: seq<Group>, tol: U32, j: nat)
    requires !MonotoneAnchors(O, G) && j < |G|
    ensures var g := AfterExact(O, G, j);
            Settled(O, G, tol, j) == if !g.matched && !g.conflicting then g.(ambiguous := true) else g
  {
    if i :| Exact(O, G, i, j) { assert Pair(O, G, tol, i, j); }
    assert Matched(O, G, tol, j) <==> Anchored(O, G, j);
  }

  method RefuseNearMatches(O: seq<U32>, groups: array<Group>, ghost assignments: seq<Option<nat>>,
                           ghost tol: U32, ghost G: seq<Group>)
    requires !MonotoneAnchors(O, G) && SegmentsDone(O, G, tol, (0, 0), groups[..], assignments)
    modifies groups
    ensures SegmentsDone(O, G, tol, (|O|, |G|), groups[..], assignments)
  {
    for j := 0 to groups.Length
      invariant forall k :: 0 <= k < |G| ==> groups[k] == if k < j then Settled(O, G, tol, k) else AfterExact(O, G, k)
    {
      CrossedAnchorsSettle(O, G, tol, j);
      if !groups[j].matched && !groups[j].conflicting {
        groups[j] := groups[j].(ambiguous := true);
      }
    }
    forall i | 0 <= i < |O| ensures AssignedRow(O, G, tol, i, assignments[i]) {
      assert PinnedRow(O, G, |G|, i, assignments[i]);
      if assignments[i].Some? {
        var j :| 0 <= j < |G| && Exact(O, G, i, j) && assignments[i].value == G[j].sourceIndex;
        assert Pair(O, G, tol, i, j);
      }
    }
  }

  // ----- The whole

  method CountRemaining(O: seq<U32>, groups: array<Group>, ghost tol: U32, stats: Stats, ghost G: seq<Group>)
    returns (stats': Stats)
    requires groups.Length == |G| && forall j :: 0 <= j < |G| ==> groups[j] == Settled(O, G, tol, j)
    requires stats.ambiguousRows == 0 && stats.unmatchedRows == 0
    ensures stats' == stats.(ambiguousRows := Sat(RowsWithFate(O, G, tol, IsAmbiguous, |G|)),
                      unmatchedRows := Sat(RowsWithFate(O, G, tol, IsUnmatched, |G|)))
  {
    hide Matched, Ambiguous;
    stats' := stats;
    for j := 0 to groups.Length
      invariant stats' == stats.(ambiguousRows := Sat(RowsWithFate(O, G, tol, IsAmbiguous, j)),
                          unmatchedRows := Sat(RowsWithFate(O, G, tol, IsUnmatched, j)))
    {
      var group := groups[j];
      if group.ambiguous {
        stats' := stats'.(ambiguousRows := SatAdd(stats'.ambiguousRows, group.sourceRowCount));
      } else if !group.matched {
        stats' := stats'.(unmatchedRows := SatAdd(stats'.unmatchedRows, group.sourceRowCount));
      }
    }
  }

  lemma AnchorsAreSorted(O: seq<U32>, G: seq<Group>, anchors: seq<(nat, nat)>, sorted: seq<(nat, nat)>)
    requires AnchorsTo(O, G, |G|, anchors) && OriginalsIncrease(sorted)
    requires forall x :: x in sorted <==> x in anchors
    ensures SortedAnchors(O, G, sorted)
  {
    forall t | 0 <= t < |sorted| ensures Exact(O, G, sorted[t].0, sorted[t].1) {
      assert sorted[t] in anchors;
    }
  }

  ghost predicate GroupedStats(O: seq<U32>, G: seq<Group>, stats: Stats) {
    && stats.exactMatches == 0 && stats.nearMatches == 0
    && stats.ambiguousRows == 0 && stats.unmatchedRows == 0
    && stats.deduplicatedRows == Sat(Deduplicated(G, |G|))
    && BucketsTo(O, G, |G|, stats.nearestDeltaBuckets)
  }

  /** Exact pins, then near segments, or no near match at all when the pins cross. */
  method MatchGroups(O: seq<U32>, groups: array<Group>, assignments: array<Option<nat>>, tol: U32,
                     stats: Stats, ghost G: seq<Group>)
    returns (stats': Stats)
    requires TimeOrdered(G) && groups[..] == G && assignments.Length == |O|
    requires forall j :: 0 <= j < |G| ==> !G[j].matched && !G[j].ambiguous
    requires forall i :: 0 <= i < |O| ==> assignments[i] == None
    requires GroupedStats(O, G, stats)
    modifies groups, assignments
    ensures SegmentsDone(O, G, tol, (|O|, |G|), groups[..], assignments[..])
    ensures stats' == stats.(exactMatches := Sat(ExactCount(O, G, |O|)), nearMatches := Sat(NearCount(O, G, tol, |O|)))
  {
    var anchors;
    anchors, stats' := PinExact(O, groups, assignments, stats, G);
    var sorted := SortAnchors(anchors);
    AnchorsAreSorted(O, G, anchors, sorted);
    AnchorsCountOriginals(O, G, sorted);
    MonotoneIffIncreasing(O, G, sorted);
    var monotonic := CheckIncreasing(sorted);
    if monotonic {
      stats' := AlignNearSegments(O, groups, assignments, sorted, tol, stats', G);
    } else {
      RefuseNearMatches(O, groups, assignments[..], tol, G);
      NoNearMatches(O, G, tol, |O|);
    }
  }

  /** Aligns an auxiliary track to original line starts. */
  method AlignAuxiliaryLyricTrack(originalStarts: seq<U32>, auxiliary: seq<AuxiliaryLyricLine>, toleranceMs: U32)
    returns (alignment: seq<Option<nat>>, stats: Stats)
    ensures Aligned(originalStarts, auxiliary, toleranceMs, alignment, stats)
  {
    var assignments := new Option<nat>[|originalStarts|](i => None);
    stats := Stats(0, 0, 0, 0, 0, [0, 0, 0, 0, 0, 0]);
    var grouped;
    grouped, stats := GroupAuxiliaryRows(auxiliary, stats);
    stats := PopulateDeltaBuckets(originalStarts, grouped, stats);
    var groups := new Group[|grouped|](j requires 0 <= j < |grouped| => grouped[j]);
    forall j | 0 <= j < |grouped| ensures !grouped[j].matched && !grouped[j].ambiguous {
      assert GroupStandsFor(auxiliary, grouped[j]);
    }
    assert groups[..] == grouped;
    stats := MatchGroups(originalStarts, groups, assignments, toleranceMs, stats, grouped);
    stats := CountRemaining(originalStarts, groups, toleranceMs, stats, grouped);
    alignment := assignments[..];
    assert AlignedBy(originalStarts, auxiliary, toleranceMs, grouped, alignment, stats);
  }
}
