/**
  The state of the two nearest-neighbour scans, one comparison at a time, and
  why those scans end at the declarative pairs of the specification.
*/
module LyricAlignmentSteps {
  import opened Basics
  import opened LyricAlignmentSpec
  import opened LyricAlignmentTheorems

  // ----- The original's side: scanned groups are gLo..e

  ghost predicate OriginalScan(O: seq<U32>, G: seq<Group>, tol: U32, gLo: int, e: int, i: int,
                               best: Option<nat>, choice: Option<nat>, tied: bool) {
    && (best.None? ==> choice.None? && !tied && forall k :: gLo <= k < e ==> !Candidate(O, G, tol, i, k))
    && (best.Some? ==> forall k :: gLo <= k < e && Candidate(O, G, tol, i, k) ==> best.value <= Dist(O[i],
        G[k].startMs))
    && (choice.Some? ==> best.Some? && !tied && NearestGroup(O, G, tol, gLo, e, i, choice.value)
                         && best.value == Dist(O[i], G[choice.value].startMs))
    && (best.Some? && choice.None? ==> tied && GroupTie(O, G, tol, gLo, e, i, best.value))
  }

  ghost predicate GroupTie(O: seq<U32>, G: seq<Group>, tol: U32, gLo: int, e: int, i: int, delta: nat) {
    exists k, l :: gLo <= k < l < e && Candidate(O, G, tol, i, k) && Candidate(O, G, tol, i, l)
                   && Dist(O[i], G[k].startMs) == delta == Dist(O[i], G[l].startMs)
  }

  lemma OriginalScanSkips(O: seq<U32>, G: seq<Group>, tol: U32, gLo: int, e: int, f: int, i: int,
                          best: Option<nat>, choice: Option<nat>, tied: bool)
    requires OriginalScan(O, G, tol, gLo, e, i, best, choice, tied) && e <= f
    requires forall k :: e <= k < f ==> !Candidate(O, G, tol, i, k)
    ensures OriginalScan(O, G, tol, gLo, f, i, best, choice, tied)
  {
    if best.Some? && choice.None? {
      var k, l :| gLo <= k < l < e && Candidate(O, G, tol, i, k) && Candidate(O, G, tol, i, l)
                  && Dist(O[i], G[k].startMs) == best.value == Dist(O[i], G[l].startMs);
      assert gLo <= k < l < f;
    }
  }

  lemma OriginalScanTies(O: seq<U32>, G: seq<Group>, tol: U32, gLo: int, e: int, i: int,
                         best: Option<nat>, choice: Option<nat>, tied: bool)
    requires OriginalScan(O, G, tol, gLo, e, i, best, choice, tied) && gLo <= e
    requires Candidate(O, G, tol, i, e) && best == Some(Dist(O[i], G[e].startMs))
    ensures OriginalScan(O, G, tol, gLo, e + 1, i, best, None, true)
  {
    if choice.Some? {
      assert gLo <= choice.value < e < e + 1;
      assert GroupTie(O, G, tol, gLo, e + 1, i, best.value);
    } else {
      var k, l :| gLo <= k < l < e && Candidate(O, G, tol, i, k) && Candidate(O, G, tol, i, l)
                  && Dist(O[i], G[k].startMs) == best.value == Dist(O[i], G[l].startMs);
      assert gLo <= k < l < e + 1;
    }
  }

  lemma OriginalScanFarther(O: seq<U32>, G: seq<Group>, tol: U32, gLo: int, e: int, i: int,
                            best: Option<nat>, choice: Option<nat>, tied: bool)
    requires OriginalScan(O, G, tol, gLo, e, i, best, choice, tied) && gLo <= e
    requires Candidate(O, G, tol, i, e) && best.Some? && best.value < Dist(O[i], G[e].startMs)
    ensures OriginalScan(O, G, tol, gLo, e + 1, i, best, choice, tied)
  {
    if choice.None? {
      var k, l :| gLo <= k < l < e && Candidate(O, G, tol, i, k) && Candidate(O, G, tol, i, l)
                  && Dist(O[i], G[k].startMs) == best.value == Dist(O[i], G[l].startMs);
      assert gLo <= k < l < e + 1;
    }
  }

  lemma TiedHasNoNearest(O: seq<U32>, G: seq<Group>, tol: U32, gLo: int, gHi: int, i: int, delta: nat, j: int)
    requires GroupTie(O, G, tol, gLo, gHi, i, delta)
    requires forall k :: gLo <= k < gHi && Candidate(O, G, tol, i, k) ==> delta <= Dist(O[i], G[k].startMs)
    ensures !NearestGroup(O, G, tol, gLo, gHi, i, j)
  {
    var k, l :| gLo <= k < l < gHi && Candidate(O, G, tol, i, k) && Candidate(O, G, tol, i, l)
                && Dist(O[i], G[k].startMs) == delta == Dist(O[i], G[l].startMs);
  }

  /** After the last group, the remembered choice is the strictly nearest group, if there is one. */
  lemma OriginalScanEnds(O: seq<U32>, G: seq<Group>, tol: U32, gLo: int, gHi: int, i: int,
                         best: Option<nat>, choice: Option<nat>, tied: bool, j: int)
    requires OriginalScan(O, G, tol, gLo, gHi, i, best, choice, tied)
    ensures NearestGroup(O, G, tol, gLo, gHi, i, j) <==> choice.Some? && choice.value == j && !tied
  {
    if best.Some? && choice.None? { TiedHasNoNearest(O, G, tol, gLo, gHi, i, best.value, j); }
  }

  // ----- The group's side: scanned originals are lo..e

  /** Two equal distances, the second being least so far: the group's tie flag never clears afterwards. */
  ghost predicate OriginalTie(O: seq<U32>, G: seq<Group>, tol: U32, lo: int, e: int, j: int) {
    exists k, l :: OriginalTieAt(O, G, tol, lo, e, j, k, l)
  }

  ghost predicate OriginalTieAt(O: seq<U32>, G: seq<Group>, tol: U32, lo: int, e: int, j: int, k: int, l: int) {
    && lo <= k < l < e && Candidate(O, G, tol, k, j) && Candidate(O, G, tol, l, j)
    && Dist(O[k], G[j].startMs) == Dist(O[l], G[j].startMs)
    && forall m :: lo <= m < l && Candidate(O, G, tol, m, j) ==> Dist(O[l], G[j].startMs) <= Dist(O[m], G[j].startMs)
  }

  ghost predicate HasCandidate(O: seq<U32>, G: seq<Group>, tol: U32, lo: int, e: int, j: int) {
    exists k :: lo <= k < e && Candidate(O, G, tol, k, j)
  }

  ghost predicate GroupScan(O: seq<U32>, G: seq<Group>, tol: U32, lo: int, e: int, j: int,
                            choice: Option<(nat, nat)>, tied: bool, has: bool) {
    && (has <==> HasCandidate(O, G, tol, lo, e, j))
    && (choice.Some? ==>
          && !tied && NearestOriginal(O, G, tol, lo, e, choice.value.0, j)
          && choice.value.1 == Dist(O[choice.value.0], G[j].startMs)
          && NoEarlierRepeat(O, G, tol, lo, choice.value.0, j))
    && (tied ==> choice.None? && OriginalTie(O, G, tol, lo, e, j))
    && (choice.None? && !tied ==> !has)
  }

  lemma GroupScanSkips(O: seq<U32>, G: seq<Group>, tol: U32, lo: int, e: int, j: int,
                       choice: Option<(nat, nat)>, tied: bool, has: bool)
    requires GroupScan(O, G, tol, lo, e, j, choice, tied, has) && !Candidate(O, G, tol, e, j)
    ensures GroupScan(O, G, tol, lo, e + 1, j, choice, tied, has)
  {
    if tied {
      var k, l :| OriginalTieAt(O, G, tol, lo, e, j, k, l);
      assert OriginalTieAt(O, G, tol, lo, e + 1, j, k, l);
    }
    if has {
      var k :| lo <= k < e && Candidate(O, G, tol, k, j);
      assert lo <= k < e + 1;
    }
  }

  lemma GroupScanFirst(O: seq<U32>, G: seq<Group>, tol: U32, lo: int, e: nat, j: int)
    requires GroupScan(O, G, tol, lo, e, j, None, false, false) && lo <= e && Candidate(O, G, tol, e, j)
    ensures GroupScan(O, G, tol, lo, e + 1, j, Some((e, Dist(O[e], G[j].startMs))), false, true)
  {
    assert forall k :: lo <= k < e ==> !Candidate(O, G, tol, k, j);
    assert lo <= e < e + 1 && Candidate(O, G, tol, e, j);
  }

  lemma GroupScanNearer(O: seq<U32>, G: seq<Group>, tol: U32, lo: int, e: nat, j: int,
                        choice: Option<(nat, nat)>, has: bool)
    requires 0 <= lo <= e < |O| && Sorted(O, lo, e + 1)
    requires GroupScan(O, G, tol, lo, e, j, choice, false, has) && choice.Some?
    requires Candidate(O, G, tol, e, j) && Dist(O[e], G[j].startMs) < choice.value.1
    ensures GroupScan(O, G, tol, lo, e + 1, j, Some((e, Dist(O[e], G[j].startMs))), false, true)
  {
    var c := choice.value.0;
    assert NearestOriginal(O, G, tol, lo, e + 1, e, j);
    forall k, l | lo <= k < l < e && Candidate(O, G, tol, k, j) && Candidate(O, G, tol, l, j)
      ensures O[k] != O[l]
    {
      assert O[l] <= O[e];
      if c < l { assert O[c] <= O[l]; }
    }
    assert lo <= e < e + 1 && Candidate(O, G, tol, e, j);
  }

  lemma GroupScanTies(O: seq<U32>, G: seq<Group>, tol: U32, lo: int, e: nat, j: int,
                      choice: Option<(nat, nat)>, has: bool)
    requires GroupScan(O, G, tol, lo, e, j, choice, false, has) && choice.Some?
    requires Candidate(O, G, tol, e, j) && Dist(O[e], G[j].startMs) == choice.value.1
    ensures GroupScan(O, G, tol, lo, e + 1, j, None, true, true)
  {
    assert OriginalTieAt(O, G, tol, lo, e + 1, j, choice.value.0, e);
    assert lo <= e < e + 1 && Candidate(O, G, tol, e, j);
  }

  lemma GroupScanKeeps(O: seq<U32>, G: seq<Group>, tol: U32, lo: int, e: nat, j: int,
                       choice: Option<(nat, nat)>, tied: bool, has: bool)
    requires GroupScan(O, G, tol, lo, e, j, choice, tied, has) && lo <= e
    requires Candidate(O, G, tol, e, j)
    requires if choice.Some? then choice.value.1 < Dist(O[e], G[j].startMs) else tied
    ensures GroupScan(O, G, tol, lo, e + 1, j, choice, tied, true)
  {
    if tied {
      var k, l :| OriginalTieAt(O, G, tol, lo, e, j, k, l);
      assert OriginalTieAt(O, G, tol, lo, e + 1, j, k, l);
    }
    assert lo <= e < e + 1 && Candidate(O, G, tol, e, j);
  }

  /** A tie anywhere in an ordered gap leaves no acceptable original for the group. */
  lemma TieRefusesAll(O: seq<U32>, G: seq<Group>, tol: U32, lo: int, hi: int, j: int, i: int)
    requires 0 <= lo <= hi <= |O| && Sorted(O, lo, hi) && OriginalTie(O, G, tol, lo, hi, j)
    ensures !(NearestOriginal(O, G, tol, lo, hi, i, j) && NoEarlierRepeat(O, G, tol, lo, i, j))
  {
    var k, l :| OriginalTieAt(O, G, tol, lo, hi, j, k, l);
    if NearestOriginal(O, G, tol, lo, hi, i, j) && l < i {
      TieBeforeNearestIsRepeat(O, G, tol, lo, hi, i, j, k, l);
    }
  }

  /** After the last original, the remembered choice is the acceptable original, if there is one. */
  lemma GroupScanEnds(O: seq<U32>, G: seq<Group>, tol: U32, lo: int, hi: int, j: int,
                      choice: Option<(nat, nat)>, tied: bool, has: bool, i: int)
    requires 0 <= lo <= hi <= |O| && Sorted(O, lo, hi)
    requires GroupScan(O, G, tol, lo, hi, j, choice, tied, has)
    ensures NearestOriginal(O, G, tol, lo, hi, i, j) && NoEarlierRepeat(O, G, tol, lo, i, j) <==>
            choice.Some? && choice.value.0 == i && !tied
  {
    if tied { TieRefusesAll(O, G, tol, lo, hi, j, i); }
  }

  // ----- Inside one gap the global specification is the local one

  lemma PairsOfGap(O: seq<U32>, G: seq<Group>, tol: U32, p: Gap, i: int, j: int)
    requires TimeOrdered(G) && MonotoneAnchors(O, G) && IsGap(O, G, p)
    requires p.lo <= i < p.hi || p.groupLo <= j < p.groupHi
    ensures Pair(O, G, tol, i, j) <==> PairIn(O, G, tol, p, i, j)
    ensures Near(O, G, tol, i, j) <==> PairIn(O, G, tol, p, i, j)
  {
    if Near(O, G, tol, i, j) {
      var q := NearIsIn(O, G, tol, i, j);
      if p.lo <= i < p.hi { GapOfOriginal(O, G, p, q, i); } else { GapOfGroup(O, G, p, q, j); }
    }
  }

  lemma RefusalOfGap(O: seq<U32>, G: seq<Group>, tol: U32, p: Gap, j: int)
    requires TimeOrdered(G) && MonotoneAnchors(O, G) && IsGap(O, G, p) && p.groupLo <= j < p.groupHi
    ensures Refused(O, G, tol, j) <==> RefusedIn(O, G, tol, p, j)
  {
    if Refused(O, G, tol, j) {
      var q :| IsGap(O, G, q) && RefusedIn(O, G, tol, q, j);
      GapOfGroup(O, G, p, q, j);
    }
  }

  lemma MatchOfGap(O: seq<U32>, G: seq<Group>, tol: U32, p: Gap, j: int)
    requires TimeOrdered(G) && MonotoneAnchors(O, G) && IsGap(O, G, p) && p.groupLo <= j < p.groupHi
    ensures Matched(O, G, tol, j) <==> exists i :: PairIn(O, G, tol, p, i, j)
  {
    if Matched(O, G, tol, j) {
      var i :| Pair(O, G, tol, i, j);
      PairsOfGap(O, G, tol, p, i, j);
    }
    if i :| PairIn(O, G, tol, p, i, j) {
      PairsOfGap(O, G, tol, p, i, j);
      assert Pair(O, G, tol, i, j);
    }
  }

  lemma NearOriginalOfGap(O: seq<U32>, G: seq<Group>, tol: U32, p: Gap, i: int)
    requires TimeOrdered(G) && MonotoneAnchors(O, G) && IsGap(O, G, p) && p.lo <= i < p.hi
    ensures NearOriginal(O, G, tol, i) <==> exists j :: PairIn(O, G, tol, p, i, j)
  {
    if NearOriginal(O, G, tol, i) {
      var j :| Near(O, G, tol, i, j);
      PairsOfGap(O, G, tol, p, i, j);
    }
    if j :| PairIn(O, G, tol, p, i, j) {
      PairsOfGap(O, G, tol, p, i, j);
    }
  }
}
