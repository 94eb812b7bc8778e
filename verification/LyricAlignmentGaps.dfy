/**
  The gaps between exact anchors matched by nearest-neighbour scans that update
  groups and assignments in place.
*/
module LyricAlignmentGaps {
  import opened Basics
  import opened LyricAlignmentSpec
  import opened LyricAlignmentTheorems
  import opened LyricAlignmentSteps
  import opened LyricAlignmentGroups

  ghost function AfterExact(O: seq<U32>, G: seq<Group>, j: nat): Group
    requires j < |G|
  {
    G[j].(matched := Anchored(O, G, j), ambiguous := ExactlyAmbiguous(O, G, j))
  }

  ghost function Settled(O: seq<U32>, G: seq<Group>, tol: U32, j: nat): Group
    requires j < |G|
  {
    G[j].(matched := Matched(O, G, tol, j), ambiguous := Ambiguous(O, G, tol, j))
  }

  ghost predicate GroupScans(O: seq<U32>, G: seq<Group>, tol: U32, p: Gap, e: nat, mid: nat,
                             choices: seq<Option<(nat, nat)>>, tied: seq<bool>, has: seq<bool>) {
    && p.groupLo <= p.groupHi
    && |choices| == |tied| == |has| == p.groupHi - p.groupLo
    && forall k :: 0 <= k < |choices| ==>
                     GroupScan(O, G, tol, p.lo, if p.groupLo + k < mid then e + 1 else e, p.groupLo + k,
                               choices[k], tied[k], has[k])
  }

  lemma GroupScansSkip(O: seq<U32>, G: seq<Group>, tol: U32, p: Gap, e: nat, mid: nat, next: nat,
                       choices: seq<Option<(nat, nat)>>, tied: seq<bool>, has: seq<bool>)
    requires GroupScans(O, G, tol, p, e, mid, choices, tied, has) && mid <= next
    requires forall j :: mid <= j < next ==> !Candidate(O, G, tol, e, j)
    ensures GroupScans(O, G, tol, p, e, next, choices, tied, has)
  {
    forall k | 0 <= k < |choices|
      ensures GroupScan(O, G, tol, p.lo, if p.groupLo + k < next then e + 1 else e, p.groupLo + k,
                        choices[k], tied[k], has[k])
    {
      if mid <= p.groupLo + k < next {
        GroupScanSkips(O, G, tol, p.lo, e, p.groupLo + k, choices[k], tied[k], has[k]);
      }
    }
  }

  lemma GroupScansStep(O: seq<U32>, G: seq<Group>, tol: U32, p: Gap, e: nat, j: nat,
                       choices: seq<Option<(nat, nat)>>, tied: seq<bool>, has: seq<bool>,
                       c: Option<(nat, nat)>, t: bool)
    requires p.groupLo <= j < p.groupHi && GroupScans(O, G, tol, p, e, j, choices, tied, has)
    requires GroupScan(O, G, tol, p.lo, e + 1, j, c, t, true)
    ensures var local := j - p.groupLo;
            GroupScans(O, G, tol, p, e, j + 1, choices[local := c], tied[local := t], has[local := true])
  {
  }

  lemma GroupScansNext(O: seq<U32>, G: seq<Group>, tol: U32, p: Gap, e: nat,
                       choices: seq<Option<(nat, nat)>>, tied: seq<bool>, has: seq<bool>)
    requires GroupScans(O, G, tol, p, e, p.groupHi, choices, tied, has)
    ensures GroupScans(O, G, tol, p, e + 1, p.groupLo, choices, tied, has)
  {
  }

  ghost predicate UnsettledGap(O: seq<U32>, G: seq<Group>, p: Gap, groups: seq<Group>) {
    && p.groupHi <= |G| == |groups|
    && forall j :: p.groupLo <= j < p.groupHi ==> groups[j] == AfterExact(O, G, j)
  }

  lemma UnsettledIsOpen(O: seq<U32>, G: seq<Group>, j: nat)
    requires j < |G|
    ensures var group := AfterExact(O, G, j);
            Open(O, G, j) <==> !(group.matched || group.conflicting || group.ambiguous)
  {
  }

  /** One original compared with every candidate group of its gap. */
  method ScanOriginal(O: seq<U32>, groups: array<Group>, p: Gap, i: nat, tol: U32,
                      choices: seq<Option<(nat, nat)>>, tied: seq<bool>, has: seq<bool>, ghost G: seq<Group>)
    returns (choice: Option<nat>, choiceTied: bool,
             choices': seq<Option<(nat, nat)>>, tied': seq<bool>, has': seq<bool>)
    requires TimeOrdered(G) && p.lo <= i < p.hi <= |O| && Sorted(O, p.lo, p.hi)
    requires p.groupLo <= p.groupHi && UnsettledGap(O, G, p, groups[..])
    requires GroupScans(O, G, tol, p, i, p.groupLo, choices, tied, has)
    ensures choice.Some? ==> p.groupLo <= choice.value < p.groupHi
    ensures forall j :: NearestGroup(O, G, tol, p.groupLo, p.groupHi, i, j) <==>
                        choice.Some? && choice.value == j && !choiceTied
    ensures GroupScans(O, G, tol, p, i + 1, p.groupLo, choices', tied', has')
  {
    var low: int, high: int := SatSub(O[i], tol), SatAdd(O[i], tol);
    var starts := Starts(groups[p.groupLo..p.groupHi]);
    var first := PartitionPoint(starts, low);
    var last := PartitionPoint(starts, high + 1);
    var candidateStart, candidateEnd := p.groupLo + first, p.groupLo + last;
    OutsideWindow(O, G, tol, p, i, starts, candidateStart, candidateEnd);
    GroupScansSkip(O, G, tol, p, i, p.groupLo, candidateStart, choices, tied, has);

    ghost var best;
    choice, choiceTied, choices', tied', has', best :=
      ScanWindow(O, groups, p, i, tol, candidateStart, candidateEnd, choices, tied, has, G);
    OriginalScanSkips(O, G, tol, p.groupLo, candidateEnd, p.groupHi, i, best, choice, choiceTied);
    GroupScansSkip(O, G, tol, p, i, candidateEnd, p.groupHi, choices', tied', has');
    GroupScansNext(O, G, tol, p, i, choices', tied', has');
    forall j ensures NearestGroup(O, G, tol, p.groupLo, p.groupHi, i, j) <==>
                     choice.Some? && choice.value == j && !choiceTied
    {
      OriginalScanEnds(O, G, tol, p.groupLo, p.groupHi, i, best, choice, choiceTied, j);
    }
  }

  method ScanWindow(O: seq<U32>, groups: array<Group>, p: Gap, i: nat, tol: U32, from: nat, to: nat,
                    choices: seq<Option<(nat, nat)>>, tied: seq<bool>, has: seq<bool>, ghost G: seq<Group>)
    returns (choice: Option<nat>, choiceTied: bool,
             choices': seq<Option<(nat, nat)>>, tied': seq<bool>, has': seq<bool>, ghost lastBest: Option<nat>)
    requires p.lo <= i < p.hi <= |O| && Sorted(O, p.lo, p.hi)
    requires p.groupLo <= from <= to <= p.groupHi && UnsettledGap(O, G, p, groups[..])
    requires forall j :: p.groupLo <= j < from ==> !Candidate(O, G, tol, i, j)
    requires forall j :: from <= j < to ==> SatSub(O[i], tol) <= G[j].startMs <= SatAdd(O[i], tol)
    requires GroupScans(O, G, tol, p, i, from, choices, tied, has)
    ensures choice.Some? ==> p.groupLo <= choice.value < p.groupHi
    ensures OriginalScan(O, G, tol, p.groupLo, to, i, lastBest, choice, choiceTied)
    ensures GroupScans(O, G, tol, p, i, to, choices', tied', has')
  {
    hide GroupScan, NearestGroup, GroupTie;
    choice, choiceTied := None, false;
    choices', tied', has' := choices, tied, has;
    var best: Option<nat> := None;
    for j := from to to
      invariant choice.Some? ==> p.groupLo <= choice.value < p.groupHi
      invariant OriginalScan(O, G, tol, p.groupLo, j, i, best, choice, choiceTied)
      invariant GroupScans(O, G, tol, p, i, j, choices', tied', has')
    {
      var group := groups[j];
      assert group == groups[..][j];
      UnsettledIsOpen(O, G, j);
      if group.matched || group.conflicting || group.ambiguous {
        OriginalScanSkips(O, G, tol, p.groupLo, j, j + 1, i, best, choice, choiceTied);
        GroupScansSkip(O, G, tol, p, i, j, j + 1, choices', tied', has');
        continue;
      }
      var delta := Dist(O[i], group.startMs);
      InsideWindow(O, G, tol, i, j);
      best, choice, choiceTied := CompareForOriginal(O, G, tol, p.groupLo, j, i, best, choice, choiceTied, delta);
      var local := j - p.groupLo;
      var c, t := CompareForGroup(O, G, tol, p, i, j, choices'[local], tied'[local], has'[local], delta);
      GroupScansStep(O, G, tol, p, i, j, choices', tied', has', c, t);
      choices', tied', has' := choices'[local := c], tied'[local := t], has'[local := true];
    }
    lastBest := best;
  }

  lemma OutsideWindow(O: seq<U32>, G: seq<Group>, tol: U32, p: Gap, i: nat, starts: seq<U32>, from: nat, to: nat)
    requires p.groupLo <= p.groupHi <= |G| && i < |O| && |starts| == p.groupHi - p.groupLo
    requires forall k :: 0 <= k < |starts| ==> starts[k] == G[p.groupLo + k].startMs
    requires p.groupLo <= from <= p.groupHi && p.groupLo <= to <= p.groupHi
    requires forall k :: 0 <= k < from - p.groupLo ==> starts[k] < SatSub(O[i], tol)
    requires forall k :: from - p.groupLo <= k < |starts| ==> SatSub(O[i], tol) <= starts[k]
    requires forall k :: 0 <= k < to - p.groupLo ==> starts[k] < SatAdd(O[i], tol) + 1
    requires forall k :: to - p.groupLo <= k < |starts| ==> SatAdd(O[i], tol) + 1 <= starts[k]
    ensures from <= to
    ensures forall j :: p.groupLo <= j < from || to <= j < p.groupHi ==> !Candidate(O, G, tol, i, j)
    ensures forall j :: from <= j < to ==> SatSub(O[i], tol) <= G[j].startMs <= SatAdd(O[i], tol)
  {
    forall j | from <= j < to ensures SatSub(O[i], tol) <= G[j].startMs <= SatAdd(O[i], tol) {
      assert starts[j - p.groupLo] == G[j].startMs;
    }
    assert to < p.groupHi ==> SatAdd(O[i], tol) < starts[to - p.groupLo];
    forall j | p.groupLo <= j < from || to <= j < p.groupHi ensures !Candidate(O, G, tol, i, j) {
      assert starts[j - p.groupLo] == G[j].startMs;
    }
  }

  lemma InsideWindow(O: seq<U32>, G: seq<Group>, tol: U32, i: nat, j: nat)
    requires i < |O| && Open(O, G, j)
    requires SatSub(O[i], tol) <= G[j].startMs <= SatAdd(O[i], tol)
    ensures Candidate(O, G, tol, i, j)
  {
  }

  method CompareForOriginal(ghost O: seq<U32>, ghost G: seq<Group>, ghost tol: U32, ghost gLo: nat, j: nat,
      ghost i: nat,
                            best: Option<nat>, choice: Option<nat>, tied: bool, delta: nat)
    returns (best': Option<nat>, choice': Option<nat>, tied': bool)
    requires OriginalScan(O, G, tol, gLo, j, i, best, choice, tied) && gLo <= j
    requires Candidate(O, G, tol, i, j) && delta == Dist(O[i], G[j].startMs)
    ensures OriginalScan(O, G, tol, gLo, j + 1, i, best', choice', tied')
    ensures choice' == choice || choice' == None || choice' == Some(j)
  {
    best', choice', tied' := best, choice, tied;
    if best.None? {
      best', choice' := Some(delta), Some(j);
    } else if delta < best.value {
      best', choice', tied' := Some(delta), Some(j), false;
    } else if delta == best.value {
      OriginalScanTies(O, G, tol, gLo, j, i, best, choice, tied);
      choice', tied' := None, true;
    } else {
      OriginalScanFarther(O, G, tol, gLo, j, i, best, choice, tied);
    }
  }

  method CompareForGroup(ghost O: seq<U32>, ghost G: seq<Group>, ghost tol: U32, ghost p: Gap, i: nat, ghost j: nat,
                         choice: Option<(nat, nat)>, tied: bool, ghost has: bool, delta: nat)
    returns (choice': Option<(nat, nat)>, tied': bool)
    requires p.lo <= i < p.hi <= |O| && Sorted(O, p.lo, p.hi)
    requires GroupScan(O, G, tol, p.lo, i, j, choice, tied, has)
    requires Candidate(O, G, tol, i, j) && delta == Dist(O[i], G[j].startMs)
    ensures GroupScan(O, G, tol, p.lo, i + 1, j, choice', tied', true)
  {
    choice', tied' := choice, tied;
    if choice.None? && !tied {
      GroupScanFirst(O, G, tol, p.lo, i, j);
      choice' := Some((i, delta));
    } else if choice.Some? && delta < choice.value.1 {
      GroupScanNearer(O, G, tol, p.lo, i, j, choice, has);
      choice', tied' := Some((i, delta)), false;
    } else if choice.Some? && delta == choice.value.1 {
      GroupScanTies(O, G, tol, p.lo, i, j, choice, has);
      choice', tied' := None, true;
    } else {
      GroupScanKeeps(O, G, tol, p.lo, i, j, choice, tied, has);
    }
  }

  // ----- Accepting and finalizing

  ghost predicate OriginalChoices(O: seq<U32>, G: seq<Group>, tol: U32, p: Gap,
                                  choices: seq<Option<nat>>, tied: seq<bool>) {
    && |choices| == |tied|
    && forall k :: 0 <= k < |choices| ==> ChoosesNearest(O, G, tol, p, p.lo + k, choices[k], tied[k])
  }

  ghost predicate ChoosesNearest(O: seq<U32>, G: seq<Group>, tol: U32, p: Gap, i: nat, choice: Option<nat>,
      tied: bool) {
    && (choice.Some? ==> p.groupLo <= choice.value < p.groupHi)
    && forall j :: NearestGroup(O, G, tol, p.groupLo, p.groupHi, i, j) <==> choice.Some? && choice.value == j && !tied
  }

  ghost predicate AcceptedTo(O: seq<U32>, G: seq<Group>, tol: U32, p: Gap, e: nat, accepted: seq<(nat, nat)>)
    requires p.lo <= p.hi <= |O|
  {
    && (forall t :: 0 <= t < |accepted| ==>
                      p.lo <= accepted[t].0 < e && PairIn(O, G, tol, p, accepted[t].0, accepted[t].1))
    && (forall t, u :: 0 <= t < u < |accepted| ==> accepted[t].0 < accepted[u].0)
    && (forall i: nat, j: nat :: p.lo <= i < e && PairIn(O, G, tol, p, i, j) ==> (i, j) in accepted)
    && |accepted| + NearCount(O, G, tol, p.lo) == NearCount(O, G, tol, e)
  }

  lemma AcceptNone(O: seq<U32>, G: seq<Group>, tol: U32, p: Gap, i: nat, accepted: seq<(nat, nat)>)
    requires TimeOrdered(G) && MonotoneAnchors(O, G) && IsGap(O, G, p) && p.lo <= i < p.hi
    requires AcceptedTo(O, G, tol, p, i, accepted)
    requires forall j :: !PairIn(O, G, tol, p, i, j)
    ensures AcceptedTo(O, G, tol, p, i + 1, accepted)
  {
    NearOriginalOfGap(O, G, tol, p, i);
  }

  lemma AcceptPair(O: seq<U32>, G: seq<Group>, tol: U32, p: Gap, i: nat, j: nat, accepted: seq<(nat, nat)>)
    requires TimeOrdered(G) && MonotoneAnchors(O, G) && IsGap(O, G, p) && p.lo <= i < p.hi
    requires AcceptedTo(O, G, tol, p, i, accepted)
    requires PairIn(O, G, tol, p, i, j)
    ensures AcceptedTo(O, G, tol, p, i + 1, accepted + [(i, j)])
  {
    NearOriginalOfGap(O, G, tol, p, i);
    var extended := accepted + [(i, j)];
    forall k: nat, l: nat | p.lo <= k < i + 1 && PairIn(O, G, tol, p, k, l) ensures (k, l) in extended {
      if k == i {
        PairInFixesGroup(O, G, tol, p, i, j, l);
        assert extended[|accepted|] == (k, l);
      }
    }
  }

  lemma NearestIsTheChoice(O: seq<U32>, G: seq<Group>, tol: U32, p: Gap, i: nat,
                           choices: seq<Option<nat>>, tied: seq<bool>)
    requires p.lo <= i < p.lo + |choices| && OriginalChoices(O, G, tol, p, choices, tied)
    ensures var local := i - p.lo;
            ChoosesNearest(O, G, tol, p, i, choices[local], tied[local])
  {
    var local := i - p.lo;
    assert p.lo + local == i;
  }

  lemma AcceptanceTest(O: seq<U32>, G: seq<Group>, tol: U32, p: Gap, i: nat, j: nat,
                       choice: Option<(nat, nat)>, tied: bool, has: bool)
    requires p.lo <= i < p.hi <= |O| && Sorted(O, p.lo, p.hi)
    requires NearestGroup(O, G, tol, p.groupLo, p.groupHi, i, j)
    requires GroupScan(O, G, tol, p.lo, p.hi, j, choice, tied, has)
    ensures PairIn(O, G, tol, p, i, j) <==> choice.Some? && choice.value.0 == i && !tied
  {
    GroupScanEnds(O, G, tol, p.lo, p.hi, j, choice, tied, has, i);
  }

  /** Keeps the originals whose nearest group chose them back. */
  method AcceptMutual(O: seq<U32>, p: Gap, ghost tol: U32, originalChoice: seq<Option<nat>>, originalTied: seq<bool>,
                      choices: seq<Option<(nat, nat)>>, tied: seq<bool>, ghost has: seq<bool>, ghost G: seq<Group>)
    returns (accepted: seq<(nat, nat)>)
    requires TimeOrdered(G) && MonotoneAnchors(O, G) && IsGap(O, G, p) && Sorted(O, p.lo, p.hi)
    requires |originalChoice| == p.hi - p.lo && OriginalChoices(O, G, tol, p, originalChoice, originalTied)
    requires GroupScans(O, G, tol, p, p.hi, p.groupLo, choices, tied, has)
    ensures AcceptedTo(O, G, tol, p, p.hi, accepted)
  {
    accepted := [];
    for i := p.lo to p.hi
      invariant AcceptedTo(O, G, tol, p, i, accepted)
    {
      var local := i - p.lo;
      NearestIsTheChoice(O, G, tol, p, i, originalChoice, originalTied);
      if originalChoice[local].None? || originalTied[local] {
        AcceptNone(O, G, tol, p, i, accepted);
        continue;
      }
      var j := originalChoice[local].value;
      var back := j - p.groupLo;
      AcceptanceTest(O, G, tol, p, i, j, choices[back], tied[back], has[back]);
      if tied[back] || choices[back].None? || choices[back].value.0 != i {
        AcceptNone(O, G, tol, p, i, accepted);
        continue;
      }
      AcceptPair(O, G, tol, p, i, j, accepted);
      accepted := accepted + [(i, j)];
    }
  }

  ghost predicate GroupsIncrease(accepted: seq<(nat, nat)>) {
    forall t, u :: 0 <= t < u < |accepted| ==> accepted[t].1 < accepted[u].1
  }

  ghost predicate Takes(accepted: seq<(nat, nat)>, n: nat, j: nat)
    requires n <= |accepted|
  {
    exists t :: 0 <= t < n && accepted[t].1 == j
  }

  method CheckIncreasing(accepted: seq<(nat, nat)>) returns (increasing: bool)
    ensures increasing <==> GroupsIncrease(accepted)
  {
    increasing := true;
    var t := 1;
    while t < |accepted|
      invariant 1 <= t && (accepted != [] ==> t <= |accepted|)
      invariant accepted != [] ==> (increasing <==> GroupsIncrease(accepted[..t]))
      invariant accepted == [] ==> increasing
    {
      assert accepted[..t + 1] == accepted[..t] + [accepted[t]];
      IncreasingSnoc(accepted[..t], accepted[t]);
      increasing := increasing && accepted[t - 1].1 < accepted[t].1;
      t := t + 1;
    }
    assert accepted != [] ==> accepted[..|accepted|] == accepted;
  }

  lemma IncreasingSnoc(accepted: seq<(nat, nat)>, next: (nat, nat))
    requires accepted != []
    ensures GroupsIncrease(accepted + [next]) <==> GroupsIncrease(accepted) && accepted[|accepted| - 1].1 < next.1
  {
    var extended := accepted + [next];
    if GroupsIncrease(extended) {
      forall t, u | 0 <= t < u < |accepted| ensures accepted[t].1 < accepted[u].1 {
        assert extended[t].1 < extended[u].1;
      }
      assert extended[|accepted| - 1].1 < extended[|accepted|].1;
    }
    if GroupsIncrease(accepted) && accepted[|accepted| - 1].1 < next.1 {
      forall t, u | 0 <= t < u < |extended| ensures extended[t].1 < extended[u].1 {
        if u == |accepted| && t < |accepted| - 1 { assert accepted[t].1 < accepted[|accepted| - 1].1; }
      }
    }
  }

  /**
    Applies an accepted batch if its group indexes increase; open groups that
    had a candidate and stayed unmatched become ambiguous either way.
  */
  method FinalizeNearCandidates(groups: array<Group>, assignments: array<Option<nat>>, groupStart: nat,
                                has: seq<bool>, accepted: seq<(nat, nat)>, stats: Stats)
    returns (stats': Stats)
    requires groupStart + |has| <= groups.Length
    requires forall t :: 0 <= t < |accepted| ==>
                           accepted[t].0 < assignments.Length && groupStart <= accepted[t].1 < groupStart + |has|
    requires forall t, u :: 0 <= t < u < |accepted| ==> accepted[t].0 < accepted[u].0
    modifies groups, assignments
    ensures stats' == if GroupsIncrease(accepted) then stats.(nearMatches := Sat(stats.nearMatches + |accepted|))
                      else stats
    ensures forall j :: 0 <= j < groups.Length ==>
                          if groupStart <= j < groupStart + |has| then
                            var matched := old(groups[j].matched) || (GroupsIncrease(accepted) && Takes(accepted,
                                |accepted|, j));
                            groups[j] == old(groups[j]).(matched := matched,
                            ambiguous := old(groups[j].ambiguous) || (!matched && has[j - groupStart]))
                          else groups[j] == old(groups[j])
    ensures forall t :: 0 <= t < |accepted| && GroupsIncrease(accepted) ==>
                          assignments[accepted[t].0] == Some(old(groups[accepted[t].1].sourceIndex))
    ensures forall i :: 0 <= i < assignments.Length &&
                        (!GroupsIncrease(accepted) || forall t :: 0 <= t < |accepted| ==> accepted[t].0 != i) ==>
                          assignments[i] == old(assignments[i])
  {
    stats' := stats;
    var increasing := CheckIncreasing(accepted);
    if increasing {
      for n := 0 to |accepted|
        invariant stats' == stats.(nearMatches := Sat(stats.nearMatches + n))
        invariant forall j :: 0 <= j < groups.Length ==>
                                groups[j] == old(groups[j]).(matched := old(groups[j].matched) || Takes(accepted, n, j))
        invariant forall t :: 0 <= t < n ==>
                                assignments[accepted[t].0] == Some(old(groups[accepted[t].1].sourceIndex))
        invariant forall i :: 0 <= i < assignments.Length && (forall t :: 0 <= t < n ==> accepted[t].0 != i) ==>
                                assignments[i] == old(assignments[i])
      {
        var (i, j) := accepted[n];
        assignments[i] := Some(groups[j].sourceIndex);
        groups[j] := groups[j].(matched := true);
        stats' := stats'.(nearMatches := SatAdd(stats'.nearMatches, 1));
        forall k | 0 <= k < groups.Length ensures Takes(accepted, n + 1, k) <==> Takes(accepted, n, k) || k == j {
          if Takes(accepted, n, k) { var t :| 0 <= t < n && accepted[t].1 == k; assert accepted[t].1 == k; }
          if k == j { assert accepted[n].1 == k; }
        }
      }
    }
    ghost var applied, attached := groups[..], assignments[..];
    for local := 0 to |has|
      invariant assignments[..] == attached
      invariant forall j :: 0 <= j < groups.Length && !(groupStart <= j < groupStart + local) ==>
          groups[j] == applied[j]
      invariant forall j :: groupStart <= j < groupStart + local ==>
                              groups[j] == applied[j].(
                                ambiguous := applied[j].ambiguous || (!applied[j].matched && has[j - groupStart]))
    {
      var j := groupStart + local;
      if !groups[j].matched && has[local] {
        groups[j] := groups[j].(ambiguous := true);
      }
    }
  }

  // ----- One segment

  ghost predicate SettledRange(O: seq<U32>, G: seq<Group>, tol: U32, from: nat, to: nat, groups: seq<Group>) {
    && to <= |G| == |groups|
    && forall j :: from <= j < to ==> groups[j] == Settled(O, G, tol, j)
  }

  ghost predicate AssignedRange(O: seq<U32>, G: seq<Group>, tol: U32, from: nat, to: nat,
      assignments: seq<Option<nat>>) {
    && to <= |O| == |assignments|
    && forall i :: from <= i < to ==> AssignedRow(O, G, tol, i, assignments[i])
  }

  lemma {:induction false} NoNearBetween(O: seq<U32>, G: seq<Group>, tol: U32, from: nat, to: nat)
    requires from <= to && forall i :: from <= i < to ==> !NearOriginal(O, G, tol, i)
    ensures NearCount(O, G, tol, to) == NearCount(O, G, tol, from)
  {
    if from < to { NoNearBetween(O, G, tol, from, to - 1); }
  }

  ghost predicate NoPairIn(O: seq<U32>, G: seq<Group>, tol: U32, p: Gap)
    requires p.lo <= p.hi <= |O|
  {
    forall i, j :: !PairIn(O, G, tol, p, i, j)
  }

  /** In a gap without pairs every original stays unassigned and no group is matched. */
  lemma NothingInGap(O: seq<U32>, G: seq<Group>, tol: U32, p: Gap)
    requires TimeOrdered(G) && MonotoneAnchors(O, G) && IsGap(O, G, p) && NoPairIn(O, G, tol, p)
    ensures NearCount(O, G, tol, p.hi) == NearCount(O, G, tol, p.lo)
    ensures forall i :: p.lo <= i < p.hi ==> AssignedRow(O, G, tol, i, None)
    ensures forall j :: p.groupLo <= j < p.groupHi ==> !Matched(O, G, tol, j) && !Anchored(O, G, j)
  {
    forall i | p.lo <= i < p.hi ensures !NearOriginal(O, G, tol, i) && AssignedRow(O, G, tol, i, None) {
      NearOriginalOfGap(O, G, tol, p, i);
      forall j ensures !Pair(O, G, tol, i, j) { PairsOfGap(O, G, tol, p, i, j); }
    }
    NoNearBetween(O, G, tol, p.lo, p.hi);
    forall j | p.groupLo <= j < p.groupHi ensures !Matched(O, G, tol, j) { MatchOfGap(O, G, tol, p, j); }
  }

  lemma EmptyGapSettles(O: seq<U32>, G: seq<Group>, tol: U32, p: Gap, groups: seq<Group>)
    requires TimeOrdered(G) && MonotoneAnchors(O, G) && IsGap(O, G, p) && UnsettledGap(O, G, p, groups)
    requires p.lo == p.hi || p.groupLo == p.groupHi
    ensures SettledRange(O, G, tol, p.groupLo, p.groupHi, groups)
  {
    NothingInGap(O, G, tol, p);
    forall j | p.groupLo <= j < p.groupHi ensures groups[j] == Settled(O, G, tol, j) {
      RefusalOfGap(O, G, tol, p, j);
    }
  }

  lemma UnsortedGapSettles(O: seq<U32>, G: seq<Group>, tol: U32, p: Gap, j: nat)
    requires TimeOrdered(G) && MonotoneAnchors(O, G) && IsGap(O, G, p) && p.groupLo <= j < p.groupHi
    requires !Sorted(O, p.lo, p.hi)
    ensures var g := AfterExact(O, G, j);
            Settled(O, G, tol, j) == if !g.matched && !g.conflicting then g.(ambiguous := true) else g
  {
    NothingInGap(O, G, tol, p);
    RefusalOfGap(O, G, tol, p, j);
    UnsettledIsOpen(O, G, j);
  }

  lemma SortedGapSettles(O: seq<U32>, G: seq<Group>, tol: U32, p: Gap, j: nat, accepted: seq<(nat, nat)>, has: bool)
    requires TimeOrdered(G) && MonotoneAnchors(O, G) && IsGap(O, G, p) && p.groupLo <= j < p.groupHi && p.lo < p.hi
    requires Sorted(O, p.lo, p.hi) && AcceptedTo(O, G, tol, p, p.hi, accepted)
    requires has <==> HasCandidate(O, G, tol, p.lo, p.hi, j)
    ensures var g := AfterExact(O, G, j);
            var matched := g.matched || Takes(accepted, |accepted|, j);
            Settled(O, G, tol, j) == g.(matched := matched, ambiguous := g.ambiguous || (!matched && has))
  {
    MatchOfGap(O, G, tol, p, j);
    RefusalOfGap(O, G, tol, p, j);
    if Takes(accepted, |accepted|, j) {
      var t :| 0 <= t < |accepted| && accepted[t].1 == j;
      assert PairIn(O, G, tol, p, accepted[t].0, j);
    }
    if i :| PairIn(O, G, tol, p, i, j) {
      assert (i, j) in accepted;
      var t :| 0 <= t < |accepted| && accepted[t] == (i, j);
      assert Takes(accepted, |accepted|, j);
    }
    if has { var k :| p.lo <= k < p.hi && Candidate(O, G, tol, k, j); }
  }

  lemma AcceptedIncrease(O: seq<U32>, G: seq<Group>, tol: U32, p: Gap, accepted: seq<(nat, nat)>)
    requires TimeOrdered(G) && p.lo <= p.hi <= |O| && AcceptedTo(O, G, tol, p, p.hi, accepted)
    ensures GroupsIncrease(accepted)
  {
    forall t, u | 0 <= t < u < |accepted| ensures accepted[t].1 < accepted[u].1 {
      NonCrossing(O, G, tol, p, accepted[t].0, accepted[t].1, accepted[u].0, accepted[u].1);
    }
  }

  lemma AcceptedAssigns(O: seq<U32>, G: seq<Group>, tol: U32, p: Gap, accepted: seq<(nat, nat)>,
                        i: nat, row: Option<nat>)
    requires TimeOrdered(G) && MonotoneAnchors(O, G) && IsGap(O, G, p) && p.lo <= i < p.hi
    requires AcceptedTo(O, G, tol, p, p.hi, accepted)
    requires forall t :: 0 <= t < |accepted| && accepted[t].0 == i ==> row == Some(G[accepted[t].1].sourceIndex)
    requires (forall t :: 0 <= t < |accepted| ==> accepted[t].0 != i) ==> row == None
    ensures AssignedRow(O, G, tol, i, row)
  {
    if t :| 0 <= t < |accepted| && accepted[t].0 == i {
      PairsOfGap(O, G, tol, p, i, accepted[t].1);
      assert Pair(O, G, tol, i, accepted[t].1);
    } else {
      forall j ensures !Pair(O, G, tol, i, j) {
        PairsOfGap(O, G, tol, p, i, j);
      }
    }
  }

  method CheckSorted(O: seq<U32>, lo: nat, hi: nat) returns (sorted: bool)
    requires lo < hi <= |O|
    ensures sorted <==> Sorted(O, lo, hi)
  {
    sorted := true;
    for k := lo + 1 to hi
      invariant sorted <==> Sorted(O, lo, k)
    {
      sorted := sorted && O[k - 1] <= O[k];
    }
  }

  /** The scan of all originals of an ordered gap, and the mutual pairs it accepts. */
  method ScanGap(O: seq<U32>, groups: array<Group>, p: Gap, tol: U32, ghost G: seq<Group>)
    returns (accepted: seq<(nat, nat)>, has: seq<bool>)
    requires TimeOrdered(G) && MonotoneAnchors(O, G) && IsGap(O, G, p) && Sorted(O, p.lo, p.hi)
    requires UnsettledGap(O, G, p, groups[..])
    ensures AcceptedTo(O, G, tol, p, p.hi, accepted)
    ensures |has| == p.groupHi - p.groupLo
    ensures forall k :: 0 <= k < |has| ==> (has[k] <==> HasCandidate(O, G, tol, p.lo, p.hi, p.groupLo + k))
  {
    var n := p.groupHi - p.groupLo;
    var originalChoice, originalTied := [], [];
    var choices: seq<Option<(nat, nat)>> := seq(n, k => None);
    var tied := seq(n, k => false);
    has := seq(n, k => false);
    for i := p.lo to p.hi
      invariant |originalChoice| == i - p.lo && OriginalChoices(O, G, tol, p, originalChoice, originalTied)
      invariant GroupScans(O, G, tol, p, i, p.groupLo, choices, tied, has)
    {
      var choice, choiceTied;
      choice, choiceTied, choices, tied, has := ScanOriginal(O, groups, p, i, tol, choices, tied, has, G);
      assert ChoosesNearest(O, G, tol, p, i, choice, choiceTied);
      originalChoice, originalTied := originalChoice + [choice], originalTied + [choiceTied];
    }
    accepted := AcceptMutual(O, p, tol, originalChoice, originalTied, choices, tied, has, G);
  }

  method AlignNearSegment(O: seq<U32>, groups: array<Group>, assignments: array<Option<nat>>, p: Gap, tol: U32,
                          stats: Stats, ghost G: seq<Group>)
    returns (stats': Stats)
    requires TimeOrdered(G) && MonotoneAnchors(O, G) && IsGap(O, G, p)
    requires UnsettledGap(O, G, p, groups[..]) && assignments.Length == |O|
    requires forall i :: p.lo <= i < p.hi ==> assignments[i] == None
    requires stats.nearMatches == Sat(NearCount(O, G, tol, p.lo))
    modifies groups, assignments
    ensures SettledRange(O, G, tol, p.groupLo, p.groupHi, groups[..])
    ensures AssignedRange(O, G, tol, p.lo, p.hi, assignments[..])
    ensures forall j :: 0 <= j < groups.Length && !(p.groupLo <= j < p.groupHi) ==> groups[j] == old(groups[j])
    ensures forall i :: 0 <= i < assignments.Length && !(p.lo <= i < p.hi) ==> assignments[i] == old(assignments[i])
    ensures stats' == stats.(nearMatches := Sat(NearCount(O, G, tol, p.hi)))
  {
    stats' := stats;
    if p.lo == p.hi || p.groupLo == p.groupHi {
      EmptyGapSettles(O, G, tol, p, groups[..]);
      NothingInGap(O, G, tol, p);
      return;
    }
    var sorted := CheckSorted(O, p.lo, p.hi);
    if !sorted {
      RefuseGap(O, groups, p, tol, G);
      NothingInGap(O, G, tol, p);
      return;
    }
    var accepted, has := ScanGap(O, groups, p, tol, G);
    stats' := AttachGap(O, groups, assignments, p, tol, accepted, has, stats, G);
  }

  /** Unordered originals give no safe boundary: every unsettled group of the gap becomes ambiguous. */
  method RefuseGap(O: seq<U32>, groups: array<Group>, p: Gap, ghost tol: U32, ghost G: seq<Group>)
    requires TimeOrdered(G) && MonotoneAnchors(O, G) && IsGap(O, G, p) && !Sorted(O, p.lo, p.hi)
    requires UnsettledGap(O, G, p, groups[..])
    modifies groups
    ensures SettledRange(O, G, tol, p.groupLo, p.groupHi, groups[..])
    ensures forall j :: 0 <= j < groups.Length && !(p.groupLo <= j < p.groupHi) ==> groups[j] == old(groups[j])
  {
    for j := p.groupLo to p.groupHi
      invariant forall k :: p.groupLo <= k < j ==> groups[k] == Settled(O, G, tol, k)
      invariant forall k :: 0 <= k < groups.Length && !(p.groupLo <= k < j) ==> groups[k] == old(groups[k])
    {
      assert groups[j] == old(groups[..])[j];
      UnsortedGapSettles(O, G, tol, p, j);
      if !groups[j].matched && !groups[j].conflicting {
        groups[j] := groups[j].(ambiguous := true);
      }
    }
  }

  method AttachGap(O: seq<U32>, groups: array<Group>, assignments: array<Option<nat>>, p: Gap, ghost tol: U32,
                   accepted: seq<(nat, nat)>, has: seq<bool>, stats: Stats, ghost G: seq<Group>)
    returns (stats': Stats)
    requires TimeOrdered(G) && MonotoneAnchors(O, G) && IsGap(O, G, p) && p.lo < p.hi && Sorted(O, p.lo, p.hi)
    requires UnsettledGap(O, G, p, groups[..]) && assignments.Length == |O|
    requires forall i :: p.lo <= i < p.hi ==> assignments[i] == None
    requires stats.nearMatches == Sat(NearCount(O, G, tol, p.lo))
    requires AcceptedTo(O, G, tol, p, p.hi, accepted) && |has| == p.groupHi - p.groupLo
    requires forall k :: 0 <= k < |has| ==> (has[k] <==> HasCandidate(O, G, tol, p.lo, p.hi, p.groupLo + k))
    modifies groups, assignments
    ensures SettledRange(O, G, tol, p.groupLo, p.groupHi, groups[..])
    ensures AssignedRange(O, G, tol, p.lo, p.hi, assignments[..])
    ensures forall j :: 0 <= j < groups.Length && !(p.groupLo <= j < p.groupHi) ==> groups[j] == old(groups[j])
    ensures forall i :: 0 <= i < assignments.Length && !(p.lo <= i < p.hi) ==> assignments[i] == old(assignments[i])
    ensures stats' == stats.(nearMatches := Sat(NearCount(O, G, tol, p.hi)))
  {
    ghost var before := groups[..];
    AcceptedIncrease(O, G, tol, p, accepted);
    AcceptedInGap(O, G, tol, p, accepted);
    stats' := FinalizeNearCandidates(groups, assignments, p.groupLo, has, accepted, stats);
    forall j | p.groupLo <= j < p.groupHi ensures groups[j] == Settled(O, G, tol, j) {
      assert before[j] == AfterExact(O, G, j);
      SortedGapSettles(O, G, tol, p, j, accepted, has[j - p.groupLo]);
    }
    forall i | p.lo <= i < p.hi ensures AssignedRow(O, G, tol, i, assignments[i]) {
      AcceptedAssigns(O, G, tol, p, accepted, i, assignments[i]);
    }
  }

  lemma AcceptedInGap(O: seq<U32>, G: seq<Group>, tol: U32, p: Gap, accepted: seq<(nat, nat)>)
    requires p.lo <= p.hi <= |O| && p.groupHi <= |G| && AcceptedTo(O, G, tol, p, p.hi, accepted)
    ensures forall t :: 0 <= t < |accepted| ==>
                          p.lo <= accepted[t].0 < p.hi && p.groupLo <= accepted[t].1 < p.groupHi
  {
    forall t | 0 <= t < |accepted| ensures p.lo <= accepted[t].0 < p.hi && p.groupLo <= accepted[t].1 < p.groupHi {
      assert PairIn(O, G, tol, p, accepted[t].0, accepted[t].1);
    }
  }
}
