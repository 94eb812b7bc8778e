/**
  What the queue plays: the order of a sequential run, when a move succeeds and where it leads,
  what the end of a track does under each repeat mode, what every edit leaves in the queue, and
  which orders a shuffle can produce.
*/
module PlaybackQueueTheorems {
  import opened Basics
  import opened PlaybackQueueSpec

  // ----- Moves

  /** How far the queue has come: in the list, or in the shuffled order. */
  function Place<T>(q: Queue<T>): nat
    requires Valid(q) && q.tracks != []
  {
    if q.order == Sequential then q.current.value else q.cursor.value
  }

  predicate AtEnd<T>(q: Queue<T>)
    requires Valid(q) && q.tracks != []
  {
    Place(q) + 1 == |q.tracks|
  }

  /** The same queue but for the place it has come to. */
  ghost predicate SameButPlace<T>(q: Queue<T>, r: Queue<T>) {
    r.tracks == q.tracks && r.order == q.order && r.repeat == q.repeat && r.shuffleOrder == q.shuffleOrder
  }

  lemma PlaceIsSmall<T>(q: Queue<T>)
    requires Valid(q) && q.tracks != []
    ensures Place(q) < |q.tracks|
    ensures q.order == Shuffle ==> |q.shuffleOrder| == |q.tracks|
  {
    if q.order == Shuffle {
      PermutationFacts(q.shuffleOrder, |q.tracks|);
    }
  }

  /** An advance goes one place on, from the last place to the first under repeat-all only; a shuffle wraps anew. */
  lemma AdvanceIff<T>(q: Queue<T>, draws: seq<nat>)
    requires Valid(q)
    ensures var (r, moved) := Advance(q, draws);
      (moved <==> q.tracks != [] && (!AtEnd(q) || q.repeat == All))
      && (!moved ==> r == q)
      && (moved && !(AtEnd(q) && q.order == Shuffle) ==>
            SameButPlace(q, r) && Place(r) == if AtEnd(q) then 0 else Place(q) + 1)
      && (moved && AtEnd(q) && q.order == Shuffle ==>
            r.tracks == q.tracks && r.order == Shuffle && r.repeat == All && Place(r) == 0)
  {
    if q.tracks != [] {
      PlaceIsSmall(q);
    }
  }

  /** A rewind goes one place back, from the first place to the last under repeat-all only, in the same order. */
  lemma RewindIff<T>(q: Queue<T>)
    requires Valid(q)
    ensures var (r, moved) := Rewind(q);
      (moved <==> q.tracks != [] && (Place(q) > 0 || q.repeat == All))
      && (!moved ==> r == q)
      && (moved ==> SameButPlace(q, r) && Place(r) == if Place(q) == 0 then |q.tracks| - 1 else Place(q) - 1)
  {
    if q.tracks != [] {
      PlaceIsSmall(q);
    }
  }

  /** In a sequential queue t advances play the list in order, round and round under repeat-all, else up to its end. */
  lemma {:induction false} SequentialRun<T>(q: Queue<T>, source: Source, from: nat, t: nat)
    requires Valid(q) && q.order == Sequential && q.tracks != []
    ensures var n, r := |q.tracks|, After(q, source, from, t);
      SameButPlace(q, r)
      && r.current == Some(if q.repeat == All then (q.current.value + t) % n
                           else if q.current.value + t < n then q.current.value + t
                           else n - 1)
  {
    hide Advance;
    var n := |q.tracks|;
    if t > 0 {
      SequentialRun(q, source, from, t - 1);
      AdvanceIff(After(q, source, from, t - 1), source(from + t - 1));
      NextRemainder(q.current.value + t - 1, n);
    } else {
      SmallRemainder(q.current.value, n);
    }
  }

  lemma SmallRemainder(x: nat, n: nat)
    requires x < n
    ensures x % n == x
  {
  }

  lemma NextRemainder(x: nat, n: nat)
    requires n > 0
    ensures (x + 1) % n == if x % n + 1 == n then 0 else x % n + 1
  {
    var q, r := x / n, x % n;
    assert x == n * q + r;
    if r + 1 == n {
      Multiple(q + 1, n, 0);
      assert x + 1 == n * (q + 1) + 0;
    } else {
      Multiple(q, n, r + 1);
      assert x + 1 == n * q + (r + 1);
    }
  }

  lemma Multiple(q: nat, n: nat, r: nat)
    requires r < n
    ensures (n * q + r) % n == r
  {
    var x := n * q + r;
    var k, m := x / n, x % n;
    assert x == n * k + m;
    assert n * (k + 1) == n * k + n && n * (q + 1) == n * q + n;
    FactorsInOrder(n, q, k + 1);
    FactorsInOrder(n, k, q + 1);
  }

  lemma ProductsInOrder(n: nat, a: nat, b: nat)
    requires a <= b
    ensures n * a <= n * b
  {
    assert n * b == n * a + n * (b - a);
  }

  lemma FactorsInOrder(n: nat, a: nat, b: nat)
    requires n * a < n * b
    ensures a < b
  {
    if b <= a {
      ProductsInOrder(n, b, a);
    }
  }

  // ----- The end of a track

  /**
    When a track ends: it plays again exactly under repeat-one; else the next place plays exactly when there is one
    or repeat-all wraps; otherwise nothing plays. Only in the second case does the queue change, as by an advance.
  */
  lemma CompletionIff<T>(q: Queue<T>, draws: seq<nat>)
    requires Valid(q)
    ensures var (r, action) := CompleteCurrent(q, draws);
      (action == ReplayCurrent <==> q.tracks != [] && q.repeat == One)
      && (action == PlayCurrent <==>
            q.tracks != [] && (q.repeat == All || (q.repeat == Off && !AtEnd(q))))
      && (action == PlayCurrent ==> Place(r) == if AtEnd(q) then 0 else Place(q) + 1)
      && (action == PlayCurrent && !(AtEnd(q) && q.order == Shuffle) ==> SameButPlace(q, r))
      && (action != PlayCurrent ==> r == q)
      && r.tracks == q.tracks && r.order == q.order && r.repeat == q.repeat
  {
    AdvanceIff(q, draws);
  }

  // ----- Edits

  /** After an edit the queue stands at the start of a fresh shuffled cycle, or has none. */
  predicate Fresh<T>(q: Queue<T>) {
    q.order == Shuffle ==> q.cursor == if q.tracks == [] then None else Some(0)
  }

  predicate SameModes<T>(q: Queue<T>, r: Queue<T>) {
    r.order == q.order && r.repeat == q.repeat
  }

  /** A replacement is refused exactly when tracks and position disagree; else it holds just these. */
  lemma ReplaceIff<T>(q: Queue<T>, tracks: seq<T>, current: Option<nat>, draws: seq<nat>)
    requires Valid(q)
    ensures var (r, error) := Replace(q, tracks, current, draws);
      (error == None <==> if tracks == [] then current == None else current.Some? && current.value < |tracks|)
      && (error == Some(MissingCurrent) <==> tracks != [] && current == None)
      && (error.Some? && error.value.UnexpectedCurrent? <==> tracks == [] && current.Some?)
      && (error.None? ==> r.tracks == tracks && r.current == current && SameModes(q, r) && Fresh(r))
  {
  }

  lemma SelectIff<T>(q: Queue<T>, index: nat, draws: seq<nat>)
    requires Valid(q)
    ensures var (r, changed, error) := Select(q, index, draws);
      (error == None <==> index < |q.tracks|) && (changed <==> index < |q.tracks| && q.current != Some(index))
      && (!changed ==> r == q)
      && (changed ==> r.tracks == q.tracks && r.current == Some(index) && SameModes(q, r) && Fresh(r))
  {
  }

  /** Changing the order keeps the current track; a shuffle starts with it, and no cycle outlives the shuffle. */
  lemma SetOrderIff<T>(q: Queue<T>, order: Order, draws: seq<nat>)
    requires Valid(q)
    ensures var (r, changed) := SetOrder(q, order, draws);
      (changed <==> order != q.order) && (!changed ==> r == q)
      && r.tracks == q.tracks && r.current == q.current && r.repeat == q.repeat && r.order == order
      && (changed ==> Fresh(r))
  {
  }

  /** Appending keeps what plays and what was queued, in place; an empty queue plays the first track it gets. */
  lemma ExtendIff<T>(q: Queue<T>, tracks: seq<T>, draws: seq<nat>)
    requires Valid(q)
    ensures var (r, first, error) := Extend(q, tracks, draws);
      (error == None <==> tracks != []) && (first <==> tracks != [] && q.tracks == [])
      && (error == None ==>
            |r.tracks| == |q.tracks| + |tracks| && SameModes(q, r) && Fresh(r)
            && (forall i :: 0 <= i < |q.tracks| ==> r.tracks[i] == q.tracks[i])
            && (forall i :: 0 <= i < |tracks| ==> r.tracks[|q.tracks| + i] == tracks[i])
            && (if q.tracks == [] then r.current == Some(0) else r.current == q.current))
  {
  }

  /**
    Continuation is for a sequential queue without repeat that stands at its last track, and plays the first new
    one.
  */
  lemma ContinueIff<T>(q: Queue<T>, tracks: seq<T>, draws: seq<nat>)
    requires Valid(q)
    ensures var (r, error) := Continue(q, tracks, draws);
      (error == Some(EmptyContinuation) <==> tracks == [])
      && (error == None <==>
            tracks != [] && q.tracks != [] && q.order == Sequential && q.repeat == Off && AtEnd(q))
      && (error == None ==>
            r.tracks == q.tracks + tracks && r.current == Some(|q.tracks|) && r.tracks[|q.tracks|] == tracks[0]
            && SameModes(q, r))
  {
  }

  /** Removal takes out one position and no other, and tells which track it was and whether it was playing. */
  lemma RemoveIff<T>(q: Queue<T>, index: nat, draws: seq<nat>)
    requires Valid(q)
    ensures var (r, removed) := Remove(q, index, draws);
      (removed.Some? <==> index < |q.tracks|)
      && (removed.Some? ==>
            removed.value == (q.tracks[index], q.current == Some(index))
            && |r.tracks| == |q.tracks| - 1 && SameModes(q, r) && Fresh(r)
            && (forall i :: 0 <= i < |r.tracks| ==> r.tracks[i] == q.tracks[if i < index then i else i + 1])
            && (r.current == None <==> |q.tracks| == 1)
            && (|q.tracks| > 1 ==>
                  r.current == Some(if index < q.current.value || index + 1 == |q.tracks| == q.current.value + 1
                                    then q.current.value - 1 else q.current.value)))
  {
  }

  lemma ClearIff<T>(q: Queue<T>)
    requires Valid(q)
    ensures Clear(q).tracks == [] && Clear(q).current == None && SameModes(q, Clear(q))
  {
  }

  // ----- What a shuffle can produce

  lemma {:induction false} DrawsBefore(s: seq<nat>, upper: nat, draws: seq<nat>, other: seq<nat>, k: nat)
    requires upper <= |s| && forall i: nat :: i >= k ==> DrawAt(draws, i) == DrawAt(other, i)
    ensures FisherYates(s, upper, draws, k) == FisherYates(s, upper, other, k)
    decreases upper
  {
    hide DrawAt;
    if upper >= 2 {
      DrawsBefore(Swap(s, upper - 1, DrawAt(draws, k) % upper), upper - 1, draws, other, k + 1);
    }
  }

  /** Some draws lead the shuffle, from draw k on, to a given order of the first `upper` positions. */
  lemma {:induction false} DrawsTo(s: seq<nat>, goal: seq<nat>, upper: nat, k: nat) returns (draws: seq<nat>)
    requires upper <= |s| == |goal| && multiset(s) == multiset(goal)
    requires forall i :: upper <= i < |s| ==> s[i] == goal[i]
    ensures FisherYates(s, upper, draws, k) == goal
    decreases upper
  {
    if upper < 2 {
      draws := [];
      LastIsForced(s, goal, upper);
    } else {
      var j := Holds(s, goal, upper);
      var next := Swap(s, upper - 1, j);
      SwapPermutes(s, upper - 1, j);
      SwapAt(s, goal, upper, j);
      hide Swap, DrawAt;
      var later := DrawsTo(next, goal, upper - 1, k + 1);
      draws := With(later, k, j);
      DrawsWith(later, k, j);
      SmallRemainder(j, upper);
      DrawsBefore(next, upper - 1, draws, later, k + 1);
    }
  }

  lemma SwapAt(s: seq<nat>, goal: seq<nat>, upper: nat, j: nat)
    requires j < upper <= |s| == |goal| && s[j] == goal[upper - 1]
    requires forall i :: upper <= i < |s| ==> s[i] == goal[i]
    ensures forall i :: upper - 1 <= i < |s| ==> Swap(s, upper - 1, j)[i] == goal[i]
  {
  }

  /** The same draws but for one of them. */
  function With(draws: seq<nat>, k: nat, j: nat): seq<nat> {
    seq(if |draws| > k then |draws| else k + 1, (i: nat) => if i == k then j else DrawAt(draws, i))
  }

  lemma DrawsWith(draws: seq<nat>, k: nat, j: nat)
    ensures forall i: nat :: DrawAt(With(draws, k, j), i) == if i == k then j else DrawAt(draws, i)
  {
  }

  lemma CutMultiset(s: seq<nat>, goal: seq<nat>, upper: nat)
    requires upper <= |s| == |goal| && multiset(s) == multiset(goal)
    requires forall i :: upper <= i < |s| ==> s[i] == goal[i]
    ensures multiset(s[..upper]) == multiset(goal[..upper])
  {
    assert s == s[..upper] + s[upper..] && goal == goal[..upper] + goal[upper..];
    assert s[upper..] == goal[upper..];
    assert multiset(s[..upper]) == multiset(s) - multiset(s[upper..]);
    assert multiset(goal[..upper]) == multiset(goal) - multiset(goal[upper..]);
  }

  lemma LastIsForced(s: seq<nat>, goal: seq<nat>, upper: nat)
    requires upper < 2 && upper <= |s| == |goal| && multiset(s) == multiset(goal)
    requires forall i :: upper <= i < |s| ==> s[i] == goal[i]
    ensures s == goal
  {
    CutMultiset(s, goal, upper);
    if upper == 1 {
      assert s[..1] == [s[0]] && goal[..1] == [goal[0]];
      assert s[0] in multiset(s[..1]);
      assert s[0] == goal[0];
    }
    assert forall i :: 0 <= i < |s| ==> s[i] == goal[i];
  }

  lemma Holds(s: seq<nat>, goal: seq<nat>, upper: nat) returns (j: nat)
    requires 0 < upper <= |s| == |goal| && multiset(s) == multiset(goal)
    requires forall i :: upper <= i < |s| ==> s[i] == goal[i]
    ensures j < upper && s[j] == goal[upper - 1]
  {
    CutMultiset(s, goal, upper);
    assert goal[..upper][upper - 1] in multiset(goal[..upper]);
    assert goal[upper - 1] in s[..upper];
    var i :| 0 <= i < upper && s[..upper][i] == goal[upper - 1];
    j := i;
  }

  /** No order is out of the shuffle's reach: some draws produce it. */
  lemma EveryOrderIsReached(goal: seq<nat>, n: nat)
    requires IsPermutation(goal, n)
    ensures exists draws :: Shuffled(Positions(n), draws) == goal
  {
    PermutationFacts(goal, n);
    var draws := DrawsTo(Positions(n), goal, n, 0);
    assert Shuffled(Positions(n), draws) == goal;
  }

  /** And turning shuffle on can lead to any order that starts with the current position. */
  lemma EveryCycleIsReached<T>(q: Queue<T>, goal: seq<nat>)
    requires Valid(q) && q.order == Sequential && q.tracks != []
    requires IsPermutation(goal, |q.tracks|) && |goal| > 0 && goal[0] == q.current.value
    ensures exists draws :: SetOrder(q, Shuffle, draws).0.shuffleOrder == goal
  {
    var n, current := |q.tracks|, q.current.value;
    var others, rest := Others(n, current), goal[1..];
    PermutationFacts(goal, n);
    var base := Positions(n);
    assert base == base[..current] + [current] + base[current + 1..];
    assert goal == [current] + rest;
    assert multiset(base) == multiset(others) + multiset{current};
    assert multiset(goal) == multiset{current} + multiset(rest);
    assert multiset(others) == multiset(base) - multiset{current};
    assert multiset(rest) == multiset(goal) - multiset{current};
    assert |others| == n - 1 == |rest|;
    var draws := DrawsTo(others, rest, |others|, 0);
    assert SetOrder(q, Shuffle, draws).0.shuffleOrder == goal;
  }
}
