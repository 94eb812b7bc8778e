/**
  The playback queue as a value: what each operation does to it, for any source
  of shuffle draws, and what that guarantees over whole runs.
*/
module PlaybackQueueSpec {
  import opened Basics

  datatype Order = Sequential | Shuffle

  datatype Repeat = Off | All | One

  datatype Completion = Nothing | ReplayCurrent | PlayCurrent

  datatype QueueError =
    | MissingCurrent
    | UnexpectedCurrent(index: nat)
    | CurrentOutOfBounds(index: nat, len: nat)
    | EmptyExtension
    | EmptyContinuation
    | ContinuationRequiresTerminal

  datatype Queue<T> = Queue(
    tracks: seq<T>,
    current: Option<nat>,
    order: Order,
    repeat: Repeat,
    shuffleOrder: seq<nat>,
    cursor: Option<nat>)

  // ----- Shuffling

  /** The k-th number drawn; every infinite source extends some finite one. */
  function DrawAt(draws: seq<nat>, k: nat): nat {
    if k < |draws| then draws[k] else 0
  }

  function Swap(s: seq<nat>, i: nat, j: nat): (r: seq<nat>)
    requires i < |s| && j < |s|
    ensures |r| == |s|
  {
    s[i := s[j]][j := s[i]]
  }

  /** Fisher-Yates from the top down to position 1, on the first `upper` positions. */
  function FisherYates(s: seq<nat>, upper: nat, draws: seq<nat>, k: nat): seq<nat>
    requires upper <= |s|
    decreases upper
  {
    if upper < 2 then s
    else FisherYates(Swap(s, upper - 1, DrawAt(draws, k) % upper), upper - 1, draws, k + 1)
  }

  function Shuffled(s: seq<nat>, draws: seq<nat>): seq<nat> {
    FisherYates(s, |s|, draws, 0)
  }

  function Positions(n: nat): (s: seq<nat>)
    ensures |s| == n && forall i :: 0 <= i < n ==> s[i] == i
  {
    seq(n, i => i)
  }

  function Others(n: nat, current: nat): seq<nat>
    requires current < n
  {
    Positions(n)[..current] + Positions(n)[current + 1..]
  }

  ghost predicate IsPermutation(s: seq<nat>, n: nat) {
    multiset(s) == multiset(Positions(n))
  }

  lemma SwapPermutes(s: seq<nat>, i: nat, j: nat)
    requires i < |s| && j < |s|
    ensures multiset(Swap(s, i, j)) == multiset(s)
  {
  }

  lemma {:induction false} FisherYatesPermutes(s: seq<nat>, upper: nat, draws: seq<nat>, k: nat)
    requires upper <= |s|
    decreases upper
    ensures |FisherYates(s, upper, draws, k)| == |s|
    ensures multiset(FisherYates(s, upper, draws, k)) == multiset(s)
  {
    if upper >= 2 {
      var swapped := Swap(s, upper - 1, DrawAt(draws, k) % upper);
      SwapPermutes(s, upper - 1, DrawAt(draws, k) % upper);
      FisherYatesPermutes(swapped, upper - 1, draws, k + 1);
    }
  }

  lemma PermutationFacts(s: seq<nat>, n: nat)
    requires IsPermutation(s, n)
    ensures |s| == n
    ensures forall i :: 0 <= i < n ==> s[i] < n
    ensures forall i, j :: 0 <= i < j < n ==> s[i] != s[j]
    ensures forall p: nat :: p < n ==> p in s
  {
    var base := Positions(n);
    assert |multiset(s)| == |multiset(base)|;
    forall i | 0 <= i < n ensures s[i] < n {
      assert s[i] in multiset(base);
      assert s[i] in base;
    }
    forall i, j | 0 <= i < j < n ensures s[i] != s[j] {
      if s[i] == s[j] {
        TwiceIn(s, i, j);
        OnceInPositions(n, s[i]);
      }
    }
    forall p: nat | p < n ensures p in s {
      assert base[p] == p;
      assert p in multiset(s);
    }
  }

  lemma TwiceIn(s: seq<nat>, i: nat, j: nat)
    requires i < j < |s| && s[i] == s[j]
    ensures multiset(s)[s[i]] >= 2
  {
    assert s == s[..i] + [s[i]] + s[i + 1..j] + [s[j]] + s[j + 1..];
  }

  lemma {:induction false} OnceInPositions(n: nat, p: nat)
    ensures multiset(Positions(n))[p] <= 1
  {
    if n > 0 {
      OnceInPositions(n - 1, p);
      assert Positions(n) == Positions(n - 1) + [n - 1];
      if p == n - 1 { assert p !in Positions(n - 1); }
    }
  }

  lemma RebuiltIsPermutation(n: nat, current: nat, draws: seq<nat>)
    requires current < n
    ensures IsPermutation([current] + Shuffled(Others(n, current), draws), n)
  {
    var others := Others(n, current);
    FisherYatesPermutes(others, |others|, draws, 0);
    var base := Positions(n);
    assert base == base[..current] + [current] + base[current + 1..];
  }

  lemma ShuffledIsPermutation(n: nat, draws: seq<nat>)
    ensures IsPermutation(Shuffled(Positions(n), draws), n)
  {
    FisherYatesPermutes(Positions(n), n, draws, 0);
  }

  // ----- The queue invariant

  ghost predicate Valid<T>(q: Queue<T>) {
    && (q.current.Some? <==> q.tracks != [])
    && (q.current.Some? ==> q.current.value < |q.tracks|)
    && (if q.order == Shuffle && q.tracks != [] then
          && IsPermutation(q.shuffleOrder, |q.tracks|)
          && q.cursor.Some? && q.cursor.value < |q.shuffleOrder|
          && q.shuffleOrder[q.cursor.value] == q.current.value
        else q.shuffleOrder == [] && q.cursor == None)
  }

  // ----- Operations

  function Empty<T>(): (q: Queue<T>)
    ensures Valid(q)
  {
    Queue([], None, Sequential, Off, [], None)
  }

  function Rebuilt<T>(q: Queue<T>, draws: seq<nat>): (r: Queue<T>)
    requires q.current.Some? <==> q.tracks != []
    requires q.current.Some? ==> q.current.value < |q.tracks|
    ensures Valid(r)
  {
    if q.order == Shuffle && q.current.Some? then
      var n, current := |q.tracks|, q.current.value;
      RebuiltIsPermutation(n, current, draws);
      q.(shuffleOrder := [current] + Shuffled(Others(n, current), draws), cursor := Some(0))
    else
      q.(shuffleOrder := [], cursor := None)
  }

  /** A fresh cycle whose first position differs from the one just played, when it can. */
  function NextCycle(n: nat, current: nat, draws: seq<nat>): seq<nat> {
    var s := Shuffled(Positions(n), draws);
    if |s| > 1 && s[0] == current then Swap(s, 0, 1) else s
  }

  lemma NextCycleFacts(n: nat, current: nat, draws: seq<nat>)
    ensures IsPermutation(NextCycle(n, current, draws), n)
    ensures |NextCycle(n, current, draws)| == n
    ensures n > 1 ==> NextCycle(n, current, draws)[0] != current
  {
    ShuffledIsPermutation(n, draws);
    PermutationFacts(Shuffled(Positions(n), draws), n);
    PermutationFacts(NextCycle(n, current, draws), n);
  }

  predicate StartsNewCycle<T>(q: Queue<T>) {
    && q.order == Shuffle && q.repeat == All && q.cursor.Some?
    && q.cursor.value + 1 >= |q.shuffleOrder|
  }

  function Advance<T>(q: Queue<T>, draws: seq<nat>): (r: (Queue<T>, bool))
    requires Valid(q)
    ensures Valid(r.0)
  {
    if q.tracks == [] then (q, false)
    else if q.order == Sequential then
      var current := q.current.value;
      if current + 1 < |q.tracks| then (q.(current := Some(current + 1)), true)
      else if q.repeat == All then (q.(current := Some(0)), true)
      else (q, false)
    else
      PermutationFacts(q.shuffleOrder, |q.tracks|);
      var cursor := q.cursor.value;
      if cursor + 1 < |q.shuffleOrder| then
        (q.(cursor := Some(cursor + 1), current := Some(q.shuffleOrder[cursor + 1])), true)
      else if q.repeat != All then (q, false)
      else
        var cycle := NextCycle(|q.tracks|, q.current.value, draws);
        NextCycleFacts(|q.tracks|, q.current.value, draws);
        PermutationFacts(cycle, |q.tracks|);
        (q.(shuffleOrder := cycle, cursor := Some(0), current := Some(cycle[0])), true)
  }

  function Rewind<T>(q: Queue<T>): (r: (Queue<T>, bool))
    requires Valid(q)
    ensures Valid(r.0)
  {
    if q.tracks == [] then (q, false)
    else if q.order == Sequential then
      var current := q.current.value;
      if current > 0 then (q.(current := Some(current - 1)), true)
      else if q.repeat == All then (q.(current := Some(|q.tracks| - 1)), true)
      else (q, false)
    else
      PermutationFacts(q.shuffleOrder, |q.tracks|);
      var cursor := q.cursor.value;
      if cursor > 0 then
        (q.(cursor := Some(cursor - 1), current := Some(q.shuffleOrder[cursor - 1])), true)
      else if q.repeat != All then (q, false)
      else
        var last := |q.shuffleOrder| - 1;
        (q.(cursor := Some(last), current := Some(q.shuffleOrder[last])), true)
  }

  function CompleteCurrent<T>(q: Queue<T>, draws: seq<nat>): (r: (Queue<T>, Completion))
    requires Valid(q)
    ensures Valid(r.0)
  {
    if q.current.Some? && q.repeat == One then (q, ReplayCurrent)
    else
      var (next, moved) := Advance(q, draws);
      (next, if moved then PlayCurrent else Nothing)
  }

  predicate HasNext<T>(q: Queue<T>) {
    var hasPosition := match q.order
      case Sequential => q.current.Some? && q.current.value + 1 < |q.tracks|
      case Shuffle => q.cursor.Some? && q.cursor.value + 1 < |q.shuffleOrder|;
    hasPosition || (q.repeat == All && q.tracks != [])
  }

  predicate HasPrevious<T>(q: Queue<T>) {
    var hasPosition := match q.order
      case Sequential => q.current.Some? && q.current.value > 0
      case Shuffle => q.cursor.Some? && q.cursor.value > 0;
    hasPosition || (q.repeat == All && q.tracks != [])
  }

  function PositionError(len: nat, current: Option<nat>): Option<QueueError> {
    match current
    case None => if len == 0 then None else Some(MissingCurrent)
    case Some(index) =>
      if len == 0 then Some(UnexpectedCurrent(index))
      else if index >= len then Some(CurrentOutOfBounds(index, len))
      else None
  }

  function Replace<T>(q: Queue<T>, tracks: seq<T>, current: Option<nat>, draws: seq<nat>): (r: (Queue<T>,
      Option<QueueError>))
    requires Valid(q)
    ensures Valid(r.0) && (r.1.Some? ==> r.0 == q)
  {
    var error := PositionError(|tracks|, current);
    if error.Some? then (q, error)
    else (Rebuilt(q.(tracks := tracks, current := current), draws), None)
  }

  function SetOrder<T>(q: Queue<T>, order: Order, draws: seq<nat>): (r: (Queue<T>, bool))
    requires Valid(q)
    ensures Valid(r.0)
  {
    if q.order == order then (q, false) else (Rebuilt(q.(order := order), draws), true)
  }

  function SetRepeat<T>(q: Queue<T>, repeat: Repeat): (r: (Queue<T>, bool))
    requires Valid(q)
    ensures Valid(r.0)
  {
    (q.(repeat := repeat), q.repeat != repeat)
  }

  function Select<T>(q: Queue<T>, index: nat, draws: seq<nat>): (r: (Queue<T>, bool, Option<QueueError>))
    requires Valid(q)
    ensures Valid(r.0) && (r.2.Some? ==> r.0 == q)
  {
    if index >= |q.tracks| then (q, false, Some(CurrentOutOfBounds(index, |q.tracks|)))
    else if q.current == Some(index) then (q, false, None)
    else (Rebuilt(q.(current := Some(index)), draws), true, None)
  }

  function Appended<T>(q: Queue<T>, tracks: seq<T>, draws: seq<nat>): (r: Queue<T>)
    requires Valid(q) && tracks != []
    ensures Valid(r)
  {
    Rebuilt(q.(tracks := q.tracks + tracks, current := if q.current.None? then Some(0) else q.current), draws)
  }

  function Extend<T>(q: Queue<T>, tracks: seq<T>, draws: seq<nat>): (r: (Queue<T>, bool, Option<QueueError>))
    requires Valid(q)
    ensures Valid(r.0) && (r.2.Some? ==> r.0 == q)
  {
    if tracks == [] then (q, false, Some(EmptyExtension))
    else (Appended(q, tracks, draws), q.current.None?, None)
  }

  predicate AtTerminal<T>(q: Queue<T>) {
    && q.order == Sequential && q.repeat == Off
    && q.current.Some? && q.current.value + 1 == |q.tracks|
  }

  function Continue<T>(q: Queue<T>, tracks: seq<T>, draws: seq<nat>): (r: (Queue<T>, Option<QueueError>))
    requires Valid(q)
    ensures Valid(r.0) && (r.1.Some? ==> r.0 == q)
  {
    if tracks == [] then (q, Some(EmptyContinuation))
    else if !AtTerminal(q) then (q, Some(ContinuationRequiresTerminal))
    else (Rebuilt(q.(tracks := q.tracks + tracks, current := Some(|q.tracks|)), draws), None)
  }

  function CurrentAfterRemoval(current: nat, index: nat, remaining: nat): Option<nat> {
    if remaining == 0 then None
    else if index < current then Some(current - 1)
    else if index > current then Some(current)
    else if index < remaining then Some(index)
    else Some(remaining - 1)
  }

  function Remove<T>(q: Queue<T>, index: nat, draws: seq<nat>): (r: (Queue<T>, Option<(T, bool)>))
    requires Valid(q)
    ensures Valid(r.0) && (r.1.None? ==> r.0 == q)
  {
    if index >= |q.tracks| then (q, None)
    else
      var tracks := q.tracks[..index] + q.tracks[index + 1..];
      var current := CurrentAfterRemoval(q.current.value, index, |tracks|);
      (Rebuilt(q.(tracks := tracks, current := current), draws), Some((q.tracks[index], q.current == Some(index))))
  }

  function Clear<T>(q: Queue<T>): (r: Queue<T>)
    ensures Valid(r)
  {
    q.(tracks := [], current := None, shuffleOrder := [], cursor := None)
  }

  // ----- Navigation agrees with its previews and with itself

  /** The two previews tell exactly what the moves will answer, in every valid state. */
  lemma PreviewsAreExact<T>(q: Queue<T>, draws: seq<nat>)
    requires Valid(q)
    ensures HasNext(q) == Advance(q, draws).1
    ensures HasPrevious(q) == Rewind(q).1
    ensures !HasNext(q) ==> Advance(q, draws).0 == q
    ensures !HasPrevious(q) ==> Rewind(q).0 == q
  {
    if q.order == Shuffle && q.tracks != [] { PermutationFacts(q.shuffleOrder, |q.tracks|); }
  }

  /** A successful advance inside a cycle is undone exactly by one rewind. */
  lemma RewindUndoesAdvance<T>(q: Queue<T>, draws: seq<nat>)
    requires Valid(q) && Advance(q, draws).1 && !StartsNewCycle(q)
    ensures Rewind(Advance(q, draws).0) == (q, true)
  {
    if q.order == Shuffle { PermutationFacts(q.shuffleOrder, |q.tracks|); }
  }

  /** And a successful rewind that did not wrap a shuffle cycle is undone by one advance. */
  lemma AdvanceUndoesRewind<T>(q: Queue<T>, draws: seq<nat>)
    requires Valid(q) && Rewind(q).1
    requires q.order == Shuffle ==> q.cursor.value > 0
    ensures Advance(Rewind(q).0, draws) == (q, true)
  {
    if q.order == Shuffle { PermutationFacts(q.shuffleOrder, |q.tracks|); }
  }

  // ----- Removal keeps the current track

  lemma RemovalKeepsCurrentTrack<T>(q: Queue<T>, index: nat, draws: seq<nat>)
    requires Valid(q) && index < |q.tracks| && q.current != Some(index)
    ensures var r := Remove(q, index, draws).0;
            r.current.Some? && r.tracks[r.current.value] == q.tracks[q.current.value]
  {
  }

  lemma RemovalOfCurrentSelectsNeighbour<T>(q: Queue<T>, index: nat, draws: seq<nat>)
    requires Valid(q) && q.current == Some(index)
    ensures var r := Remove(q, index, draws).0;
            if |q.tracks| == 1 then r.current == None
            else if index + 1 < |q.tracks| then
              r.current.Some? && r.tracks[r.current.value] == q.tracks[index + 1]
            else r.current.Some? && r.tracks[r.current.value] == q.tracks[index - 1]
  {
  }

  // ----- Whole runs

  datatype Command<T> =
    | DoReplace(tracks: seq<T>, current: Option<nat>)
    | DoSetOrder(order: Order)
    | DoSetRepeat(repeat: Repeat)
    | DoSelect(index: nat)
    | DoAdvance
    | DoRewind
    | DoComplete
    | DoExtend(tracks: seq<T>)
    | DoContinue(tracks: seq<T>)
    | DoRemove(index: nat)
    | DoClear

  function Step<T>(q: Queue<T>, c: Command<T>, draws: seq<nat>): (r: Queue<T>)
    requires Valid(q)
    ensures Valid(r)
  {
    match c
    case DoReplace(tracks, current) => Replace(q, tracks, current, draws).0
    case DoSetOrder(order) => SetOrder(q, order, draws).0
    case DoSetRepeat(repeat) => SetRepeat(q, repeat).0
    case DoSelect(index) => Select(q, index, draws).0
    case DoAdvance => Advance(q, draws).0
    case DoRewind => Rewind(q).0
    case DoComplete => CompleteCurrent(q, draws).0
    case DoExtend(tracks) => Extend(q, tracks, draws).0
    case DoContinue(tracks) => Continue(q, tracks, draws).0
    case DoRemove(index) => Remove(q, index, draws).0
    case DoClear => Clear(q)
  }

  /** The state after any commands, each with its own draws; it exists because every step stays valid. */
  function Run<T>(q: Queue<T>, commands: seq<(Command<T>, seq<nat>)>): (r: Queue<T>)
    requires Valid(q)
    ensures Valid(r)
    decreases |commands|
  {
    if commands == [] then q
    else Run(Step(q, commands[0].0, commands[0].1), commands[1..])
  }

  /** Only commands that edit the list change the tracks; navigation and modes never do. */
  lemma {:induction false} NavigationKeepsTracks<T>(q: Queue<T>, commands: seq<(Command<T>, seq<nat>)>)
    requires Valid(q)
    requires forall k :: 0 <= k < |commands| ==>
                           var c := commands[k].0;
                           c.DoSetOrder? || c.DoSetRepeat? || c.DoSelect?
                           || c.DoAdvance? || c.DoRewind? || c.DoComplete?
    ensures Run(q, commands).tracks == q.tracks
    decreases |commands|
  {
    if commands != [] {
      var next := Step(q, commands[0].0, commands[0].1);
      assert next.tracks == q.tracks;
      NavigationKeepsTracks(next, commands[1..]);
    }
  }

  // ----- Laps of the shuffle cycle, for any source of draws

  type Source = nat -> seq<nat>

  /** The state after t advances, the first of which takes the draws numbered `from`. */
  ghost function After<T>(q: Queue<T>, source: Source, from: nat, t: nat): (r: Queue<T>)
    requires Valid(q)
    ensures Valid(r)
    decreases t
  {
    if t == 0 then q else Advance(After(q, source, from, t - 1), source(from + t - 1)).0
  }

  ghost predicate CycleStart<T>(q: Queue<T>) {
    Valid(q) && q.order == Shuffle && q.tracks != [] && q.cursor == Some(0)
  }

  function InCycle<T>(q: Queue<T>, r: nat): Queue<T>
    requires r < |q.shuffleOrder|
  {
    q.(cursor := Some(r), current := Some(q.shuffleOrder[r]))
  }

  lemma CycleFacts<T>(q: Queue<T>)
    requires CycleStart(q)
    ensures |q.shuffleOrder| == |q.tracks| && InCycle(q, 0) == q
    ensures IsPermutation(q.shuffleOrder, |q.tracks|)
    ensures forall r :: 0 <= r < |q.tracks| ==> Valid(InCycle(q, r))
    ensures forall r, u :: 0 <= r < u < |q.tracks| ==> q.shuffleOrder[r] != q.shuffleOrder[u]
  {
    PermutationFacts(q.shuffleOrder, |q.tracks|);
  }

  lemma AdvanceInCycle<T>(q: Queue<T>, r: nat, draws: seq<nat>)
    requires CycleStart(q) && r + 1 < |q.tracks|
    ensures |q.shuffleOrder| == |q.tracks| && Valid(InCycle(q, r))
    ensures Advance(InCycle(q, r), draws) == (InCycle(q, r + 1), true)
  {
    CycleFacts(q);
  }

  lemma AdvancePastCycle<T>(q: Queue<T>, draws: seq<nat>)
    requires CycleStart(q)
    ensures |q.shuffleOrder| == |q.tracks|
    ensures var last := InCycle(q, |q.tracks| - 1);
            && Valid(last)
            && (q.repeat != All ==> Advance(last, draws) == (last, false))
            && (q.repeat == All ==>
                  var next := Advance(last, draws).0;
                  && CycleStart(next) && next.repeat == All && next.tracks == q.tracks
                  && (|q.tracks| >= 2 ==> next.current != last.current))
  {
    CycleFacts(q);
    NextCycleFacts(|q.tracks|, q.shuffleOrder[|q.tracks| - 1], draws);
  }

  /** Inside one cycle r advances reach exactly the r-th position of the shuffled order. */
  lemma {:induction false} WithinCycle<T>(q: Queue<T>, source: Source, from: nat, r: nat)
    requires CycleStart(q) && r < |q.tracks|
    ensures |q.shuffleOrder| == |q.tracks|
    ensures After(q, source, from, r) == InCycle(q, r)
  {
    hide Advance, Valid;
    CycleFacts(q);
    if r > 0 {
      WithinCycle(q, source, from, r - 1);
      AdvanceInCycle(q, r - 1, source(from + r - 1));
    }
  }

  lemma {:induction false} AfterShift<T>(q: Queue<T>, source: Source, from: nat, a: nat, b: nat)
    requires Valid(q)
    ensures After(q, source, from, a + b) == After(After(q, source, from, a), source, from + a, b)
  {
    hide Advance, Valid;
    if b > 0 {
      AfterShift(q, source, from, a, b - 1);
      assert from + (a + b) - 1 == from + a + b - 1;
    }
  }

  /** Repeat-all: n advances lead to the start of another cycle over the same tracks. */
  lemma NextLap<T>(q: Queue<T>, source: Source, from: nat)
    requires CycleStart(q) && q.repeat == All
    ensures var r := After(q, source, from, |q.tracks|);
            CycleStart(r) && r.repeat == All && r.tracks == q.tracks
    ensures |q.tracks| >= 2 ==>
              After(q, source, from, |q.tracks|).current != After(q, source, from, |q.tracks| - 1).current
  {
    hide Advance, Valid;
    var n := |q.tracks|;
    WithinCycle(q, source, from, n - 1);
    AdvancePastCycle(q, source(from + n - 1));
  }

  ghost function LapStart<T>(q: Queue<T>, source: Source, m: nat): Queue<T>
    requires Valid(q)
  {
    After(q, source, 0, m * |q.tracks|)
  }

  /** Every lap of a repeat-all run starts a cycle over the same tracks. */
  lemma {:induction false} LapStarts<T>(q: Queue<T>, source: Source, m: nat)
    requires CycleStart(q) && q.repeat == All
    ensures var r := LapStart(q, source, m);
            CycleStart(r) && r.repeat == All && r.tracks == q.tracks
  {
    hide Advance, Valid;
    if m > 0 {
      var n := |q.tracks|;
      var at := (m - 1) * n;
      assert at + n == m * n;
      LapStarts(q, source, m - 1);
      AfterShift(q, source, 0, at, n);
      NextLap(LapStart(q, source, m - 1), source, at);
    }
  }

  /** The position being played after t advances from a cycle start. */
  ghost function PositionAt<T>(q: Queue<T>, source: Source, t: nat): nat
    requires Valid(q)
  {
    var r := After(q, source, 0, t);
    if r.current.Some? then r.current.value else 0
  }

  ghost function Lap<T>(q: Queue<T>, source: Source, m: nat): seq<nat>
    requires Valid(q)
  {
    LapTo(q, source, m, |q.tracks|)
  }

  ghost function LapTo<T>(q: Queue<T>, source: Source, m: nat, n: nat): seq<nat>
    requires Valid(q)
  {
    if n == 0 then [] else LapTo(q, source, m, n - 1) + [PositionAt(q, source, m * |q.tracks| + n - 1)]
  }

  lemma LapPosition<T>(q: Queue<T>, source: Source, m: nat, r: nat)
    requires CycleStart(q) && q.repeat == All && r < |q.tracks|
    ensures var start := LapStart(q, source, m);
            |start.shuffleOrder| == |q.tracks| && PositionAt(q, source, m * |q.tracks| + r) == start.shuffleOrder[r]
  {
    hide Advance, Valid;
    var at := m * |q.tracks|;
    LapStarts(q, source, m);
    AfterShift(q, source, 0, at, r);
    WithinCycle(LapStart(q, source, m), source, at, r);
  }

  lemma {:induction false} LapIsCycle<T>(q: Queue<T>, source: Source, m: nat, n: nat)
    requires CycleStart(q) && q.repeat == All && n <= |q.tracks|
    ensures var order := LapStart(q, source, m).shuffleOrder;
            |order| == |q.tracks| && LapTo(q, source, m, n) == order[..n]
  {
    hide Advance, Valid;
    LapPosition(q, source, m, 0);
    if n > 0 {
      LapIsCycle(q, source, m, n - 1);
      LapPosition(q, source, m, n - 1);
      var order := LapStart(q, source, m).shuffleOrder;
      assert m * |q.tracks| + (n - 1) == m * |q.tracks| + n - 1;
      assert order[..n] == order[..n - 1] + [order[n - 1]];
    }
  }

  /** Repeat-all: every lap of n positions plays each of the n positions exactly once. */
  lemma EveryLapIsAPermutation<T>(q: Queue<T>, source: Source, m: nat)
    requires CycleStart(q) && q.repeat == All
    ensures IsPermutation(Lap(q, source, m), |q.tracks|)
  {
    hide Advance, Valid;
    LapStarts(q, source, m);
    LapIsCycle(q, source, m, |q.tracks|);
    CycleFacts(LapStart(q, source, m));
    var order := LapStart(q, source, m).shuffleOrder;
    assert order[..|q.tracks|] == order;
  }

  /** Repeat-all over at least two tracks: no advance ever replays the position just played. */
  lemma NoImmediateReplay<T>(q: Queue<T>, source: Source, m: nat, r: nat)
    requires CycleStart(q) && q.repeat == All && |q.tracks| >= 2 && r < |q.tracks|
    ensures PositionAt(q, source, m * |q.tracks| + r + 1) != PositionAt(q, source, m * |q.tracks| + r)
  {
    hide Advance, Valid;
    var n := |q.tracks|;
    var at := m * n;
    LapStarts(q, source, m);
    var start := LapStart(q, source, m);
    AfterShift(q, source, 0, at, r);
    AfterShift(q, source, 0, at, r + 1);
    assert at + (r + 1) == at + r + 1;
    CycleFacts(start);
    WithinCycle(start, source, at, r);
    if r + 1 < n {
      WithinCycle(start, source, at, r + 1);
    } else {
      NextLap(start, source, at);
      CycleFacts(After(start, source, at, n));
    }
  }

  /** Without repeat-all exactly the first n - 1 advances of a cycle succeed. */
  lemma {:induction false} FiniteCycleEnds<T>(q: Queue<T>, source: Source, from: nat, t: nat)
    requires CycleStart(q) && q.repeat != All
    ensures |q.shuffleOrder| == |q.tracks|
    ensures After(q, source, from, t) == InCycle(q, if t < |q.tracks| then t else |q.tracks| - 1)
    ensures Advance(After(q, source, from, t), source(from + t)).1 <==> t + 1 < |q.tracks|
  {
    hide Advance, Valid;
    CycleFacts(q);
    if t > 0 { FiniteCycleEnds(q, source, from, t - 1); }
    if 0 < t < |q.tracks| { AdvanceInCycle(q, t - 1, source(from + t - 1)); }
    if |q.tracks| <= t { AdvancePastCycle(q, source(from + t - 1)); }
    if t + 1 < |q.tracks| { AdvanceInCycle(q, t, source(from + t)); } else { AdvancePastCycle(q, source(from + t)); }
  }
}
