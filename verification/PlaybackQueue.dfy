/** The playback queue object: fields updated in place, each method proved against its value-level meaning. */
module PlaybackQueue {
  import opened Basics
  import opened PlaybackQueueSpec

  const DEFAULT_SHUFFLE_SEED: bv64 := 0x6a09_e667_f3bc_c909

  // ----- The 64-bit generator

  function NextState(state: bv64): bv64 {
    state + 0x9e37_79b9_7f4a_7c15
  }

  function Mix(state: bv64): bv64 {
    var first := (state ^ (state >> 30)) * 0xbf58_476d_1ce4_e5b9;
    var second := (first ^ (first >> 27)) * 0x94d0_49bb_1331_11eb;
    second ^ (second >> 31)
  }

  /** The generator is splitmix64: its first numbers from zero. */
  lemma FirstDraws()
    ensures Mix(NextState(0)) == 0xe220_a839_7b1d_cdaf
    ensures Mix(NextState(NextState(0))) == 0x6e78_9e6a_a1b9_65f4
  {
  }

  function StateAfter(state: bv64, n: nat): bv64 {
    if n == 0 then state else NextState(StateAfter(state, n - 1))
  }

  function DrawnAt(state: bv64, k: nat): nat {
    Mix(StateAfter(state, k + 1)) as nat
  }

  /** The first n numbers the generator yields from `state`. */
  function DrawsFrom(state: bv64, n: nat): seq<nat> {
    if n == 0 then [] else DrawsFrom(state, n - 1) + [DrawnAt(state, n - 1)]
  }

  lemma {:induction false} DrawsFromAt(state: bv64, n: nat, k: nat)
    requires k < n
    ensures |DrawsFrom(state, n)| == n && DrawAt(DrawsFrom(state, n), k) == DrawnAt(state, k)
  {
    hide DrawnAt;
    if k < n - 1 { DrawsFromAt(state, n - 1, k); } else { DrawsFromLength(state, n - 1); }
  }

  lemma {:induction false} DrawsFromLength(state: bv64, n: nat)
    ensures |DrawsFrom(state, n)| == n
  {
    hide DrawnAt;
    if n > 0 { DrawsFromLength(state, n - 1); }
  }

  /** A shuffle of n positions draws n - 1 numbers. */
  function DrawCount(n: nat): nat {
    if n == 0 then 0 else n - 1
  }

  /** The generator once the cycle of a queue was rebuilt: one draw per swap, none without a cycle. */
  function Rebuilding<T>(q: Queue<T>, state: bv64): bv64 {
    if q.order == Shuffle && q.current.Some? && q.tracks != [] then StateAfter(state, DrawCount(|q.tracks| - 1))
    else state
  }

  class PlaybackQueue<T> {
    var tracks: seq<T>
    var currentIndex: Option<nat>
    var order: Order
    var repeatMode: Repeat
    var shuffleOrder: seq<nat>
    var shuffleCursor: Option<nat>
    var shuffleState: bv64

    ghost function View(): Queue<T>
      reads this
    {
      Queue(tracks, currentIndex, order, repeatMode, shuffleOrder, shuffleCursor)
    }

    constructor WithShuffleSeed(seed: bv64)
      ensures View() == Empty<T>()
      ensures shuffleState == if seed == 0 then DEFAULT_SHUFFLE_SEED else seed
    {
      tracks, currentIndex := [], None;
      order, repeatMode := Sequential, Off;
      shuffleOrder, shuffleCursor := [], None;
      shuffleState := if seed == 0 then DEFAULT_SHUFFLE_SEED else seed;
    }

    method NextShuffleU64() returns (value: nat)
      modifies this`shuffleState
      ensures shuffleState == NextState(old(shuffleState))
      ensures value == Mix(shuffleState) as nat
    {
      shuffleState := NextState(shuffleState);
      value := Mix(shuffleState) as nat;
    }

    /** Fisher-Yates in place; `n` only names enough draws for the specification to speak about. */
    method ShufflePositions(ghost n: nat)
      requires |shuffleOrder| <= n
      modifies this`shuffleOrder, this`shuffleState
      ensures shuffleOrder == Shuffled(old(shuffleOrder), DrawsFrom(old(shuffleState), n))
      ensures shuffleState == StateAfter(old(shuffleState), DrawCount(|old(shuffleOrder)|))
    {
      hide DrawnAt, Mix, NextState;
      var upper: nat := |shuffleOrder|;
      ghost var draws := DrawsFrom(shuffleState, n);
      while 2 <= upper
        invariant upper <= |shuffleOrder| == |old(shuffleOrder)|
        invariant 1 <= |shuffleOrder| ==> 1 <= upper
        invariant FisherYates(shuffleOrder, upper, draws, |shuffleOrder| - upper) == Shuffled(old(shuffleOrder), draws)
        invariant shuffleState == StateAfter(old(shuffleState), |shuffleOrder| - upper)
      {
        ghost var k := |shuffleOrder| - upper;
        var drawn: nat := NextDraw(old(shuffleState), n, k);
        var swap := drawn % upper;
        shuffleOrder := Swap(shuffleOrder, upper - 1, swap);
        upper := upper - 1;
      }
    }

    method NextDraw(ghost start: bv64, ghost n: nat, ghost k: nat) returns (value: nat)
      requires k < n && shuffleState == StateAfter(start, k)
      modifies this`shuffleState
      ensures shuffleState == StateAfter(start, k + 1)
      ensures value == DrawAt(DrawsFrom(start, n), k)
    {
      DrawsFromAt(start, n, k);
      value := NextShuffleU64();
    }

    method RebuildShuffleCycle()
      requires currentIndex.Some? <==> tracks != []
      requires currentIndex.Some? ==> currentIndex.value < |tracks|
      modifies this`shuffleOrder, this`shuffleCursor, this`shuffleState
      ensures View() == Rebuilt(old(View()), DrawsFrom(old(shuffleState), |tracks|))
      ensures shuffleState == Rebuilding(View(), old(shuffleState))
    {
      hide DrawnAt, Mix, NextState;
      shuffleOrder, shuffleCursor := [], None;
      if order != Shuffle || currentIndex.None? { return; }
      var current := currentIndex.value;
      shuffleOrder := Others(|tracks|, current);
      ShufflePositions(|tracks|);
      shuffleOrder := [current] + shuffleOrder;
      shuffleCursor := Some(0);
    }

    method StartNextShuffleCycle()
      requires currentIndex.Some? && tracks != []
      modifies this`shuffleOrder, this`shuffleCursor, this`currentIndex, this`shuffleState
      ensures var cycle := NextCycle(|tracks|, old(currentIndex.value), DrawsFrom(old(shuffleState), |tracks|));
              |cycle| == |tracks| &&
              View() == old(View()).(shuffleOrder := cycle, cursor := Some(0), current := Some(cycle[0]))
      ensures shuffleState == StateAfter(old(shuffleState), DrawCount(|tracks|))
    {
      hide DrawnAt, Mix, NextState;
      var current := currentIndex.value;
      NextCycleFacts(|tracks|, current, DrawsFrom(shuffleState, |tracks|));
      shuffleOrder := Positions(|tracks|);
      ShufflePositions(|tracks|);
      if |shuffleOrder| > 1 && shuffleOrder[0] == current {
        shuffleOrder := Swap(shuffleOrder, 0, 1);
      }
      shuffleCursor := Some(0);
      currentIndex := Some(shuffleOrder[0]);
    }

    method Replace(newTracks: seq<T>, current: Option<nat>) returns (error: Option<QueueError>)
      requires Valid(View())
      modifies this
      ensures (View(), error) == PlaybackQueueSpec.Replace(old(View()), newTracks, current,
          DrawsFrom(old(shuffleState), |newTracks|))
      ensures shuffleState == if error.Some? then old(shuffleState) else Rebuilding(View(), old(shuffleState))
    {
      hide DrawnAt, Mix, NextState;
      error := PositionError(|newTracks|, current);
      if error.Some? { return; }
      tracks := newTracks;
      currentIndex := current;
      RebuildShuffleCycle();
    }

    method SetOrder(newOrder: Order) returns (changed: bool)
      requires Valid(View())
      modifies this
      ensures (View(), changed) == PlaybackQueueSpec.SetOrder(old(View()), newOrder, DrawsFrom(old(shuffleState),
          |tracks|))
      ensures shuffleState == if !changed then old(shuffleState) else Rebuilding(View(), old(shuffleState))
    {
      hide DrawnAt, Mix, NextState;
      if order == newOrder { return false; }
      order := newOrder;
      RebuildShuffleCycle();
      changed := true;
    }

    method SetRepeatMode(mode: Repeat) returns (changed: bool)
      requires Valid(View())
      modifies this`repeatMode
      ensures (View(), changed) == SetRepeat(old(View()), mode)
    {
      if repeatMode == mode { return false; }
      repeatMode := mode;
      changed := true;
    }

    method Select(index: nat) returns (changed: bool, error: Option<QueueError>)
      requires Valid(View())
      modifies this
      ensures (View(), changed, error) == PlaybackQueueSpec.Select(old(View()), index,
          DrawsFrom(old(shuffleState), |tracks|))
      ensures shuffleState == if !changed then old(shuffleState) else Rebuilding(View(), old(shuffleState))
    {
      hide DrawnAt, Mix, NextState;
      if index >= |tracks| { return false, Some(CurrentOutOfBounds(index, |tracks|)); }
      error := None;
      changed := currentIndex != Some(index);
      currentIndex := Some(index);
      if changed { RebuildShuffleCycle(); }
    }

    method AdvanceShuffle() returns (moved: bool)
      requires Valid(View()) && tracks != [] && order == Shuffle
      modifies this
      ensures (View(), moved) == PlaybackQueueSpec.Advance(old(View()), DrawsFrom(old(shuffleState), |tracks|))
      ensures shuffleState == if StartsNewCycle(old(View()))
                              then StateAfter(old(shuffleState), DrawCount(|tracks|)) else old(shuffleState)
    {
      hide DrawnAt, Mix, NextState;
      PermutationFacts(shuffleOrder, |tracks|);
      var cursor := shuffleCursor.value;
      if cursor + 1 < |shuffleOrder| {
        var next := cursor + 1;
        shuffleCursor := Some(next);
        currentIndex := Some(shuffleOrder[next]);
        return true;
      }
      if repeatMode != All { return false; }
      StartNextShuffleCycle();
      moved := true;
    }

    method Advance() returns (moved: bool)
      requires Valid(View())
      modifies this
      ensures (View(), moved) == PlaybackQueueSpec.Advance(old(View()), DrawsFrom(old(shuffleState), |tracks|))
      ensures shuffleState == if StartsNewCycle(old(View()))
                              then StateAfter(old(shuffleState), DrawCount(|tracks|)) else old(shuffleState)
    {
      hide DrawnAt, Mix, NextState;
      if tracks == [] { return false; }
      if order == Sequential {
        var current := currentIndex.value;
        if current + 1 < |tracks| {
          currentIndex := Some(current + 1);
          moved := true;
        } else if repeatMode == All {
          currentIndex := Some(0);
          moved := true;
        } else {
          moved := false;
        }
      } else {
        moved := AdvanceShuffle();
      }
    }

    method Rewind() returns (moved: bool)
      requires Valid(View())
      modifies this`currentIndex, this`shuffleCursor
      ensures (View(), moved) == PlaybackQueueSpec.Rewind(old(View()))
    {
      if tracks == [] { return false; }
      if order == Sequential {
        var current := currentIndex.value;
        if current > 0 {
          currentIndex := Some(current - 1);
          return true;
        }
        if repeatMode != All { return false; }
        currentIndex := Some(|tracks| - 1);
        return true;
      }
      PermutationFacts(shuffleOrder, |tracks|);
      var cursor := shuffleCursor.value;
      if cursor > 0 {
        var previous := cursor - 1;
        shuffleCursor := Some(previous);
        currentIndex := Some(shuffleOrder[previous]);
        return true;
      }
      if repeatMode != All { return false; }
      var previous := |shuffleOrder| - 1;
      shuffleCursor := Some(previous);
      currentIndex := Some(shuffleOrder[previous]);
      moved := true;
    }

    method CompleteCurrent() returns (action: Completion)
      requires Valid(View())
      modifies this
      ensures (View(), action) ==
              PlaybackQueueSpec.CompleteCurrent(old(View()), DrawsFrom(old(shuffleState), |tracks|))
      ensures shuffleState == if action != ReplayCurrent && StartsNewCycle(old(View()))
                              then StateAfter(old(shuffleState), DrawCount(|tracks|)) else old(shuffleState)
    {
      hide DrawnAt, Mix, NextState;
      if currentIndex.Some? && repeatMode == One { return ReplayCurrent; }
      var moved := Advance();
      action := if moved then PlayCurrent else Nothing;
    }

    method Push(track: T) returns (becameCurrent: bool)
      requires Valid(View())
      modifies this
      ensures View() == Appended(old(View()), [track], DrawsFrom(old(shuffleState), |tracks|))
      ensures shuffleState == Rebuilding(View(), old(shuffleState))
      ensures becameCurrent <==> old(currentIndex).None?
    {
      hide DrawnAt, Mix, NextState;
      becameCurrent := currentIndex.None?;
      tracks := tracks + [track];
      if becameCurrent { currentIndex := Some(0); }
      RebuildShuffleCycle();
    }

    method Extend(more: seq<T>) returns (becameCurrent: bool, error: Option<QueueError>)
      requires Valid(View())
      modifies this
      ensures (View(), becameCurrent, error) ==
              PlaybackQueueSpec.Extend(old(View()), more, DrawsFrom(old(shuffleState), |tracks|))
      ensures shuffleState == if error.Some? then old(shuffleState) else Rebuilding(View(), old(shuffleState))
    {
      hide DrawnAt, Mix, NextState;
      if more == [] { return false, Some(EmptyExtension); }
      error := None;
      becameCurrent := currentIndex.None?;
      tracks := tracks + more;
      if becameCurrent { currentIndex := Some(0); }
      RebuildShuffleCycle();
    }

    method ExtendAndAdvanceFromTerminal(more: seq<T>) returns (error: Option<QueueError>)
      requires Valid(View())
      modifies this
      ensures (View(), error) == Continue(old(View()), more, DrawsFrom(old(shuffleState), |tracks|))
      ensures shuffleState == if error.Some? then old(shuffleState) else Rebuilding(View(), old(shuffleState))
    {
      hide DrawnAt, Mix, NextState;
      if more == [] { return Some(EmptyContinuation); }
      if currentIndex.None? { return Some(ContinuationRequiresTerminal); }
      if order != Sequential || repeatMode != Off || currentIndex.value + 1 != |tracks| {
        return Some(ContinuationRequiresTerminal);
      }
      error := None;
      var firstAppended := |tracks|;
      tracks := tracks + more;
      currentIndex := Some(firstAppended);
      RebuildShuffleCycle();
    }

    method Remove(index: nat) returns (removal: Option<(T, bool)>)
      requires Valid(View())
      modifies this
      ensures (View(), removal) == PlaybackQueueSpec.Remove(old(View()), index, DrawsFrom(old(shuffleState), |tracks|))
      ensures shuffleState == if removal.None? then old(shuffleState) else Rebuilding(View(), old(shuffleState))
    {
      hide DrawnAt, Mix, NextState;
      if index >= |tracks| { return None; }
      removal := Some((tracks[index], currentIndex == Some(index)));
      tracks := tracks[..index] + tracks[index + 1..];
      currentIndex := CurrentAfterRemoval(currentIndex.value, index, |tracks|);
      RebuildShuffleCycle();
    }

    method Clear()
      modifies this`tracks, this`currentIndex, this`shuffleOrder, this`shuffleCursor
      ensures View() == PlaybackQueueSpec.Clear(old(View()))
    {
      tracks, currentIndex := [], None;
      shuffleOrder, shuffleCursor := [], None;
    }

    method HasNext() returns (has: bool)
      ensures has == PlaybackQueueSpec.HasNext(View())
    {
      var hasPosition: bool;
      if order == Sequential {
        hasPosition := currentIndex.Some? && currentIndex.value + 1 < |tracks|;
      } else {
        hasPosition := shuffleCursor.Some? && shuffleCursor.value + 1 < |shuffleOrder|;
      }
      has := hasPosition || (repeatMode == All && tracks != []);
    }

    method HasPrevious() returns (has: bool)
      ensures has == PlaybackQueueSpec.HasPrevious(View())
    {
      var hasPosition: bool;
      if order == Sequential {
        hasPosition := currentIndex.Some? && currentIndex.value > 0;
      } else {
        hasPosition := shuffleCursor.Some? && shuffleCursor.value > 0;
      }
      has := hasPosition || (repeatMode == All && tracks != []);
    }
  }
}
