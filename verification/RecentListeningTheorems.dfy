/**
  The sampler against a simple account of the same run: what is counted, what qualifies, in which
  order the history stands, and which track each residue of the entropy chooses.
*/
module RecentListeningTheorems {
  import opened Basics
  import opened RecentListeningSpec

  // ----- What one observation counts

  /** Milliseconds between two observations of one track that were really played: no pause, no gap, no jump. */
  function Credit(from: nat, position: nat, to: nat, reached: nat, played: bool): nat {
    var elapsed := if from <= to then to - from else 0;
    var gained := if position <= reached then reached - position else 0;
    if !played || elapsed > 5_000 || gained > elapsed + 1_000 then 0
    else if gained <= elapsed then gained
    else elapsed
  }

  /** The counted time grows by exactly that, and starts again with another track. */
  lemma CountsExactly(s: State, track: Track, position: nat, playing: bool, now: nat)
    ensures var next := Observe(s, Some(track), position, playing, now);
      next.listenedMs ==
      if s.sample.Some? && s.sample.value.id == track.id then
        s.listenedMs
        + Credit(s.sample.value.time, s.sample.value.position, now, position, playing && s.sample.value.playing)
      else 0
  {
    hide Remember, Threshold;
  }

  /** Half the track counts as listened to, but no less than one second and no more than thirty. */
  lemma ThresholdIs(track: Track)
    ensures track.durationSeconds.None? ==> Threshold(track) == 30_000
    ensures track.durationSeconds.Some? ==>
      var seconds := track.durationSeconds.value;
      (seconds <= 2 ==> Threshold(track) == 1_000)
      && (2 <= seconds <= 60 ==> Threshold(track) == 500 * seconds)
      && (seconds >= 60 ==> Threshold(track) == 30_000)
  {
  }

  // ----- The simple account of a run

  /** The observation made last, if a track was observed then. */
  function LastSeen(events: seq<Event>): Option<Event>
    decreases |events|
  {
    if events == [] then None
    else
      var e := events[|events| - 1];
      if e.Choice? then LastSeen(events[..|events| - 1])
      else if e.track.None? then None
      else Some(e)
  }

  /** Does the last event go on observing the track seen before it? */
  predicate GoesOn(events: seq<Event>)
    requires events != []
  {
    var e, seen := events[|events| - 1], LastSeen(events[..|events| - 1]);
    e.Observation? && e.track.Some? && seen.Some? && seen.value.Observation? && seen.value.track.Some?
    && seen.value.track.value.id == e.track.value.id
  }

  function Audible(events: seq<Event>): nat
    decreases |events|
  {
    if events == [] then 0
    else
      var before, e := events[..|events| - 1], events[|events| - 1];
      if e.Choice? then Audible(before)
      else if GoesOn(events) then
        var seen := LastSeen(before).value;
        Audible(before) + Credit(seen.now, seen.position, e.now, e.position, e.playing && seen.playing)
      else 0
  }

  /** The track observed now has been listened to, at this observation or an earlier one of the same listening. */
  predicate Reached(events: seq<Event>)
    decreases |events|
  {
    events != []
    && var before, e := events[..|events| - 1], events[|events| - 1];
    if e.Choice? then Reached(before)
    else e.track.Some? && ((GoesOn(events) && Reached(before)) || Audible(events) >= Threshold(e.track.value))
  }

  /** To the front, from wherever it stood; the thirty first remain. */
  function ToFront(tracks: seq<Track>, track: Track): seq<Track> {
    var p := PositionOf(tracks, track.id);
    var moved := [track] + if p < |tracks| then tracks[..p] + tracks[p + 1..] else tracks;
    if |moved| > 30 then moved[..30] else moved
  }

  function PositionOf(tracks: seq<Track>, id: nat): (p: nat)
    ensures p <= |tracks| && (p < |tracks| ==> tracks[p].id == id)
    ensures forall k :: 0 <= k < p ==> tracks[k].id != id
  {
    if tracks == [] || tracks[0].id == id then 0 else 1 + PositionOf(tracks[1..], id)
  }

  function History(events: seq<Event>): seq<Track>
    decreases |events|
  {
    if events == [] then []
    else
      var before, e := events[..|events| - 1], events[|events| - 1];
      if e.Observation? && e.track.Some? && Reached(events) && !(GoesOn(events) && Reached(before)) then
        ToFront(History(before), e.track.value)
      else History(before)
  }

  lemma {:induction false} OthersWithout(tracks: seq<Track>, id: nat)
    requires Distinct(tracks)
    ensures var p := PositionOf(tracks, id);
      Others(tracks, id) == if p < |tracks| then tracks[..p] + tracks[p + 1..] else tracks
  {
    if tracks != [] {
      if tracks[0].id == id {
        NoneLeft(tracks[1..], id);
      } else {
        OthersWithout(tracks[1..], id);
      }
    }
  }

  lemma {:induction false} NoneLeft(tracks: seq<Track>, id: nat)
    requires forall t :: t in tracks ==> t.id != id
    ensures Others(tracks, id) == tracks
  {
    if tracks != [] {
      NoneLeft(tracks[1..], id);
    }
  }

  lemma RememberIsToFront(tracks: seq<Track>, track: Track)
    requires Distinct(tracks)
    ensures Remember(tracks, track) == ToFront(tracks, track)
  {
    OthersWithout(tracks, track.id);
  }

  predicate SampleOf(e: Event, sample: Sample) {
    e.Observation? && e.track.Some? && sample == Sample(e.track.value.id, e.position, e.now, e.playing)
  }

  /** The state is what the account says. */
  predicate Accounts(events: seq<Event>, s: State) {
    var seen := LastSeen(events);
    s.listenedMs == Audible(events) && s.qualified == Reached(events) && s.tracks == History(events)
    && (s.sample.Some? <==> seen.Some?)
    && (seen.Some? ==> SampleOf(seen.value, s.sample.value))
  }

  lemma ObservationAccounts(before: seq<Event>, e: Event, s: State)
    requires Accounts(before, s) && Distinct(s.tracks) && e.Observation? && e.track.Some?
    ensures Accounts(before + [e], Observe(s, e.track, e.position, e.playing, e.now))
  {
    hide Threshold, Heard, Remember, ToFront, Distinct, Credit;
    assert (before + [e])[..|before|] == before && (before + [e])[|before|] == e;
    CountsExactly(s, e.track.value, e.position, e.playing, e.now);
    RememberIsToFront(s.tracks, e.track.value);
  }

  lemma OtherAccounts(before: seq<Event>, e: Event, s: State)
    requires Accounts(before, s) && (e.Choice? || e.track.None?)
    ensures Accounts(before + [e], Step(s, e))
  {
    hide Candidates, Pick, Total;
    assert (before + [e])[..|before|] == before && (before + [e])[|before|] == e;
  }

  /** Over every run the counted time, the qualification and the history are those of the simple account. */
  lemma {:induction false} RunAccounts(events: seq<Event>)
    ensures Accounts(events, Run(FRESH, events))
    decreases |events|
  {
    if events == [] {
    } else {
      hide Accounts, Step, Distinct;
      var before, e := events[..|events| - 1], events[|events| - 1];
      assert events == before + [e];
      RunAccounts(before);
      HistoryIsDistinctAndBounded(before);
      if e.Observation? && e.track.Some? {
        ObservationAccounts(before, e, Run(FRESH, before));
        StepObserves(Run(FRESH, before), e);
      } else {
        OtherAccounts(before, e, Run(FRESH, before));
      }
    }
  }

  lemma StepObserves(s: State, e: Event)
    requires e.Observation?
    ensures Step(s, e) == Observe(s, e.track, e.position, e.playing, e.now)
  {
  }

  // ----- A track listened to stands first

  lemma FrontOf(tracks: seq<Track>, track: Track)
    ensures ToFront(tracks, track) != [] && ToFront(tracks, track)[0] == track
  {
  }

  lemma {:induction false} ReachedStandsFirst(events: seq<Event>)
    requires Reached(events)
    ensures LastSeen(events).Some? && LastSeen(events).value.Observation? && LastSeen(events).value.track.Some?
    ensures History(events) != [] && History(events)[0].id == LastSeen(events).value.track.value.id
    decreases |events|
  {
    hide ToFront, Threshold, Audible;
    var before, e := events[..|events| - 1], events[|events| - 1];
    if e.Choice? || (GoesOn(events) && Reached(before)) {
      ReachedStandsFirst(before);
    } else {
      FrontOf(History(before), e.track.value);
    }
  }

  /** Over every run: once the track observed now has been listened to, it stands first in the history. */
  lemma ListenedStandsFirst(events: seq<Event>)
    requires Reached(events)
    ensures var h := Run(FRESH, events).tracks; h != [] && Some(h[0].id) == Playing(Run(FRESH, events))
  {
    hide Run, Reached, History, Audible;
    RunAccounts(events);
    ReachedStandsFirst(events);
  }

  /** Observations of one track, playing, its position following the clock in steps of at most five seconds. */
  predicate PlayingAlong(ticks: seq<Event>, track: Track) {
    (forall i :: 0 <= i < |ticks| ==> ticks[i].Observation? && ticks[i].track == Some(track) && ticks[i].playing)
    && (forall i, j :: 0 <= i < |ticks| && j == i + 1 && j < |ticks| ==>
        ticks[i].now <= ticks[j].now <= ticks[i].now + 5_000
        && ticks[j].position == ticks[i].position + (ticks[j].now - ticks[i].now))
  }

  lemma {:induction false} PlayingCounts(before: seq<Event>, ticks: seq<Event>, track: Track)
    requires PlayingAlong(ticks, track) && ticks != []
    ensures LastSeen(before + ticks) == Some(ticks[|ticks| - 1])
    ensures ticks[0].now <= ticks[|ticks| - 1].now
    ensures Audible(before + ticks) >= ticks[|ticks| - 1].now - ticks[0].now
    decreases |ticks|
  {
    var n := |ticks| - 1;
    assert (before + ticks)[..|before + ticks| - 1] == before + ticks[..n];
    assert (before + ticks)[|before + ticks| - 1] == ticks[n];
    if n > 0 {
      PlayingCounts(before, ticks[..n], track);
      assert ticks[n - 1].now <= ticks[n].now <= ticks[n - 1].now + 5_000;
    }
  }

  lemma LongEnough(events: seq<Event>, track: Track)
    requires LastSeen(events).Some? && events != [] && events[|events| - 1].Observation?
    requires events[|events| - 1].track == Some(track) && Audible(events) >= Threshold(track)
    ensures Reached(events)
  {
    hide Threshold, Audible;
  }

  /** After any run at all, a track that plays along for its threshold of time stands first in the history. */
  lemma PlayedTrackIsRemembered(before: seq<Event>, ticks: seq<Event>, track: Track)
    requires PlayingAlong(ticks, track) && ticks != []
    requires ticks[|ticks| - 1].now >= ticks[0].now + Threshold(track)
    ensures var h := Run(FRESH, before + ticks).tracks; h != [] && h[0].id == track.id
  {
    PlayingCounts(before, ticks, track);
    assert (before + ticks)[|before + ticks| - 1] == ticks[|ticks| - 1];
    LongEnough(before + ticks, track);
    RunAccounts(before + ticks);
    ReachedStandsFirst(before + ticks);
  }

  // ----- Which track a choice falls on

  /**
    Neither the last seed nor the playing track, if any track is neither; else not the seed, if any is not; else
    any.
  */
  predicate Eligible(s: State, i: nat) {
    i < |s.tracks|
    && if exists k :: 0 <= k < |s.tracks| && Neither(s, k) then Neither(s, i)
       else if exists k :: 0 <= k < |s.tracks| && !Is(s.tracks[k].id, s.previousSeed) then
         !Is(s.tracks[i].id, s.previousSeed)
       else true
  }

  predicate Neither(s: State, i: nat)
    requires i < |s.tracks|
  {
    s.previousSeed != Some(s.tracks[i].id) && Playing(s) != Some(s.tracks[i].id)
  }

  lemma InAvoiding(tracks: seq<Track>, a: Option<nat>, b: Option<nat>, i: nat)
    ensures i in Avoiding(tracks, 0, a, b) <==> i < |tracks| && !Is(tracks[i].id, a) && !Is(tracks[i].id, b)
  {
    AvoidingIsAllowed(tracks, 0, a, b);
    if i < |tracks| && !Is(tracks[i].id, a) && !Is(tracks[i].id, b) {
      AvoidingIsComplete(tracks, 0, a, b, i);
    }
    hide Avoiding;
  }

  lemma SomeCandidate(s: State, a: Option<nat>, b: Option<nat>)
    ensures Avoiding(s.tracks, 0, a, b) != [] <==>
      exists k :: 0 <= k < |s.tracks| && !Is(s.tracks[k].id, a) && !Is(s.tracks[k].id, b)
  {
    var c := Avoiding(s.tracks, 0, a, b);
    hide Avoiding;
    if c != [] {
      InAvoiding(s.tracks, a, b, c[0]);
      assert c[0] in c;
    }
    if k :| 0 <= k < |s.tracks| && !Is(s.tracks[k].id, a) && !Is(s.tracks[k].id, b) {
      InAvoiding(s.tracks, a, b, k);
    }
  }

  /** The candidates are exactly the eligible tracks. */
  lemma CandidatesIff(s: State, i: nat)
    ensures i in Candidates(s) <==> Eligible(s, i)
  {
    hide Avoiding;
    SomeCandidate(s, s.previousSeed, Playing(s));
    SomeCandidate(s, s.previousSeed, None);
    InAvoiding(s.tracks, s.previousSeed, Playing(s), i);
    InAvoiding(s.tracks, s.previousSeed, None, i);
    InAvoiding(s.tracks, None, None, i);
    NeitherIs(s);
  }

  lemma NeitherIs(s: State)
    ensures forall k :: 0 <= k < |s.tracks| ==>
      (Neither(s, k) <==> !Is(s.tracks[k].id, s.previousSeed) && !Is(s.tracks[k].id, Playing(s)))
  {
  }

  function EligibleWeight(s: State, from: nat): nat
    decreases |s.tracks| - from
  {
    if from >= |s.tracks| then 0
    else (if Eligible(s, from) then |s.tracks| - from else 0) + EligibleWeight(s, from + 1)
  }

  lemma {:induction false} TotalOfAvoiding(s: State, from: nat, a: Option<nat>, b: Option<nat>)
    requires from <= |s.tracks|
    requires forall i :: 0 <= i < |s.tracks| ==>
      (Eligible(s, i) <==> !Is(s.tracks[i].id, a) && !Is(s.tracks[i].id, b))
    ensures Total(|s.tracks|, Avoiding(s.tracks, from, a, b)) == EligibleWeight(s, from)
    decreases |s.tracks| - from
  {
    hide Eligible;
    if from < |s.tracks| {
      TotalOfAvoiding(s, from + 1, a, b);
      var rest := Avoiding(s.tracks, from + 1, a, b);
      assert [] + rest == rest;
      assert ([from] + rest)[1..] == rest;
    }
  }

  lemma TotalIsEligibleWeight(s: State)
    ensures Total(|s.tracks|, Candidates(s)) == EligibleWeight(s, 0)
  {
    hide Avoiding, Total, EligibleWeight;
    SomeCandidate(s, s.previousSeed, Playing(s));
    SomeCandidate(s, s.previousSeed, None);
    NeitherIs(s);
    if Avoiding(s.tracks, 0, s.previousSeed, Playing(s)) != [] {
      TotalOfAvoiding(s, 0, s.previousSeed, Playing(s));
    } else if Avoiding(s.tracks, 0, s.previousSeed, None) != [] {
      TotalOfAvoiding(s, 0, s.previousSeed, None);
    } else {
      TotalOfAvoiding(s, 0, None, None);
    }
  }

  /** How many entropies below `bound` choose a track. */
  ghost function Chosen(s: State, i: nat, bound: nat): nat
    requires i < |s.tracks|
  {
    if bound == 0 then 0
    else Chosen(s, i, bound - 1) + if Choose(s, bound - 1).1 == Some(s.tracks[i]) then 1 else 0
  }

  lemma SmallResidue(x: nat, n: nat)
    requires x < n
    ensures x % n == x
  {
  }

  lemma ChoiceIsPick(s: State, entropy: nat)
    requires entropy < Total(|s.tracks|, Candidates(s))
    ensures var p := Pick(|s.tracks|, Candidates(s), entropy);
      p.Some? && p.value < |s.tracks| && Choose(s, entropy).1 == Some(s.tracks[p.value])
  {
    hide Candidates, Pick, Total, Indexes;
    CandidatesFacts(s);
    PickedWithinTotal(|s.tracks|, Candidates(s), entropy);
    IndexesBounded(|s.tracks|, Candidates(s), Pick(|s.tracks|, Candidates(s), entropy).value);
    SmallResidue(entropy, Total(|s.tracks|, Candidates(s)));
  }

  lemma SameTrack(tracks: seq<Track>, i: nat, j: nat)
    requires Distinct(tracks) && i < |tracks| && j < |tracks|
    ensures tracks[i] == tracks[j] <==> i == j
  {
  }

  lemma ChoosesWhatIsPicked(s: State, i: nat, entropy: nat)
    requires Distinct(s.tracks) && i < |s.tracks| && entropy < Total(|s.tracks|, Candidates(s))
    ensures Choose(s, entropy).1 == Some(s.tracks[i]) <==> Pick(|s.tracks|, Candidates(s), entropy) == Some(i)
  {
    hide Candidates, Pick, Total, Choose, Distinct;
    ChoiceIsPick(s, entropy);
    SameTrack(s.tracks, i, Pick(|s.tracks|, Candidates(s), entropy).value);
  }

  lemma {:induction false} ChosenIsDraws(s: State, i: nat, bound: nat)
    requires Distinct(s.tracks) && i < |s.tracks| && bound <= Total(|s.tracks|, Candidates(s))
    ensures Chosen(s, i, bound) == Draws(|s.tracks|, Candidates(s), i, bound)
  {
    hide Candidates, Pick, Total, Choose, Distinct;
    if bound > 0 {
      ChosenIsDraws(s, i, bound - 1);
      ChoosesWhatIsPicked(s, i, bound - 1);
    }
  }

  lemma {:induction false} NotDrawn(n: nat, candidates: seq<nat>, index: nat, bound: nat)
    requires index !in candidates
    ensures Draws(n, candidates, index, bound) == 0
  {
    if bound > 0 {
      NotDrawn(n, candidates, index, bound - 1);
      NotPicked(n, candidates, bound - 1, index);
    }
  }

  /**
    Of `EligibleWeight` entropies in a row from 0, exactly `length - index` choose an eligible track and none
    chooses another.
  */
  lemma WeightedChoice(s: State, i: nat)
    requires Distinct(s.tracks) && i < |s.tracks|
    ensures Chosen(s, i, EligibleWeight(s, 0)) == if Eligible(s, i) then |s.tracks| - i else 0
  {
    hide Candidates, Total, EligibleWeight, Eligible, Chosen, Draws;
    TotalIsEligibleWeight(s);
    CandidatesIff(s, i);
    CandidatesFacts(s);
    ChosenIsDraws(s, i, EligibleWeight(s, 0));
    if i in Candidates(s) {
      var k :| 0 <= k < |Candidates(s)| && Candidates(s)[k] == i;
      DrawsMatchWeight(|s.tracks|, Candidates(s), k);
    } else {
      NotDrawn(|s.tracks|, Candidates(s), i, EligibleWeight(s, 0));
    }
  }

  /** And every entropy chooses what its residue chooses. */
  lemma ChoiceByResidue(s: State, entropy: nat)
    requires s.tracks != []
    ensures EligibleWeight(s, 0) > 0 && Choose(s, entropy) == Choose(s, entropy % EligibleWeight(s, 0))
  {
    hide Candidates, Total, EligibleWeight, Pick;
    TotalIsEligibleWeight(s);
    CandidatesFacts(s);
    TotalIsPositive(|s.tracks|, Candidates(s));
    ResidueOfResidue(entropy, EligibleWeight(s, 0));
  }

  lemma ResidueOfResidue(x: nat, n: nat)
    requires n > 0
    ensures (x % n) % n == x % n
  {
  }
}
