/**
  The recent-listening sampler: history keeps the thirty tracks last really listened to,
  and a choice weighs them by recency, away from the last seed and the playing track
  whenever history offers another.
*/
module RecentListeningSpec {
  import opened Basics

  const HISTORY: nat := 30
  const MAX_GAP_MS: nat := 5_000
  const TOLERANCE_MS: nat := 1_000

  datatype Track = Track(id: nat, durationSeconds: Option<nat>)

  datatype Sample = Sample(id: nat, position: nat, time: nat, playing: bool)

  datatype State = State(tracks: seq<Track>, sample: Option<Sample>, listenedMs: nat, qualified: bool,
                         previousSeed: Option<nat>)

  const FRESH: State := State([], None, 0, false, None)

  // ----- Observing

  /** Half the track, but at least one and at most thirty seconds. */
  function Threshold(track: Track): nat {
    match track.durationSeconds
    case None => 30_000
    case Some(seconds) =>
      var half := seconds * 500;
      if half < 1_000 then 1_000 else if half > 30_000 then 30_000 else half
  }

  function Ahead(a: nat, b: nat): nat {
    if b <= a then a - b else 0
  }

  /** Milliseconds that count: both samples playing, no long gap, no jump ahead of the clock. */
  function Heard(sample: Sample, position: nat, playing: bool, now: nat): nat {
    var elapsed := Ahead(now, sample.time);
    var advanced := Ahead(position, sample.position);
    if playing && sample.playing && elapsed <= MAX_GAP_MS && advanced <= elapsed + TOLERANCE_MS then
      if advanced <= elapsed then advanced else elapsed
    else 0
  }

  function Others(tracks: seq<Track>, id: nat): seq<Track> {
    if tracks == [] then []
    else if tracks[0].id == id then Others(tracks[1..], id)
    else [tracks[0]] + Others(tracks[1..], id)
  }

  function Newest(tracks: seq<Track>): seq<Track> {
    if |tracks| > HISTORY then tracks[..HISTORY] else tracks
  }

  function Remember(tracks: seq<Track>, track: Track): seq<Track> {
    Newest([track] + Others(tracks, track.id))
  }

  function Observe(s: State, track: Option<Track>, position: nat, playing: bool, now: nat): State {
    if track.None? then s.(sample := None, listenedMs := 0, qualified := false)
    else
      var t := track.value;
      var same := s.sample.Some? && s.sample.value.id == t.id;
      var listened := if same then s.listenedMs + Heard(s.sample.value, position, playing, now) else 0;
      var wasQualified := same && s.qualified;
      var next := s.(sample := Some(Sample(t.id, position, now, playing)), listenedMs := listened);
      if !wasQualified && listened >= Threshold(t) then
        next.(qualified := true, tracks := Remember(s.tracks, t))
      else next.(qualified := wasQualified)
  }

  // ----- Choosing

  predicate Is(id: nat, other: Option<nat>) {
    other == Some(id)
  }

  /** Indexes from `from` on whose tracks are neither of the two. */
  function Avoiding(tracks: seq<Track>, from: nat, a: Option<nat>, b: Option<nat>): seq<nat>
    requires from <= |tracks|
    decreases |tracks| - from
  {
    if from == |tracks| then []
    else
      (if Is(tracks[from].id, a) || Is(tracks[from].id, b) then [] else [from]) + Avoiding(tracks, from + 1, a, b)
  }

  function Playing(s: State): Option<nat> {
    if s.sample.Some? then Some(s.sample.value.id) else None
  }

  function Candidates(s: State): seq<nat> {
    var best := Avoiding(s.tracks, 0, s.previousSeed, Playing(s));
    if best != [] then best
    else
      var fair := Avoiding(s.tracks, 0, s.previousSeed, None);
      if fair != [] then fair else Avoiding(s.tracks, 0, None, None)
  }

  function Weight(n: nat, index: nat): nat {
    if index < n then n - index else 0
  }

  function Total(n: nat, candidates: seq<nat>): nat {
    if candidates == [] then 0 else Weight(n, candidates[0]) + Total(n, candidates[1..])
  }

  /** The candidate whose interval of the cumulated weights holds the draw. */
  function Pick(n: nat, candidates: seq<nat>, draw: nat): Option<nat> {
    if candidates == [] then None
    else if draw < Weight(n, candidates[0]) then Some(candidates[0])
    else Pick(n, candidates[1..], draw - Weight(n, candidates[0]))
  }

  function Choose(s: State, entropy: nat): (State, Option<Track>) {
    var candidates := Candidates(s);
    var total := Total(|s.tracks|, candidates);
    if total == 0 then (s, None)
    else
      var picked := Pick(|s.tracks|, candidates, entropy % total);
      if picked.None? || picked.value >= |s.tracks| then (s, None)
      else (s.(previousSeed := Some(s.tracks[picked.value].id)), Some(s.tracks[picked.value]))
  }

  // ----- History over every run

  predicate Distinct(tracks: seq<Track>) {
    forall i, j :: 0 <= i < j < |tracks| ==> tracks[i].id != tracks[j].id
  }

  datatype Event =
    | Observation(track: Option<Track>, position: nat, playing: bool, now: nat)
    | Choice(entropy: nat)

  function Step(s: State, e: Event): State {
    match e
    case Observation(track, position, playing, now) => Observe(s, track, position, playing, now)
    case Choice(entropy) => Choose(s, entropy).0
  }

  function Run(s: State, events: seq<Event>): State
    decreases |events|
  {
    if events == [] then s else Step(Run(s, events[..|events| - 1]), events[|events| - 1])
  }

  lemma {:induction false} OthersFacts(tracks: seq<Track>, id: nat)
    requires Distinct(tracks)
    ensures Distinct(Others(tracks, id)) && |Others(tracks, id)| <= |tracks|
    ensures forall t :: t in Others(tracks, id) <==> t in tracks && t.id != id
  {
    if tracks != [] {
      OthersFacts(tracks[1..], id);
      assert tracks == [tracks[0]] + tracks[1..];
    }
  }

  lemma RememberFacts(tracks: seq<Track>, track: Track)
    requires Distinct(tracks)
    ensures var r := Remember(tracks, track); Distinct(r) && 1 <= |r| <= HISTORY && r[0] == track
  {
    OthersFacts(tracks, track.id);
  }

  /** After every run the history names each track once and never more than thirty. */
  lemma {:induction false} HistoryIsDistinctAndBounded(events: seq<Event>)
    ensures var h := Run(FRESH, events).tracks; Distinct(h) && |h| <= HISTORY
    decreases |events|
  {
    hide Distinct, Choose, Remember;
    if events == [] {
      NothingIsDistinct();
    } else {
      HistoryIsDistinctAndBounded(events[..|events| - 1]);
      var s, e := Run(FRESH, events[..|events| - 1]), events[|events| - 1];
      if e.Observation? && e.track.Some? {
        RememberFacts(s.tracks, e.track.value);
      }
      if e.Choice? {
        ChoiceKeepsHistory(s, e.entropy);
      }
    }
  }

  lemma NothingIsDistinct()
    ensures Distinct([])
  {
  }

  lemma ChoiceKeepsHistory(s: State, entropy: nat)
    ensures Choose(s, entropy).0.tracks == s.tracks
  {
  }

  // ----- Who can be chosen

  /** Strictly increasing indexes from `from` on, each allowed. */
  predicate Allowed(tracks: seq<Track>, from: nat, a: Option<nat>, b: Option<nat>, c: seq<nat>) {
    (forall k :: 0 <= k < |c| ==> from <= c[k] < |tracks| && !Is(tracks[c[k]].id, a) && !Is(tracks[c[k]].id, b))
    && (forall k, l :: 0 <= k < l < |c| ==> c[k] < c[l])
  }

  lemma AllowOneMore(tracks: seq<Track>, from: nat, a: Option<nat>, b: Option<nat>, c: seq<nat>)
    requires from < |tracks| && Allowed(tracks, from + 1, a, b, c)
    ensures Allowed(tracks, from, a, b, c)
    ensures !Is(tracks[from].id, a) && !Is(tracks[from].id, b) ==> Allowed(tracks, from, a, b, [from] + c)
  {
  }

  lemma {:induction false} AvoidingIsAllowed(tracks: seq<Track>, from: nat, a: Option<nat>, b: Option<nat>)
    requires from <= |tracks|
    ensures Allowed(tracks, from, a, b, Avoiding(tracks, from, a, b))
    decreases |tracks| - from
  {
    if from < |tracks| {
      var rest := Avoiding(tracks, from + 1, a, b);
      AvoidingIsAllowed(tracks, from + 1, a, b);
      AllowOneMore(tracks, from, a, b, rest);
      hide Allowed;
      assert Avoiding(tracks, from, a, b)
          == if Is(tracks[from].id, a) || Is(tracks[from].id, b) then rest else [from] + rest;
    }
  }

  lemma {:induction false} AvoidingIsComplete(tracks: seq<Track>, from: nat, a: Option<nat>, b: Option<nat>, i: nat)
    requires from <= i < |tracks| && !Is(tracks[i].id, a) && !Is(tracks[i].id, b)
    ensures i in Avoiding(tracks, from, a, b)
    decreases |tracks| - from
  {
    if from < i {
      AvoidingIsComplete(tracks, from + 1, a, b, i);
    }
  }

  predicate Indexes(n: nat, candidates: seq<nat>) {
    (forall k :: 0 <= k < |candidates| ==> candidates[k] < n)
    && (forall k, l :: 0 <= k < l < |candidates| ==> candidates[k] < candidates[l])
  }

  lemma AvoidingGivesIndexes(tracks: seq<Track>, a: Option<nat>, b: Option<nat>)
    ensures Indexes(|tracks|, Avoiding(tracks, 0, a, b))
  {
    AvoidingIsAllowed(tracks, 0, a, b);
    hide Avoiding;
  }

  lemma CandidatesFacts(s: State)
    ensures Indexes(|s.tracks|, Candidates(s)) && (Candidates(s) == [] <==> s.tracks == [])
    ensures forall k :: 0 <= k < |Candidates(s)| ==> Candidates(s)[k] < |s.tracks|
  {
    if s.tracks != [] {
      AvoidingIsComplete(s.tracks, 0, None, None, 0);
    } else {
      NoTracksNoCandidates(s.previousSeed, Playing(s));
      NoTracksNoCandidates(s.previousSeed, None);
      NoTracksNoCandidates(None, None);
    }
    hide Avoiding;
    AvoidingGivesIndexes(s.tracks, s.previousSeed, Playing(s));
    AvoidingGivesIndexes(s.tracks, s.previousSeed, None);
    AvoidingGivesIndexes(s.tracks, None, None);
  }

  lemma NoTracksNoCandidates(a: Option<nat>, b: Option<nat>)
    ensures Avoiding([], 0, a, b) == []
  {
  }

  lemma CandidateIsPreferred(s: State, index: nat)
    requires index in Candidates(s) && index < |s.tracks|
    ensures Preferred(s, s.tracks[index].id)
  {
    AvoidingIsAllowed(s.tracks, 0, s.previousSeed, Playing(s));
    AvoidingIsAllowed(s.tracks, 0, s.previousSeed, None);
    forall i | 0 <= i < |s.tracks| && !Is(s.tracks[i].id, s.previousSeed)
      ensures i in Avoiding(s.tracks, 0, s.previousSeed, None)
    {
      AvoidingIsComplete(s.tracks, 0, s.previousSeed, None, i);
    }
    forall i | 0 <= i < |s.tracks| && !Is(s.tracks[i].id, s.previousSeed) && !Is(s.tracks[i].id, Playing(s))
      ensures i in Avoiding(s.tracks, 0, s.previousSeed, Playing(s))
    {
      AvoidingIsComplete(s.tracks, 0, s.previousSeed, Playing(s), i);
    }
    hide Avoiding;
  }

  /** Not the previous seed if any track is not; nor the playing one if any track is neither. */
  predicate Preferred(s: State, id: nat) {
    ((exists i :: 0 <= i < |s.tracks| && !Is(s.tracks[i].id, s.previousSeed)) ==> !Is(id, s.previousSeed))
    && ((exists i :: 0 <= i < |s.tracks| && !Is(s.tracks[i].id, s.previousSeed) && !Is(s.tracks[i].id, Playing(s)))
        ==> !Is(id, Playing(s)))
  }

  // ----- Weighted choice

  function Before(n: nat, candidates: seq<nat>, k: nat): nat
    requires k <= |candidates|
  {
    Total(n, candidates[..k])
  }

  lemma {:induction false} TotalOfSplit(n: nat, a: seq<nat>, b: seq<nat>)
    ensures Total(n, a + b) == Total(n, a) + Total(n, b)
  {
    if a == [] {
      assert a + b == b;
    } else {
      TotalOfSplit(n, a[1..], b);
      assert (a + b)[1..] == a[1..] + b;
    }
  }

  /** Candidate `k` is picked exactly by the draws of its own interval. */
  lemma {:induction false} PickIff(n: nat, candidates: seq<nat>, k: nat, draw: nat)
    requires Indexes(n, candidates) && k < |candidates|
    ensures Pick(n, candidates, draw) == Some(candidates[k])
      <==> Before(n, candidates, k) <= draw < Before(n, candidates, k) + (n - candidates[k])
    decreases |candidates|
  {
    var rest := candidates[1..];
    var first := Weight(n, candidates[0]);
    if k == 0 {
      assert candidates[..0] == [];
      if draw >= first {
        NotPicked(n, rest, draw - first, candidates[0]);
      }
    } else {
      assert candidates[..k][1..] == rest[..k - 1];
      if draw >= first {
        PickIff(n, rest, k - 1, draw - first);
      }
    }
  }

  lemma {:induction false} NotPicked(n: nat, candidates: seq<nat>, draw: nat, index: nat)
    requires forall k :: 0 <= k < |candidates| ==> candidates[k] != index
    ensures Pick(n, candidates, draw) != Some(index)
  {
    if candidates != [] && draw >= Weight(n, candidates[0]) {
      NotPicked(n, candidates[1..], draw - Weight(n, candidates[0]), index);
    }
  }

  lemma {:induction false} PickedWithinTotal(n: nat, candidates: seq<nat>, draw: nat)
    requires draw < Total(n, candidates)
    ensures Pick(n, candidates, draw).Some? && Pick(n, candidates, draw).value in candidates
  {
    if draw >= Weight(n, candidates[0]) {
      PickedWithinTotal(n, candidates[1..], draw - Weight(n, candidates[0]));
    }
  }

  /** How many of the draws below `bound` pick an index. */
  ghost function Draws(n: nat, candidates: seq<nat>, index: nat, bound: nat): nat {
    if bound == 0 then 0
    else Draws(n, candidates, index, bound - 1) + if Pick(n, candidates, bound - 1) == Some(index) then 1 else 0
  }

  lemma {:induction false} DrawsOfInterval(n: nat, candidates: seq<nat>, k: nat, bound: nat)
    requires Indexes(n, candidates) && k < |candidates|
    ensures var low, size := Before(n, candidates, k), n - candidates[k];
      Draws(n, candidates, candidates[k], bound)
      == if bound <= low then 0 else if bound <= low + size then bound - low else size
  {
    if bound > 0 {
      DrawsOfInterval(n, candidates, k, bound - 1);
      PickIff(n, candidates, k, bound - 1);
    }
  }

  /** Of all residues, exactly as many pick a candidate as its distance from the end of the history. */
  lemma DrawsMatchWeight(n: nat, candidates: seq<nat>, k: nat)
    requires Indexes(n, candidates) && k < |candidates|
    ensures Draws(n, candidates, candidates[k], Total(n, candidates)) == n - candidates[k]
  {
    assert candidates[k] < n;
    hide Draws, Indexes;
    IntervalInTotal(n, candidates, k);
    DrawsOfInterval(n, candidates, k, Total(n, candidates));
  }

  lemma IntervalInTotal(n: nat, candidates: seq<nat>, k: nat)
    requires Indexes(n, candidates) && k < |candidates|
    ensures Before(n, candidates, k) + (n - candidates[k]) <= Total(n, candidates)
  {
    assert candidates == candidates[..k] + candidates[k..];
    TotalOfSplit(n, candidates[..k], candidates[k..]);
    assert candidates[k..][0] == candidates[k];
  }

  lemma TotalIsPositive(n: nat, candidates: seq<nat>)
    requires Indexes(n, candidates)
    ensures Total(n, candidates) > 0 <==> candidates != []
  {
  }

  /** A choice fails exactly on an empty history; otherwise it is a preferred track, which becomes the seed. */
  lemma ChoiceFacts(s: State, entropy: nat)
    ensures Choose(s, entropy).1.None? <==> s.tracks == []
    ensures var (next, chosen) := Choose(s, entropy);
      chosen.Some? ==>
        chosen.value in s.tracks && Preferred(s, chosen.value.id)
        && next == s.(previousSeed := Some(chosen.value.id))
  {
    hide Preferred, Indexes, Candidates, Pick, Total;
    CandidatesFacts(s);
    var c := Candidates(s);
    TotalIsPositive(|s.tracks|, c);
    var total := Total(|s.tracks|, c);
    if total > 0 {
      PickedWithinTotal(|s.tracks|, c, entropy % total);
      IndexesBounded(|s.tracks|, c, Pick(|s.tracks|, c, entropy % total).value);
      CandidateIsPreferred(s, Pick(|s.tracks|, c, entropy % total).value);
    }
  }

  lemma IndexesBounded(n: nat, candidates: seq<nat>, index: nat)
    requires Indexes(n, candidates) && index in candidates
    ensures index < n
  {
  }

  /** The track at a candidate index is chosen by exactly `length - index` of the entropy's residues. */
  lemma WeightedByRecency(s: State, k: nat, entropy: nat)
    requires k < |Candidates(s)|
    ensures var c := Candidates(s); var n := |s.tracks|;
      c[k] < n && Total(n, c) > 0 && Draws(n, c, c[k], Total(n, c)) == n - c[k]
      && (Pick(n, c, entropy % Total(n, c)) == Some(c[k]) ==> Choose(s, entropy).1 == Some(s.tracks[c[k]]))
  {
    CandidatesFacts(s);
    TotalIsPositive(|s.tracks|, Candidates(s));
    DrawsMatchWeight(|s.tracks|, Candidates(s), k);
  }

  /** Two choices in a row differ whenever the history holds two tracks. */
  lemma ConsecutiveChoicesDiffer(events: seq<Event>, a: nat, b: nat)
    ensures var s := Run(FRESH, events);
      var (next, first) := Choose(s, a);
      |s.tracks| >= 2 ==> first.Some? && Choose(next, b).1.Some? && first.value.id != Choose(next, b).1.value.id
  {
    var s := Run(FRESH, events);
    HistoryIsDistinctAndBounded(events);
    ChoiceFacts(s, a);
    var (next, first) := Choose(s, a);
    ChoiceFacts(next, b);
    if |s.tracks| >= 2 {
      assert !Is(s.tracks[0].id, next.previousSeed) || !Is(s.tracks[1].id, next.previousSeed);
    }
  }

  // ----- What it takes to be remembered

  /** The observations are made on a clock that never runs back. */
  predicate ClockRuns(events: seq<Event>) {
    forall i, j :: 0 <= i < j < |events| && events[i].Observation? && events[j].Observation? ==>
      events[i].now <= events[j].now
  }

  /** An observation of this track, or a choice, which observes nothing. */
  predicate Stays(e: Event, id: nat) {
    e.Choice? || (e.track.Some? && e.track.value.id == id)
  }

  /** From `k` on nothing but this track was observed, beginning there. */
  predicate Streak(events: seq<Event>, k: nat, id: nat) {
    k < |events| && events[k].Observation? && forall j :: k <= j < |events| ==> Stays(events[j], id)
  }

  /** Where the last observed track was selected. */
  function StreakStart(events: seq<Event>): nat
    decreases |events|
  {
    if events == [] then 0
    else
      var before, e := events[..|events| - 1], events[|events| - 1];
      var sample := Run(FRESH, before).sample;
      if e.Choice? || (sample.Some? && Stays(e, sample.value.id)) then StreakStart(before) else |events| - 1
  }

  lemma ChoiceObservesNothing(s: State, entropy: nat)
    ensures Choose(s, entropy).0 == s.(previousSeed := Choose(s, entropy).0.previousSeed)
  {
  }

  /** What is counted so far is no more than has passed on the clock since the track was selected. */
  predicate CountedSince(events: seq<Event>, s: State) {
    s.sample.Some? ==>
      var k := StreakStart(events);
      Streak(events, k, s.sample.value.id)
      && events[k].now <= s.sample.value.time && s.listenedMs <= s.sample.value.time - events[k].now
      && exists j :: 0 <= j < |events| && events[j].Observation? && events[j].now == s.sample.value.time
  }

  lemma NextStreak(before: seq<Event>, e: Event, k: nat, id: nat)
    requires Streak(before, k, id) && Stays(e, id)
    ensures Streak(before + [e], k, id) && (before + [e])[k] == before[k]
  {
  }

  /** An observation counts on from the last one of the same track, by at most the time between; else it starts at 0. */
  lemma ObservedSample(s: State, track: Track, position: nat, playing: bool, now: nat)
    ensures var next := Observe(s, Some(track), position, playing, now);
      next.sample == Some(Sample(track.id, position, now, playing))
      && if s.sample.Some? && s.sample.value.id == track.id then
           next.listenedMs <= s.listenedMs + if s.sample.value.time <= now then now - s.sample.value.time else 0
         else next.listenedMs == 0
  {
    hide Threshold, Remember;
  }

  lemma StreakBegins(before: seq<Event>, e: Event, next: State)
    requires e.Observation? && e.track.Some? && StreakStart(before + [e]) == |before|
    requires next.sample.Some? && next.sample.value.id == e.track.value.id && next.sample.value.time == e.now
    requires next.listenedMs == 0
    ensures CountedSince(before + [e], next)
  {
    hide StreakStart;
    assert (before + [e])[|before|] == e;
  }

  lemma StreakGoesOn(before: seq<Event>, e: Event, s: State, next: State)
    requires CountedSince(before, s) && ClockRuns(before + [e]) && e.Observation? && s.sample.Some?
    requires Stays(e, s.sample.value.id) && StreakStart(before + [e]) == StreakStart(before)
    requires next.sample.Some? && next.sample.value.id == s.sample.value.id && next.sample.value.time == e.now
    requires next.listenedMs
          <= s.listenedMs + if s.sample.value.time <= e.now then e.now - s.sample.value.time else 0
    ensures CountedSince(before + [e], next)
  {
    hide StreakStart;
    NextStreak(before, e, StreakStart(before), s.sample.value.id);
    var j :| 0 <= j < |before| && before[j].Observation? && before[j].now == s.sample.value.time;
    assert (before + [e])[j] == before[j] && (before + [e])[|before|] == e;
  }

  lemma StreakOfMore(before: seq<Event>, e: Event)
    ensures var sample := Run(FRESH, before).sample;
      StreakStart(before + [e])
      == if e.Choice? || (sample.Some? && Stays(e, sample.value.id)) then StreakStart(before) else |before|
  {
    hide Run;
    assert (before + [e])[..|before|] == before;
  }

  lemma ObservedCounts(before: seq<Event>, e: Event, s: State)
    requires CountedSince(before, s) && ClockRuns(before + [e]) && e.Observation? && e.track.Some?
    requires s == Run(FRESH, before)
    ensures CountedSince(before + [e], Observe(s, e.track, e.position, e.playing, e.now))
  {
    hide Run, StreakStart, CountedSince, ClockRuns, Observe;
    ObservedSample(s, e.track.value, e.position, e.playing, e.now);
    StreakOfMore(before, e);
    var next := Observe(s, e.track, e.position, e.playing, e.now);
    if s.sample.Some? && s.sample.value.id == e.track.value.id {
      StreakGoesOn(before, e, s, next);
    } else {
      StreakBegins(before, e, next);
    }
  }

  lemma QuietCounts(before: seq<Event>, e: Event, s: State, next: State)
    requires CountedSince(before, s) && s == Run(FRESH, before)
    requires if e.Choice? then next == s.(previousSeed := next.previousSeed) else next.sample.None?
    ensures CountedSince(before + [e], next)
  {
    hide Run;
    var events := before + [e];
    assert events[..|events| - 1] == before && events[|before|] == e;
    if next.sample.Some? {
      NextStreak(before, e, StreakStart(before), s.sample.value.id);
      var j :| 0 <= j < |before| && before[j].Observation? && before[j].now == s.sample.value.time;
      assert events[j] == before[j];
    }
  }

  /** On a clock that never runs back, whatever is observed and chosen, no more is counted than time has passed. */
  lemma {:induction false} HeardWithinTheClock(events: seq<Event>)
    requires ClockRuns(events)
    ensures CountedSince(events, Run(FRESH, events))
    decreases |events|
  {
    if events != [] {
      hide CountedSince, Observe, Choose;
      var before, e := events[..|events| - 1], events[|events| - 1];
      assert events == before + [e];
      ClockRunsBefore(before, e);
      HeardWithinTheClock(before);
      var s := Run(FRESH, before);
      if e.Choice? {
        ChoiceObservesNothing(s, e.entropy);
        QuietCounts(before, e, s, Choose(s, e.entropy).0);
      } else if e.track.None? {
        ObservingNothing(s, e);
        QuietCounts(before, e, s, Observe(s, e.track, e.position, e.playing, e.now));
      } else {
        ObservedCounts(before, e, s);
      }
    } else {
      NothingCounts();
    }
  }

  lemma ObservingNothing(s: State, e: Event)
    requires e.Observation? && e.track.None?
    ensures Observe(s, e.track, e.position, e.playing, e.now).sample.None?
  {
  }

  lemma NothingCounts()
    ensures CountedSince([], FRESH)
  {
  }

  /** This track was selected at `k`, nothing else was observed since, and its threshold has passed on the clock. */
  predicate ListenedSince(events: seq<Event>, k: nat, track: Track, now: nat) {
    Streak(events, k, track.id) && now >= events[k].now + Threshold(track)
  }

  lemma HistoryChange(s: State, e: Event)
    requires Step(s, e).tracks != s.tracks
    ensures e.Observation? && e.track.Some? && s.sample.Some? && s.sample.value.id == e.track.value.id
    ensures s.listenedMs + Heard(s.sample.value, e.position, e.playing, e.now) >= Threshold(e.track.value)
  {
    hide Remember, Choose, Heard;
    if e.Choice? {
      ChoiceKeepsHistory(s, e.entropy);
    } else if e.track.Some? {
      ThresholdIsPositive(e.track.value);
    }
  }

  lemma ThresholdIsPositive(track: Track)
    ensures 1_000 <= Threshold(track) <= 30_000
  {
  }

  /**
    Over every run, whatever is observed and chosen: the history changes only by an observation whose track
    was selected at some earlier one, alone since then, at least its threshold of time ago.
  */
  lemma RememberedAfterThreshold(events: seq<Event>, e: Event)
    requires ClockRuns(events + [e])
    ensures Step(Run(FRESH, events), e).tracks != Run(FRESH, events).tracks ==>
      e.Observation? && e.track.Some? && ListenedSince(events, StreakStart(events), e.track.value, e.now)
  {
    var s := Run(FRESH, events);
    ClockRunsBefore(events, e);
    HeardWithinTheClock(events);
    hide Run, StreakStart, Step;
    if Step(s, e).tracks != s.tracks {
      HistoryChange(s, e);
      var j :| 0 <= j < |events| && events[j].Observation? && events[j].now == s.sample.value.time;
      assert (events + [e])[j] == events[j] && (events + [e])[|events|] == e;
      assert s.sample.value.time <= e.now;
    }
  }

  lemma ClockRunsBefore(events: seq<Event>, e: Event)
    requires ClockRuns(events + [e])
    ensures ClockRuns(events)
  {
    forall i, j | 0 <= i < j < |events| && events[i].Observation? && events[j].Observation?
      ensures events[i].now <= events[j].now
    {
      assert (events + [e])[i] == events[i] && (events + [e])[j] == events[j];
    }
  }
}
