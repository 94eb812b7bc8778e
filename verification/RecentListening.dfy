/** The recent-listening sampler as the class the player keeps. */
module RecentListening {
  import opened Basics
  import opened RecentListeningSpec

  class RecentListening {
    var tracks: seq<Track>
    var sample: Option<Sample>
    var listenedMs: nat
    var qualified: bool
    var previousSeed: Option<nat>

    ghost function View(): State
      reads this
    {
      State(tracks, sample, listenedMs, qualified, previousSeed)
    }

    constructor ()
      ensures View() == FRESH
    {
      tracks, sample, listenedMs, qualified, previousSeed := [], None, 0, false, None;
    }

    method ObserveTrack(track: Option<Track>, position: nat, playing: bool, now: nat)
      modifies this
      ensures View() == Observe(old(View()), track, position, playing, now)
    {
      if track.None? {
        sample := None;
        listenedMs := 0;
        qualified := false;
        return;
      }
      var t := track.value;
      if sample.None? || sample.value.id != t.id {
        listenedMs := 0;
        qualified := false;
      } else {
        var elapsed := Ahead(now, sample.value.time);
        var advanced := Ahead(position, sample.value.position);
        if playing && sample.value.playing && elapsed <= MAX_GAP_MS && advanced <= elapsed + TOLERANCE_MS {
          listenedMs := listenedMs + if advanced <= elapsed then advanced else elapsed;
        }
      }
      sample := Some(Sample(t.id, position, now, playing));
      if !qualified && listenedMs >= Threshold(t) {
        qualified := true;
        tracks := Remember(tracks, t);
      }
    }

    /** Indexes to choose among: as far as possible neither the previous seed nor the playing track. */
    method SelectCandidates() returns (candidates: seq<nat>)
      ensures candidates == Candidates(View())
    {
      hide Avoiding;
      var current := if sample.Some? then Some(sample.value.id) else None;
      candidates := Avoiding(tracks, 0, previousSeed, current);
      if candidates == [] {
        candidates := Avoiding(tracks, 0, previousSeed, None);
      }
      if candidates == [] {
        candidates := Avoiding(tracks, 0, None, None);
      }
    }

    /** The candidate whose share of the total holds the draw. */
    method DrawFrom(candidates: seq<nat>, start: nat) returns (picked: Option<nat>)
      requires Indexes(|tracks|, candidates)
      ensures picked == Pick(|tracks|, candidates, start)
    {
      var draw: nat := start;
      for k := 0 to |candidates|
        invariant Pick(|tracks|, candidates[k..], draw) == Pick(|tracks|, candidates, start)
      {
        var index := candidates[k];
        var weight := |tracks| - index;
        assert candidates[k..][0] == index && candidates[k..][1..] == candidates[k + 1..];
        if draw < weight {
          return Some(index);
        }
        draw := draw - weight;
      }
      return None;
    }

    method ChooseTrack(entropy: nat) returns (chosen: Option<Track>)
      modifies this
      ensures (View(), chosen) == Choose(old(View()), entropy)
    {
      var candidates := SelectCandidates();
      CandidatesFacts(View());
      hide Candidates, Indexes, Pick, Total;
      var total := Total(|tracks|, candidates);
      if total == 0 {
        return None;
      }
      var picked := DrawFrom(candidates, entropy % total);
      if picked.None? || picked.value >= |tracks| {
        return None;
      }
      previousSeed := Some(tracks[picked.value].id);
      return Some(tracks[picked.value]);
    }
  }
}
