/**
  What the one-shot owner answers over every run, told from the run alone: when it halts, what it
  reports of itself, and what becomes of each token.
*/
module OneShotTheorems {
  import opened Basics
  import opened OneShotSpec

  // ----- Halting

  /** A risk or rate-limit answer to the call in flight, while the call's generation is the owner's. */
  predicate RiskAnswer(w: World, e: Event) {
    ((e.AnswerStage1? && e.id in w.held && w.held[e.id].Stage1Call?)
     || (e.AnswerFinal? && e.id in w.held && w.held[e.id].FinalCall?))
    && (e.answer == Failed(RiskControl) || e.answer == Failed(RateLimited))
    && w.held[e.id].generation == w.session.generation
  }

  lemma StepHaltsIff(w: World, e: Event)
    requires Invariant(w) && !w.session.halted
    ensures Step(w, e).session.halted <==> RiskAnswer(w, e)
  {
    if !e.DoClear? && e.id in w.held {
      assert Backed(w, w.held[e.id]);
    }
  }

  /** The owner halts exactly on such an answer. */
  lemma HaltsIff(events: seq<Event>, e: Event)
    requires !Run(NEW, events).session.halted
    ensures Step(Run(NEW, events), e).session.halted <==> RiskAnswer(Run(NEW, events), e)
  {
    hide Step, Run;
    RunKeepsInvariant(events);
    StepHaltsIff(Run(NEW, events), e);
  }

  // ----- What the owner says of itself

  function RiskSeen(events: seq<Event>): bool
    decreases |events|
  {
    events != []
    && var before := events[..|events| - 1];
    RiskSeen(before) || RiskAnswer(Run(NEW, before), events[|events| - 1])
  }

  /** A capture was admitted and nothing has cleared it since. */
  predicate CapturedSinceClear(events: seq<Event>)
    decreases |events|
  {
    events != []
    && var before, e := events[..|events| - 1], events[|events| - 1];
    !e.DoClear? && (CapturedSinceClear(before) || Run(NEW, events).captures > Run(NEW, before).captures)
  }

  /** How the session carries its history. */
  predicate Tells(w: World, halted: bool, captured: bool) {
    w.session.halted == halted && w.session.track.Some? == captured
    && w.session.stage2Consumed == (w.finalStarts > 0 || w.deliveries > 0)
  }

  lemma StepTells(w: World, e: Event, halted: bool, captured: bool)
    requires Invariant(w) && Tells(w, halted, captured)
    ensures var next := Step(w, e);
      Tells(next, halted || RiskAnswer(w, e), !e.DoClear? && (captured || next.captures > w.captures))
  {
    StepKeepsInvariant(w, e);
    NothingIsRefilled(w, e);
    StepCounts(w, e);
    if !w.session.halted {
      StepHaltsIff(w, e);
    } else {
      NoRiskWhenHalted(w, e);
    }
    CountedOf(Step(w, e));
    StepTrack(w, e);
    hide Step, Invariant;
  }

  lemma NoRiskWhenHalted(w: World, e: Event)
    requires Invariant(w) && w.session.halted
    ensures !RiskAnswer(w, e)
  {
    if !e.DoClear? {
      TokensMeanRunning(w, e.id);
    }
  }

  lemma StepCounts(w: World, e: Event)
    ensures Step(w, e).captures >= w.captures
  {
  }

  lemma StepTrack(w: World, e: Event)
    ensures var next := Step(w, e);
      next.session.track.Some? <==> !e.DoClear? && (w.session.track.Some? || next.captures > w.captures)
  {
  }

  lemma {:induction false} RunTells(events: seq<Event>)
    ensures Tells(Run(NEW, events), RiskSeen(events), CapturedSinceClear(events))
    decreases |events|
  {
    if events != [] {
      hide Step, Tells, RiskAnswer;
      var before := events[..|events| - 1];
      RunTells(before);
      RunKeepsInvariant(before);
      StepTells(Run(NEW, before), events[|events| - 1], RiskSeen(before), CapturedSinceClear(before));
    }
  }

  /**
    The reported state, from the run alone: halted once a risk answer came in time; else missing without a
    capture since the last clear; else spent once a final call started or a source was delivered; else pending.
  */
  lemma StateIsHistory(events: seq<Event>)
    ensures var w := Run(NEW, events);
      StateOf(w.session) ==
      if RiskSeen(events) then State.Halted
      else if !CapturedSinceClear(events) then Missing
      else if w.finalStarts > 0 || w.deliveries > 0 then Spent
      else Pending
  {
    hide Run;
    RunTells(events);
  }

  // ----- What callers are told

  predicate Holds(w: World, id: nat, token: Token) {
    id in w.held && w.held[id] == token
  }

  /** A capture is admitted exactly before a halt and before any other capture. */
  lemma CaptureOutcome(events: seq<Event>, id: nat, track: nat)
    requires id !in Run(NEW, events).held
    ensures var w := Run(NEW, events);
      var (next, outcome) := Perform(w, DoBeginCapture(id, track));
      outcome == (if RiskSeen(events) then Declined(RiskControl)
                  else if w.captures > 0 then Declined(AttemptConsumed)
                  else Done)
      && (outcome == Done ==> Holds(next, id, Attempt(w.session.generation, track)))
  {
    hide Run;
    RunTells(events);
    RunKeepsInvariant(events);
  }

  /** Tokens are exchanged exactly while their generation lasts and their capture is accepted. */
  lemma ExchangeOutcome(events: seq<Event>, e: Event)
    requires e.DoFinishCapture? || e.DoBindStage1? || e.DoBindStage2?
    requires e.id in Run(NEW, events).held
    requires var t := Run(NEW, events).held[e.id]; if e.DoBindStage2? then t.Continuation? else t.Attempt?
    ensures var w := Run(NEW, events); var t := w.held[e.id];
      var (next, outcome) := Perform(w, e);
      if t.generation != w.session.generation then outcome == Declined(Replaced) && e.id !in next.held
      else if !e.accepted then outcome == Declined(OtherFailure) && e.id !in next.held
      else
        outcome == Done
        && Holds(next, e.id, if e.DoBindStage1? then BoundStage1(t.generation, t.track)
                             else BoundCapture(t.generation, t.track))
  {
    hide Run;
    RunKeepsInvariant(events);
    assert Backed(Run(NEW, events), Run(NEW, events).held[e.id]);
  }

  /** Bound tokens start their call exactly while their generation lasts. */
  lemma StartOutcome(events: seq<Event>, e: Event)
    requires e.DoStartStage1? || e.DoStartFinal?
    requires e.id in Run(NEW, events).held
    requires var t := Run(NEW, events).held[e.id]; if e.DoStartStage1? then t.BoundStage1? else t.BoundCapture?
    ensures var w := Run(NEW, events); var t := w.held[e.id];
      var (next, outcome) := Perform(w, e);
      if t.generation != w.session.generation then outcome == Declined(Replaced) && e.id !in next.held
      else
        outcome == Done
        && Holds(next, e.id, if e.DoStartStage1? then Stage1Call(t.generation, t.track)
                             else FinalCall(t.generation, t.track))
  {
    hide Run;
    RunKeepsInvariant(events);
    assert Backed(Run(NEW, events), Run(NEW, events).held[e.id]);
  }

  /** Each answer in time is passed on as it came; a late one is reported as replaced. */
  lemma AnswerOutcome(events: seq<Event>, e: Event)
    requires e.AnswerStage1? || e.AnswerFinal?
    requires e.id in Run(NEW, events).held
    requires var t := Run(NEW, events).held[e.id]; if e.AnswerStage1? then t.Stage1Call? else t.FinalCall?
    ensures var w := Run(NEW, events); var t := w.held[e.id];
      var (next, outcome) := Perform(w, e);
      if t.generation != w.session.generation then outcome == Declined(Replaced) && e.id !in next.held
      else match e.answer
        case Direct(source) => outcome == Delivered(source) && e.id !in next.held
        case Failed(error) => outcome == Declined(error) && e.id !in next.held
        case Encoded =>
          if e.AnswerStage1? then
            outcome == Done && Holds(next, e.id, Continuation(t.generation, t.track))
          else outcome == Declined(OtherFailure) && e.id !in next.held
  {
    hide Run;
    RunKeepsInvariant(events);
    assert Backed(Run(NEW, events), Run(NEW, events).held[e.id]);
  }

  /** Clearing retires the generation and forgets the track, and nothing else. */
  lemma ClearOutcome(events: seq<Event>)
    ensures var w, next := Run(NEW, events), Run(NEW, events + [DoClear]);
      next.session.generation > w.session.generation && next.session.track.None? && next.held == w.held
      && RiskSeen(events + [DoClear]) == RiskSeen(events)
      && next.captures == w.captures && next.stage1Starts == w.stage1Starts && next.finalStarts == w.finalStarts
  {
    assert (events + [DoClear])[..|events|] == events;
  }

  /** A dropped token is gone, and nothing else changes. */
  lemma DropOutcome(w: World, id: nat)
    requires id in w.held
    ensures Step(w, Drop(id)) == w.(held := w.held - {id})
  {
  }

  /** Whatever the owner's state: what it takes to be admitted to a capture, the first call and the final call. */
  lemma AdmissionIff(s: Session, generation: nat, track: nat)
    ensures BeginCapture(s, track).1 == Admitted <==> !s.halted && !s.captureConsumed
    ensures var mine := s.generation == generation && s.track == Some(track) && !s.halted;
      (StartStage1(s, generation, track).1 == Admitted <==> mine && !s.stage1Consumed && !s.stage2Consumed)
      && (StartFinal(s, generation, track).1 == Admitted <==> mine && !s.stage2Consumed)
  {
  }
}
