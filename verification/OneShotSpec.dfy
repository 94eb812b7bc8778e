/**
  One-shot admission: a capture is admitted once, each transport stage starts at most
  once, and no interleaving of clearing, dropping and answering refills a budget.
*/
module OneShotSpec {
  import opened Basics

  datatype Session = Session(
    generation: nat,
    track: Option<nat>,
    captureConsumed: bool,
    stage1Consumed: bool,
    stage2Consumed: bool,
    halted: bool)

  datatype Refusal = Replaced | RiskControl | RateLimited | AttemptConsumed | OtherFailure

  datatype Verdict = Admitted | Refused(why: Refusal)

  datatype State = Missing | Pending | Spent | Halted

  // ----- Locked sections

  function Clear(s: Session): Session {
    s.(generation := s.generation + 1, track := None)
  }

  function BeginCapture(s: Session, track: nat): (Session, Verdict) {
    if s.halted then (s, Refused(RiskControl))
    else if s.captureConsumed then (s, Refused(AttemptConsumed))
    else (s.(captureConsumed := true, track := Some(track)), Admitted)
  }

  function Current(s: Session, generation: nat, track: nat): Verdict {
    if s.generation != generation || s.track != Some(track) then Refused(Replaced)
    else if s.halted then Refused(RiskControl)
    else Admitted
  }

  function StartStage1(s: Session, generation: nat, track: nat): (Session, Verdict) {
    if Current(s, generation, track) != Admitted then (s, Current(s, generation, track))
    else if s.stage1Consumed || s.stage2Consumed then (s, Refused(AttemptConsumed))
    else (s.(stage1Consumed := true), Admitted)
  }

  function StartFinal(s: Session, generation: nat, track: nat): (Session, Verdict) {
    if Current(s, generation, track) != Admitted then (s, Current(s, generation, track))
    else if s.stage2Consumed then (s, Refused(AttemptConsumed))
    else (s.(stage2Consumed := true), Admitted)
  }

  datatype Answer = Direct(source: nat) | Encoded | Failed(error: Refusal)

  predicate Halts(answer: Answer) {
    answer.Failed? && (answer.error == RiskControl || answer.error == RateLimited)
  }

  /** A late answer to a retired generation changes nothing; a risk answer stops the owner for good. */
  function FinishStage1(s: Session, generation: nat, track: nat, answer: Answer): (Session, Verdict) {
    if s.generation != generation || s.track != Some(track) then (s, Refused(Replaced))
    else
      var after := if Halts(answer) then s.(halted := true) else s;
      match answer
      case Direct(_) => (after.(stage2Consumed := true), Admitted)
      case Encoded => (after, Admitted)
      case Failed(error) => (after, Refused(error))
  }

  function FinishFinal(s: Session, generation: nat, track: nat, answer: Answer): (Session, Verdict) {
    if s.generation != generation || s.track != Some(track) then (s, Refused(Replaced))
    else
      var after := if Halts(answer) then s.(halted := true) else s;
      if answer.Direct? then (after, Admitted)
      else if answer.Failed? then (after, Refused(answer.error))
      else (after, Refused(OtherFailure))
  }

  function StateOf(s: Session): State {
    if s.halted then Halted else if s.track.None? then Missing else if s.stage2Consumed then Spent else Pending
  }

  // ----- Tokens and calls in flight

  /** What a caller may hold. None can be copied; using one up removes it. */
  datatype Token =
    | Attempt(generation: nat, track: nat)
    | BoundStage1(generation: nat, track: nat)
    | Continuation(generation: nat, track: nat)
    | BoundCapture(generation: nat, track: nat)
    | Stage1Call(generation: nat, track: nat)
    | FinalCall(generation: nat, track: nat)

  /** `captures`, `stage1Starts`, `finalStarts` and `deliveries` count what has ever happened. */
  datatype World = World(
    session: Session,
    held: map<nat, Token>,
    captures: nat,
    stage1Starts: nat,
    finalStarts: nat,
    deliveries: nat)

  datatype Event =
    | DoClear
    | DoBeginCapture(id: nat, track: nat)
    | DoFinishCapture(id: nat, accepted: bool)
    | DoBindStage1(id: nat, accepted: bool)
    | DoBindStage2(id: nat, accepted: bool)
    | DoStartStage1(id: nat)
    | AnswerStage1(id: nat, answer: Answer)
    | DoStartFinal(id: nat)
    | AnswerFinal(id: nat, answer: Answer)
    | Drop(id: nat)

  datatype Outcome = Ignored | Done | Declined(why: Refusal) | Delivered(source: nat)

  function Without(w: World, id: nat): World {
    w.(held := w.held - {id})
  }

  function Becomes(w: World, id: nat, token: Token): World {
    w.(held := w.held[id := token])
  }

  /** Exchanging a token for the next one; the old one is gone either way. */
  function Exchange(w: World, id: nat, used: Token, accepted: bool, next: Token): (World, Outcome) {
    var verdict := Current(w.session, used.generation, used.track);
    if verdict.Refused? then (Without(w, id), Declined(verdict.why))
    else if !accepted then (Without(w, id), Declined(OtherFailure))
    else (Becomes(w, id, next), Done)
  }

  function Begin(w: World, id: nat, track: nat): (World, Outcome) {
    var (next, verdict) := BeginCapture(w.session, track);
    if verdict.Refused? then (w, Declined(verdict.why))
    else (Becomes(w, id, Attempt(next.generation, track)).(session := next, captures := w.captures + 1), Done)
  }

  function Use(w: World, id: nat, t: Token, e: Event): (World, Outcome) {
    var s := w.session;
    var gone := Without(w, id);
    match (e, t)
    case (DoFinishCapture(_, accepted), Attempt(g, track)) => Exchange(w, id, t, accepted, BoundCapture(g, track))
    case (DoBindStage1(_, accepted), Attempt(g, track)) => Exchange(w, id, t, accepted, BoundStage1(g, track))
    case (DoBindStage2(_, accepted), Continuation(g, track)) => Exchange(w, id, t, accepted, BoundCapture(g, track))
    case (DoStartStage1(_), BoundStage1(g, track)) =>
      var (next, verdict) := StartStage1(s, g, track);
      if verdict.Refused? then (gone, Declined(verdict.why))
      else (Becomes(w, id, Stage1Call(g, track)).(session := next, stage1Starts := w.stage1Starts + 1), Done)
    case (AnswerStage1(_, answer), Stage1Call(g, track)) =>
      var (next, verdict) := FinishStage1(s, g, track, answer);
      if verdict.Refused? then (gone.(session := next), Declined(verdict.why))
      else if answer.Direct? then
        (gone.(session := next, deliveries := w.deliveries + 1), Delivered(answer.source))
      else (Becomes(w, id, Continuation(g, track)).(session := next), Done)
    case (DoStartFinal(_), BoundCapture(g, track)) =>
      var (next, verdict) := StartFinal(s, g, track);
      if verdict.Refused? then (gone, Declined(verdict.why))
      else (Becomes(w, id, FinalCall(g, track)).(session := next, finalStarts := w.finalStarts + 1), Done)
    case (AnswerFinal(_, answer), FinalCall(g, track)) =>
      var (next, verdict) := FinishFinal(s, g, track, answer);
      if verdict.Refused? then (gone.(session := next), Declined(verdict.why))
      else (gone.(session := next, deliveries := w.deliveries + 1), Delivered(answer.source))
    case (Drop(_), _) => (gone, Done)
    case _ => (w, Ignored)
  }

  function Perform(w: World, e: Event): (World, Outcome) {
    if e.DoClear? then (w.(session := Clear(w.session)), Done)
    else if e.DoBeginCapture? then if e.id in w.held then (w, Ignored) else Begin(w, e.id, e.track)
    else if e.id in w.held then Use(w, e.id, w.held[e.id], e)
    else (w, Ignored)
  }

  function Step(w: World, e: Event): World {
    Perform(w, e).0
  }

  function Run(w: World, events: seq<Event>): World
    decreases |events|
  {
    if events == [] then w else Step(Run(w, events[..|events| - 1]), events[|events| - 1])
  }

  const NEW: World := World(Session(0, None, false, false, false, false), map[], 0, 0, 0, 0)

  // ----- The invariant

  /** What holding a token says about the budgets; nothing has been delivered and nothing halted. */
  predicate Backed(w: World, t: Token) {
    var s := w.session;
    t.generation <= s.generation && s.captureConsumed && !s.halted && w.deliveries == 0
    && (s.generation == t.generation ==> s.track == Some(t.track))
    && match t
       case Attempt(_, _) => !s.stage1Consumed && !s.stage2Consumed
       case BoundStage1(_, _) => !s.stage1Consumed && !s.stage2Consumed
       case Stage1Call(_, _) => s.stage1Consumed && !s.stage2Consumed
       case Continuation(_, _) => s.stage1Consumed && !s.stage2Consumed
       case BoundCapture(_, _) => !s.stage2Consumed
       case FinalCall(_, _) => s.stage2Consumed
  }

  /** The budgets are what has ever been started. */
  predicate Counted(w: World) {
    var s := w.session;
    w.captures == (if s.captureConsumed then 1 else 0)
    && w.stage1Starts == (if s.stage1Consumed then 1 else 0)
    && w.finalStarts <= (if s.stage2Consumed then 1 else 0)
    && (s.stage2Consumed ==> w.finalStarts == 1 || w.deliveries == 1)
    && (w.deliveries == 1 ==> s.stage2Consumed)
    && w.deliveries <= 1 && (s.halted ==> w.deliveries == 0)
    && (!s.captureConsumed ==> !s.stage1Consumed && !s.stage2Consumed && !s.halted && w.deliveries == 0)
  }

  /** One token at most, in any form. */
  ghost predicate Single(w: World) {
    forall a, b :: a in w.held && b in w.held ==> a == b
  }

  ghost predicate Invariant(w: World) {
    Counted(w) && Single(w) && (forall id :: id in w.held ==> Backed(w, w.held[id]))
  }

  lemma Removed(w: World, next: World, id: nat)
    requires Invariant(w) && id in w.held && next.held == w.held - {id} && Counted(next)
    ensures Invariant(next)
  {
    assert forall other :: other in w.held ==> other == id;
    assert next.held.Keys == {};
  }

  lemma Replacing(w: World, next: World, id: nat, token: Token)
    requires Invariant(w) && id in w.held && next.held == w.held[id := token] && Counted(next) && Backed(next, token)
    ensures Invariant(next)
  {
    forall other | other in next.held ensures other == id {
      assert other in w.held;
    }
  }

  lemma ExchangeKeeps(w: World, id: nat, used: Token, accepted: bool, next: Token)
    requires Invariant(w) && id in w.held && w.held[id] == used
    requires next.generation == used.generation && next.track == used.track
    requires (used.Attempt? && (next.BoundCapture? || next.BoundStage1?)) || (used.Continuation? && next.BoundCapture?)
    ensures Invariant(Exchange(w, id, used, accepted, next).0)
  {
    assert Backed(w, used);
    hide Invariant;
    var (after, outcome) := Exchange(w, id, used, accepted, next);
    CountedOf(w);
    if outcome == Done {
      Replacing(w, after, id, next);
    } else {
      Removed(w, after, id);
    }
  }

  lemma CountedOf(w: World)
    requires Invariant(w)
    ensures Counted(w)
  {
  }

  lemma UseKeeps(w: World, id: nat, e: Event)
    requires Invariant(w) && id in w.held
    ensures Invariant(Use(w, id, w.held[id], e).0)
  {
    var t := w.held[id];
    assert Backed(w, t);
    CountedOf(w);
    hide Invariant;
    var next := Use(w, id, t, e).0;
    if (t.Attempt? && (e.DoFinishCapture? || e.DoBindStage1?)) || (t.Continuation? && e.DoBindStage2?) {
      ExchangeKeeps(w, id, t, e.accepted,
                    if e.DoBindStage1? then BoundStage1(t.generation, t.track) else BoundCapture(t.generation,
                        t.track));
    } else if next.held == w.held - {id} {
      Removed(w, next, id);
    } else if next != w {
      Replacing(w, next, id, next.held[id]);
    }
  }

  lemma TokensMeanRunning(w: World, id: nat)
    requires Invariant(w)
    ensures id in w.held ==> !w.session.halted && w.session.captureConsumed
  {
  }

  lemma StepKeepsInvariant(w: World, e: Event)
    requires Invariant(w)
    ensures Invariant(Step(w, e))
  {
    if e.DoClear? {
      var next := Step(w, e);
      forall id | id in next.held ensures Backed(next, next.held[id]) {
        assert Backed(w, w.held[id]);
      }
    } else if e.DoBeginCapture? {
      var next := Step(w, e);
      if next != w {
        forall id ensures id !in w.held {
          TokensMeanRunning(w, id);
        }
        assert w.held.Keys == {};
      }
    } else if e.id in w.held {
      UseKeeps(w, e.id, e);
    }
  }

  lemma {:induction false} RunKeepsInvariant(events: seq<Event>)
    ensures Invariant(Run(NEW, events))
    decreases |events|
  {
    if events != [] {
      hide Invariant, Step;
      RunKeepsInvariant(events[..|events| - 1]);
      StepKeepsInvariant(Run(NEW, events[..|events| - 1]), events[|events| - 1]);
    }
  }

  // ----- Every run

  /** Whatever the interleaving: one capture, one first-stage call, one final call, one delivery. */
  lemma BudgetsAreOneShot(events: seq<Event>)
    ensures var w := Run(NEW, events);
      w.captures <= 1 && w.stage1Starts <= 1 && w.finalStarts <= 1 && w.deliveries <= 1 && |w.held| <= 1
  {
    RunKeepsInvariant(events);
    var w := Run(NEW, events);
    if w.held.Keys != {} {
      var id :| id in w.held;
      assert w.held.Keys == {id};
    }
  }

  /** No event undoes a halt or refills a budget. */
  lemma NothingIsRefilled(w: World, e: Event)
    ensures var s, next := w.session, Step(w, e).session;
      (s.halted ==> next.halted) && (s.captureConsumed ==> next.captureConsumed)
      && (s.stage1Consumed ==> next.stage1Consumed) && (s.stage2Consumed ==> next.stage2Consumed)
      && next.generation >= s.generation
  {
  }

  /** After a halt nothing is admitted, started or delivered, however the run goes on. */
  lemma {:induction false} HaltIsFinal(before: seq<Event>, after: seq<Event>)
    requires Run(NEW, before).session.halted
    ensures var w, later := Run(NEW, before), Run(NEW, before + after);
      later.session.halted && later.held == map[] && later.deliveries == 0 && later.captures == w.captures
      && later.stage1Starts == w.stage1Starts && later.finalStarts == w.finalStarts
    decreases |after|
  {
    if after == [] {
      assert before + after == before;
      HaltedHoldsNothing(before);
    } else {
      var n := |after| - 1;
      HaltIsFinal(before, after[..n]);
      assert (before + after)[..|before + after| - 1] == before + after[..n];
    }
  }

  lemma HaltedHoldsNothing(events: seq<Event>)
    requires Run(NEW, events).session.halted
    ensures Run(NEW, events).held == map[] && Run(NEW, events).deliveries == 0
  {
    RunKeepsInvariant(events);
    var w := Run(NEW, events);
    CountedOf(w);
    hide Invariant, Run;
    forall id ensures id !in w.held {
      TokensMeanRunning(w, id);
    }
    assert w.held.Keys == {};
  }

  /** A source is delivered only while the generation and the track of its call are current and nothing has halted. */
  lemma DeliveryIsCurrent(events: seq<Event>, e: Event)
    ensures var w := Run(NEW, events);
      Perform(w, e).1.Delivered? ==>
        !e.DoClear? && e.id in w.held && (w.held[e.id].Stage1Call? || w.held[e.id].FinalCall?)
        && Current(w.session, w.held[e.id].generation, w.held[e.id].track) == Admitted
        && w.deliveries == 0
  {
    RunKeepsInvariant(events);
    var w := Run(NEW, events);
    if !e.DoClear? && e.id in w.held {
      assert Backed(w, w.held[e.id]);
    }
  }

  /**
    A token held in any reachable state is refused only because it was replaced, never for a spent budget or a
    halt.
  */
  lemma HeldTokensAreOnlyReplaced(events: seq<Event>, e: Event)
    requires e.DoStartStage1? || e.DoStartFinal?
    ensures var w := Run(NEW, events);
      Perform(w, e).1.Declined? ==> Perform(w, e).1.why == Replaced && w.held[e.id].generation != w.session.generation
  {
    RunKeepsInvariant(events);
    var w := Run(NEW, events);
    if e.id in w.held {
      assert Backed(w, w.held[e.id]);
    }
  }

  /** What a retired token leaves possible: nothing starts, nothing is delivered, no track is current. */
  ghost predicate Retired(w: World, later: World, id: nat) {
    later.held.Keys <= {id} && later.deliveries == 0 && later.stage1Starts == w.stage1Starts
    && later.finalStarts == w.finalStarts && later.session.track == None
    && later.session.generation > w.session.generation && later.session.captureConsumed
    && (id in later.held ==> later.held[id].generation <= w.session.generation)
  }

  lemma RetiredStays(w: World, later: World, id: nat, e: Event)
    requires Retired(w, later, id)
    ensures Retired(w, Step(later, e), id)
  {
    if !e.DoClear? && e.id in later.held {
      assert e.id == id;
    }
  }

  lemma ClearRetires(w: World, id: nat)
    requires Invariant(w) && id in w.held
    ensures Retired(w, Step(w, DoClear), id)
  {
    assert Backed(w, w.held[id]);
    assert forall other :: other in w.held ==> other == id;
  }

  /** Clearing retires every token for good: later it can only be declined or dropped. */
  lemma {:induction false} ClearedTokensNeverDeliver(w: World, events: seq<Event>, id: nat)
    requires Invariant(w) && id in w.held
    ensures Retired(w, Run(Step(w, DoClear), events), id)
    decreases |events|
  {
    if events == [] {
      ClearRetires(w, id);
    } else {
      hide Retired, Step, Invariant;
      ClearedTokensNeverDeliver(w, events[..|events| - 1], id);
      RetiredStays(w, Run(Step(w, DoClear), events[..|events| - 1]), id, events[|events| - 1]);
    }
  }

  // ----- What an undisturbed run achieves

  /** Any of the six forms, current in a fresh owner that has admitted its one capture. */
  predicate Ready(w: World, id: nat, t: Token, stage1: bool, stage2: bool) {
    w.held == map[id := t]
    && w.session == Session(t.generation, Some(t.track), true, stage1, stage2, false) && w.deliveries == 0
  }

  lemma CaptureOpens(id: nat, track: nat)
    ensures Ready(Step(NEW, DoBeginCapture(id, track)), id, Attempt(0, track), false, false)
  {
  }

  lemma FirstStage(w: World, id: nat, g: nat, track: nat)
    requires Ready(w, id, Attempt(g, track), false, false)
    ensures var called := Step(Step(w, DoBindStage1(id, true)), DoStartStage1(id));
      Ready(called, id, Stage1Call(g, track), true, false)
  {
    var bound := Step(w, DoBindStage1(id, true));
    assert Ready(bound, id, BoundStage1(g, track), false, false);
  }

  lemma SecondStage(w: World, id: nat, g: nat, track: nat)
    requires Ready(w, id, Stage1Call(g, track), true, false)
    ensures var called := Step(Step(Step(w, AnswerStage1(id, Encoded)), DoBindStage2(id, true)), DoStartFinal(id));
      Ready(called, id, FinalCall(g, track), true, true)
  {
    var continued := Step(w, AnswerStage1(id, Encoded));
    assert Ready(continued, id, Continuation(g, track), true, false);
    var bound := Step(continued, DoBindStage2(id, true));
    assert Ready(bound, id, BoundCapture(g, track), true, false);
  }

  /** Left alone, the two-stage path delivers what the final answer carries. */
  lemma UndisturbedRunDelivers(id: nat, track: nat, source: nat)
    ensures var first := Step(Step(Step(NEW, DoBeginCapture(id, track)), DoBindStage1(id, true)), DoStartStage1(id));
      var last := Step(Step(Step(first, AnswerStage1(id, Encoded)), DoBindStage2(id, true)), DoStartFinal(id));
      Perform(last, AnswerFinal(id, Direct(source))).1 == Delivered(source)
  {
    CaptureOpens(id, track);
    var w := Step(NEW, DoBeginCapture(id, track));
    FirstStage(w, id, 0, track);
    var first := Step(Step(w, DoBindStage1(id, true)), DoStartStage1(id));
    SecondStage(first, id, 0, track);
    var last := Step(Step(Step(first, AnswerStage1(id, Encoded)), DoBindStage2(id, true)), DoStartFinal(id));
    hide Step;
    assert id in last.held && last.held[id] == FinalCall(0, track);
  }
}
