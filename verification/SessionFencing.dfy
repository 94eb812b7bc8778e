/**
  Generation fencing: once the generation an operation began in has ended, nothing that
  happens to the operation reaches the session, with one exception that is stated exactly.
*/
module SessionFencing {
  import opened Basics
  import opened SessionSpec
  import opened SessionTheorems

  /** Events on an operation already in flight. */
  predicate OnOperation(e: Event) {
    !Starts(e) && !Immediate(e)
  }

  /** Those that end a wait of the caller and report to it. */
  predicate Completes(e: Event) {
    e.BeginAdvance? || e.AcquireLiked? || e.RecheckMedia? || e.Respond?
  }

  predicate Stale(w: World, id: nat) {
    id in w.ops && w.ops[id].gen < w.session.generation && FenceOf(w.ops[id]) <= w.session.generation
  }

  /**
    The exception: a media request sent only after its caller's generation ended, refused in the one it was sent
    in.
  */
  predicate LateMediaRejection(w: World, e: Event)
    requires OnOperation(e) && e.id in w.ops
  {
    var op := w.ops[e.id];
    op.MediaFetch? && op.fetchGen == w.session.generation && e == Respond(e.id, Failed(CredentialRejected))
  }

  predicate NothingButOps(w: World, next: World) {
    next.session == w.session && next.cache == w.cache && next.origins == w.origins
  }

  // ----- One event

  lemma StaleResponseIsFenced(w: World, id: nat, r: Response)
    requires Stale(w, id) && AwaitsResponse(w.ops[id]) && !w.ops[id].MediaFetch?
    ensures NothingButOps(w, RespondTo(w, id, w.ops[id], r).0)
    ensures RespondTo(w, id, w.ops[id], r).1 in {Replaced, QrTimedOut}
  {
    hide RespondCurrent;
  }

  lemma StaleMediaResponse(w: World, id: nat, r: Response)
    requires Stale(w, id) && w.ops[id].MediaFetch?
    ensures var (next, outcome) := RespondTo(w, id, w.ops[id], r);
      var sentNow := w.ops[id].fetchGen == w.session.generation;
      (NothingButOps(w, next) <==> !(sentNow && r == Failed(CredentialRejected)))
      && (next.session == w.session <==> !(sentNow && r == Failed(CredentialRejected)))
      && next.cache == w.cache
      && outcome == (if !sentNow then Replaced
                     else if r.Failed? then ClientFailure(r.error)
                     else if r.MediaIs? then Replaced
                     else Ignored)
  {
  }

  lemma StaleOtherEvent(w: World, e: Event)
    requires OnOperation(e) && !e.Respond? && Stale(w, e.id)
    ensures NothingButOps(w, Continue(w, e, e.id).0)
    ensures Completes(e) ==> Continue(w, e, e.id).1 in {Replaced, QrTimedOut, Ignored}
  {
    hide RespondTo;
  }

  /**
    Whatever event hits an operation whose generation has ended, session, cache and the
    ownership of cached data stay as they are, except exactly in the late media rejection.
  */
  lemma StaleEventLeavesSession(w: World, e: Event)
    requires OnOperation(e) && Stale(w, e.id)
    ensures NothingButOps(w, Step(w, e)) <==> !LateMediaRejection(w, e)
    ensures Step(w, e).session == w.session <==> !LateMediaRejection(w, e)
    ensures Step(w, e).cache == w.cache
  {
    hide RespondTo, Continue, NothingButOps;
    var op := w.ops[e.id];
    if !e.Respond? {
      StaleOtherEvent(w, e);
      SameParts(w, Step(w, e));
    } else {
      RespondStep(w, e);
      if AwaitsResponse(op) && op.MediaFetch? {
        StaleMediaResponse(w, e.id, e.response);
      } else if AwaitsResponse(op) {
        StaleResponseIsFenced(w, e.id, e.response);
        SameParts(w, Step(w, e));
      } else {
        SameWorld(w);
      }
    }
  }

  lemma SameParts(w: World, next: World)
    requires NothingButOps(w, next)
    ensures next.session == w.session && next.cache == w.cache
  {
  }

  lemma SameWorld(w: World)
    ensures NothingButOps(w, w)
  {
  }

  lemma RespondStep(w: World, e: Event)
    requires e.Respond? && e.id in w.ops
    ensures Perform(w, e)
         == if AwaitsResponse(w.ops[e.id]) then RespondTo(w, e.id, w.ops[e.id], e.response) else (w, Ignored)
  {
    hide RespondTo;
  }

  /**
    What the caller of such an operation is told: that the session was replaced, or that a QR attempt
    timed out. Only a media request sent in the generation now current reports its own failure instead.
  */
  lemma StaleOutcome(w: World, e: Event)
    requires OnOperation(e) && Completes(e) && Stale(w, e.id)
    ensures var op, outcome := w.ops[e.id], Perform(w, e).1;
      if op.MediaFetch? && op.fetchGen == w.session.generation && e.Respond? && e.response.Failed? then
        outcome == ClientFailure(e.response.error)
      else outcome in {Replaced, QrTimedOut, Ignored}
  {
    hide RespondTo, Continue;
    var op := w.ops[e.id];
    if !e.Respond? {
      StaleOtherEvent(w, e);
    } else {
      RespondStep(w, e);
      if AwaitsResponse(op) && op.MediaFetch? {
        StaleMediaResponse(w, e.id, e.response);
      } else if AwaitsResponse(op) {
        StaleResponseIsFenced(w, e.id, e.response);
      }
    }
  }

  // ----- The exception happens

  const SENT_LATE: seq<Event> := [BeginMedia(1, (7, 0), 0), ImportCredential(5), FetchMedia(1)]

  lemma MediaBegins(w: World)
    requires w == Initial(map[])
    ensures var next := Step(w, BeginMedia(1, (7, 0), 0));
      next.ops == map[1 := MediaMiss(0, (7, 0), 0)] && next.session == w.session
  {
    assert Cache.Get(w.cache, (7, 0), 0, 0) == ([], None);
    hide Cache.Get;
  }

  lemma ImportIsNow(w: World)
    ensures Step(w, ImportCredential(5)) == w.(session := Import(w.session, 5))
  {
  }

  lemma MediaIsSent(w: World)
    requires w.ops == map[1 := MediaMiss(0, (7, 0), 0)]
    ensures var next := Step(w, FetchMedia(1));
      next.ops == map[1 := MediaFetch(0, (7, 0), 0, w.session.generation)] && next.session == w.session
  {
  }

  lemma LateRejection(w: World)
    requires w.ops == map[1 := MediaFetch(0, (7, 0), 0, 1)] && w.session.generation == 1
    ensures Step(w, Respond(1, Failed(CredentialRejected))).session == Reject(w.session, 1).0
  {
  }

  /** A media request begun before an import and sent after it: its refusal discards the imported candidate. */
  lemma LateRejectionEndsNewSession()
    ensures var w := Run(Initial(map[]), SENT_LATE);
      var next := Step(w, Respond(1, Failed(CredentialRejected)));
      Stale(w, 1) && w.session.pending == Some(5) && LateMediaRejection(w, Respond(1, Failed(CredentialRejected)))
      && next.session.pending.None? && next.session.generation == w.session.generation + 1
  {
    hide Step;
    var w := Initial(map[]);
    var begun := Step(w, SENT_LATE[0]);
    var imported := Step(begun, SENT_LATE[1]);
    RunsThree(w, SENT_LATE[0], SENT_LATE[1], SENT_LATE[2]);
    MediaBegins(w);
    ImportIsNow(begun);
    MediaIsSent(imported);
    LateRejection(Step(imported, SENT_LATE[2]));
  }

  lemma RunsThree(w: World, a: Event, b: Event, c: Event)
    ensures Run(w, [a, b, c]) == Step(Step(Step(w, a), b), c)
  {
    hide Step;
    var events := [a, b, c];
    assert events[..2] == [a, b] && [a, b][..1] == [a] && [a][..0] == [];
    assert Run(w, [a]) == Step(Run(w, []), a);
    assert Run(w, [a, b]) == Step(Run(w, [a]), b);
  }

  // ----- Every run

  /** The operation is in flight at every moment of the run, so it is the same operation at its end. */
  ghost predicate InFlightThroughout(w: World, events: seq<Event>, id: nat)
    decreases |events|
  {
    id in Run(w, events).ops && (events == [] || InFlightThroughout(w, events[..|events| - 1], id))
  }

  lemma BeginKeepsOthers(w: World, e: Event, id: nat)
    requires Starts(e) && e.id != id
    ensures id in Begin(w, e).0.ops <==> id in w.ops
    ensures id in w.ops ==> Begin(w, e).0.ops[id] == w.ops[id]
  {
    hide Cache.Get;
  }

  lemma ContinueKeepsBirth(w: World, e: Event, id: nat)
    requires OnOperation(e) && e.id in w.ops && !e.Respond? && id in w.ops && id in Continue(w, e, e.id).0.ops
    ensures Continue(w, e, e.id).0.ops[id].gen == w.ops[id].gen
  {
  }

  lemma ResponseKeepsBirth(w: World, id: nat, other: nat, r: Response)
    requires id in w.ops && AwaitsResponse(w.ops[id]) && other in w.ops
    requires other in RespondTo(w, id, w.ops[id], r).0.ops
    ensures RespondTo(w, id, w.ops[id], r).0.ops[other].gen == w.ops[other].gen
  {
    hide Cache.Insert;
  }

  /** An operation never moves to another generation. */
  lemma StepKeepsBirth(w: World, e: Event, id: nat)
    requires id in w.ops && id in Step(w, e).ops
    ensures Step(w, e).ops[id].gen == w.ops[id].gen
  {
    hide RespondTo, Begin, Continue;
    if Immediate(e) {
    } else if Starts(e) {
      if e.id !in w.ops {
        BeginKeepsOthers(w, e, id);
      }
    } else if e.id in w.ops {
      if e.Respond? {
        RespondStep(w, e);
        if AwaitsResponse(w.ops[e.id]) {
          ResponseKeepsBirth(w, e.id, id, e.response);
        }
      } else {
        ContinueKeepsBirth(w, e, id);
      }
    }
  }

  lemma {:induction false} BirthIsFixed(w: World, events: seq<Event>, id: nat)
    requires InFlightThroughout(w, events, id)
    ensures id in w.ops && Run(w, events).ops[id].gen == w.ops[id].gen
    decreases |events|
  {
    if events != [] {
      hide Step;
      var before := events[..|events| - 1];
      BirthIsFixed(w, before, id);
      StepKeepsBirth(Run(w, before), events[|events| - 1], id);
    }
  }

  /**
    Once the generation an operation began in has ended, it stays so for as long as the operation is in
    flight, over any run: whatever event then hits it, and however late, session and cache stay as they
    are and its caller is told, except exactly in the late media rejection.
  */
  lemma StaleForever(w: World, events: seq<Event>, e: Event)
    requires OnOperation(e) && e.id in w.ops && InFlightThroughout(w, events, e.id)
    requires Invariant(w) && w.ops[e.id].gen < w.session.generation
    ensures var later := Run(w, events);
      Stale(later, e.id) && later.ops[e.id].gen == w.ops[e.id].gen
      && (Step(later, e).session == later.session <==> !LateMediaRejection(later, e))
      && Step(later, e).cache == later.cache
      && (Completes(e) && !later.ops[e.id].MediaFetch? ==> Perform(later, e).1 in {Replaced, QrTimedOut, Ignored})
  {
    var later := Run(w, events);
    BirthIsFixed(w, events, e.id);
    RunNeverLowersGeneration(w, events);
    RunKeeps(w, events);
    assert Fits(later.session, later.ops[e.id]);
    hide Step, Perform, Invariant, Run;
    StaleEventLeavesSession(later, e);
    if Completes(e) {
      StaleOutcome(later, e);
    }
  }
}
