/**
  What cancelling, closing and signing out end: the generation, whatever was to be redeemed in it,
  and with them every login begun before, over any later run.
*/
module SessionEndings {
  import opened Basics
  import opened SessionSpec
  import opened SessionTheorems
  import opened SessionFencing

  /** Nothing is left from which anybody could sign in. */
  predicate NothingToRedeem(s: Session) {
    s.pending.None? && s.sms.None?
  }

  // ----- Each ending

  /** Cancelling an SMS login ends challenge, candidate and generation, and keeps the account. */
  lemma CancelSmsEnds(w: World)
    ensures var next := Step(w, DoCancelSms);
      NothingToRedeem(next.session) && next.session.generation == w.session.generation + 1
      && next.session.active == w.session.active && next.ops == w.ops
  {
  }

  /** The call reports whether there was anything to cancel. */
  lemma CancelSmsReports(s: Session)
    ensures CancelSms(s).1 <==> s.sms.Some? || s.pending.Some?
  {
  }

  /** Signing out ends everything. */
  lemma SignOutEnds(w: World)
    ensures var next := Step(w, DoSignOut);
      NothingToRedeem(next.session) && next.session.active.None? && next.session.likedPlaylist.None?
      && next.session.likedMembership.None? && next.session.recentSnapshot.None?
      && next.session.generation == w.session.generation + 1 && next.ops == w.ops
  {
  }

  /** Cancelling a verification ends its generation and keeps the candidate; without a candidate nothing happens. */
  lemma CancelPendingEnds(w: World)
    ensures var next := Step(w, DoCancelPending);
      if w.session.pending.None? then next == w
      else
        next.session.generation == w.session.generation + 1 && next.session.pending == w.session.pending
        && next.session.active == w.session.active && next.session.sms == w.session.sms && next.ops == w.ops
  {
  }

  /** The cancellation handle of a QR attempt ends its generation once, and no other generation ever. */
  lemma CancelQrEnds(w: World, id: nat)
    requires id in w.ops && w.ops[id].Qr?
    ensures var op := w.ops[id]; var next := Step(w, CancelQr(id));
      id in next.ops && next.ops[id] == op.(cancellable := false)
      && (if op.cancellable && op.gen == w.session.generation then
            next.session.generation == w.session.generation + 1 && next.session.active == w.session.active
            && next.session.pending == w.session.pending && next.session.sms == w.session.sms
          else next.session == w.session)
  {
  }

  /** Closing an unfinished attempt ends its own generation; closing any other changes nothing but the attempt. */
  lemma CloseQrEnds(w: World, id: nat)
    requires id in w.ops && w.ops[id].Qr? && w.ops[id].phase == Idle
    ensures var op := w.ops[id]; var next := Step(w, CloseQr(id));
      id !in next.ops
      && (if !op.finished && op.gen == w.session.generation then
            next.session.generation == w.session.generation + 1 && next.session.active == w.session.active
            && next.session.pending == w.session.pending && next.session.sms == w.session.sms
          else next.session == w.session)
  {
  }

  // ----- And that it lasts

  /** Events that begin a login from nothing. */
  predicate NewLogin(e: Event) {
    e.ImportCredential? || e.BeginSms? || e.BeginQr?
  }

  /** Does this event, here, end the login in progress? */
  predicate EndsLogin(w: World, e: Event) {
    e.DoSignOut? || e.DoCancelSms?
    || (e.CancelQr? && e.id in w.ops && w.ops[e.id].Qr? && w.ops[e.id].cancellable
        && w.ops[e.id].gen == w.session.generation)
    || (e.CloseQr? && e.id in w.ops && w.ops[e.id].Qr? && !w.ops[e.id].finished && w.ops[e.id].phase == Idle
        && w.ops[e.id].gen == w.session.generation)
  }

  /** Nothing to redeem, and no login or verification of the current generation in flight. */
  ghost predicate LoggedOut(w: World) {
    NothingToRedeem(w.session)
    && forall id :: id in w.ops && w.ops[id].gen == w.session.generation ==> !LogsIn(w.ops[id]) && !w.ops[id].Verify?
  }

  lemma EndingLogsOut(w: World, e: Event)
    requires Invariant(w) && EndsLogin(w, e)
    ensures var next := Step(w, e);
      LoggedOut(next) && next.session.generation > w.session.generation
      && (next.session.active.Some? ==> next.session.active == w.session.active)
  {
    var next := Step(w, e);
    if e.CancelQr? {
      CancelQrEnds(w, e.id);
      assert Fits(w.session, w.ops[e.id]);
    } else if e.CloseQr? {
      CloseQrEnds(w, e.id);
      assert Fits(w.session, w.ops[e.id]);
    }
    forall id | id in next.ops ensures next.ops[id].gen < next.session.generation {
      assert id in w.ops && next.ops[id].gen == w.ops[id].gen && Fits(w.session, w.ops[id]) by {
        OpsAfterEnding(w, e, id);
      }
    }
  }

  lemma OpsAfterEnding(w: World, e: Event, id: nat)
    requires Invariant(w) && EndsLogin(w, e) && id in Step(w, e).ops
    ensures id in w.ops && Step(w, e).ops[id].gen == w.ops[id].gen && Fits(w.session, w.ops[id])
  {
    hide RequestAlone, CacheFresh, LocksHeld;
  }

  // ----- One event cannot bring a login back

  lemma StartStaysOut(w: World, e: Event)
    requires LoggedOut(w) && Starts(e) && !NewLogin(e) && e.id !in w.ops
    ensures LoggedOut(Begin(w, e).0) && Begin(w, e).0.session.active == w.session.active
  {
    hide Cache.Get;
  }

  lemma OtherStaysOut(w: World, e: Event)
    requires OnOperation(e) && !e.Respond? && e.id in w.ops
    requires LoggedOut(w) && OpsFit(w)
    ensures LoggedOut(Continue(w, e, e.id).0) && Continue(w, e, e.id).0.session.active == w.session.active
  {
    var next := Continue(w, e, e.id).0;
    assert Fits(w.session, w.ops[e.id]);
    assert NothingToRedeem(next.session) && next.session.active == w.session.active;
    forall id | id in next.ops && next.ops[id].gen == next.session.generation
      ensures !LogsIn(next.ops[id]) && !next.ops[id].Verify?
    {
      OtherKind(w, e, id);
      assert Fits(w.session, w.ops[id]);
    }
  }

  lemma OtherKind(w: World, e: Event, id: nat)
    requires OnOperation(e) && !e.Respond? && e.id in w.ops && id in Continue(w, e, e.id).0.ops
    ensures id in w.ops && Continue(w, e, e.id).0.ops[id].gen == w.ops[id].gen
    ensures LogsIn(Continue(w, e, e.id).0.ops[id]) == LogsIn(w.ops[id])
    ensures Continue(w, e, e.id).0.ops[id].Verify? == w.ops[id].Verify?
    ensures Continue(w, e, e.id).0.session.generation >= w.session.generation
  {
  }

  lemma ResponseStaysOut(w: World, id: nat, r: Response)
    requires id in w.ops && AwaitsResponse(w.ops[id])
    requires LoggedOut(w) && OpsFit(w)
    ensures var next := RespondTo(w, id, w.ops[id], r).0;
      LoggedOut(next) && (next.session.active.Some? ==> next.session.active == w.session.active)
  {
    var next := RespondTo(w, id, w.ops[id], r).0;
    ResponseSession(w, id, r);
    forall other | other in next.ops && next.ops[other].gen == next.session.generation
      ensures !LogsIn(next.ops[other]) && !next.ops[other].Verify?
    {
      ResponseKind(w, id, r, other);
      assert Fits(w.session, w.ops[other]);
    }
  }

  lemma ResponseSession(w: World, id: nat, r: Response)
    requires id in w.ops && AwaitsResponse(w.ops[id]) && LoggedOut(w) && OpsFit(w)
    ensures var next := RespondTo(w, id, w.ops[id], r).0;
      NothingToRedeem(next.session) && next.session.generation >= w.session.generation
      && (next.session.active.Some? ==> next.session.active == w.session.active)
  {
    assert Fits(w.session, w.ops[id]);
    hide OpsFit, LoggedOut;
  }

  /** A login operation turns only into one of the same generation. */
  lemma ResponseKind(w: World, id: nat, r: Response, other: nat)
    requires id in w.ops && AwaitsResponse(w.ops[id]) && other in RespondTo(w, id, w.ops[id], r).0.ops
    ensures var next := RespondTo(w, id, w.ops[id], r).0;
      other in w.ops && next.ops[other].gen == w.ops[other].gen
      && (LogsIn(next.ops[other]) || next.ops[other].Verify? ==> LogsIn(w.ops[other]) || w.ops[other].Verify?)
  {
    hide Cache.Insert;
  }

  lemma NowStaysOut(w: World, e: Event)
    requires Immediate(e) && !NewLogin(e)
    requires LoggedOut(w) && OpsFit(w)
    ensures LoggedOut(Now(w, e)) && (Now(w, e).session.active.Some? ==> Now(w, e).session.active == w.session.active)
  {
    var next := Now(w, e);
    forall id | id in next.ops && next.ops[id].gen == next.session.generation
      ensures !LogsIn(next.ops[id]) && !next.ops[id].Verify?
    {
      assert Fits(w.session, w.ops[id]);
    }
  }

  lemma StepStaysOut(w: World, e: Event)
    requires Invariant(w) && LoggedOut(w) && !NewLogin(e)
    ensures var next := Step(w, e);
      LoggedOut(next) && (next.session.active.Some? ==> next.session.active == w.session.active)
  {
    hide LoggedOut, Begin, Continue, RespondTo, Now;
    if Immediate(e) {
      NowStaysOut(w, e);
    } else if Starts(e) {
      if e.id !in w.ops {
        StartStaysOut(w, e);
      }
    } else if e.id in w.ops {
      if e.Respond? {
        RespondStep(w, e);
        if AwaitsResponse(w.ops[e.id]) {
          ResponseStaysOut(w, e.id, e.response);
        }
      } else {
        OtherStaysOut(w, e);
      }
    }
  }

  lemma {:induction false} RunStaysOut(w: World, events: seq<Event>)
    requires Invariant(w) && LoggedOut(w) && (forall k :: 0 <= k < |events| ==> !NewLogin(events[k]))
    ensures var later := Run(w, events);
      LoggedOut(later) && (later.session.active.Some? ==> later.session.active == w.session.active)
    decreases |events|
  {
    if events != [] {
      hide LoggedOut, Invariant, Step;
      var before := events[..|events| - 1];
      RunStaysOut(w, before);
      RunKeeps(w, before);
      StepStaysOut(Run(w, before), events[|events| - 1]);
    }
  }

  /**
    After signing out, cancelling an SMS login, or cancelling or closing the current QR attempt, nothing that
    was begun before retains a candidate, leaves a challenge or makes an account active, over any run that
    begins no new login.
  */
  lemma EndedLoginStaysOut(w: World, e: Event, events: seq<Event>)
    requires Invariant(w) && EndsLogin(w, e) && (forall k :: 0 <= k < |events| ==> !NewLogin(events[k]))
    ensures var later := Run(Step(w, e), events);
      NothingToRedeem(later.session) && later.session.generation > w.session.generation
      && (later.session.active.Some? ==> later.session.active == w.session.active && !e.DoSignOut?)
  {
    EndingLogsOut(w, e);
    if e.DoSignOut? {
      SignOutEnds(w);
    }
    StepKeepsInvariant(w, e);
    hide Invariant, Step, Run;
    RunStaysOut(Step(w, e), events);
    RunNeverLowersGeneration(Step(w, e), events);
  }
}
