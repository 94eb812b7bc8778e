/**
  What the session owner achieves when left alone: each way of signing in ends with the
  verified account active, a loaded liked set answers later callers, and nothing of an
  earlier session shows through a new one.
*/
module SessionProgress {
  import opened Basics
  import opened SessionSpec
  import opened SessionTheorems
  import opened SessionFencing

  /** Signed in as this account in a fresh generation, with nothing left over. */
  predicate SignedIn(s: Session, credential: nat, user: nat) {
    s.active == Some(Account(credential, user)) && s.pending.None? && s.sms.None? && s.likedPlaylist.None?
    && s.likedMembership.None? && !s.needsRefresh && s.recentRequest.None? && s.recentSnapshot.None?
  }

  function Then(w: World, e: Event, f: Event): World {
    Step(Step(w, e), f)
  }

  /** Importing a credential and having it verified signs in, from any state. */
  lemma ImportSignsIn(w: World, id: nat, credential: nat, user: nat)
    requires id !in w.ops
    ensures var last := Step(Then(w, ImportCredential(credential), BeginVerify(id)), Respond(id, AccountIs(user)));
      SignedIn(last.session, credential, user) && id !in last.ops
  {
    var begun := Then(w, ImportCredential(credential), BeginVerify(id));
    assert begun.ops[id] == Verify(begun.session.generation, credential);
  }

  lemma SmsAsksForChallenge(w: World, id: nat, challenge: nat)
    requires id !in w.ops
    ensures var asked := Then(w, BeginSms(id), Respond(id, ChallengeIs(challenge)));
      asked.session.sms == Some(challenge) && asked.session.active.None? && asked.session.pending.None?
      && id !in asked.ops
  {
    var begun := Step(w, BeginSms(id));
    assert begun.ops[id] == SmsRequest(begun.session.generation);
  }

  lemma VerdictSignsIn(w: World, id: nat, credential: nat, user: nat)
    requires id in w.ops
    requires w.ops[id] == Verify(w.session.generation, credential)
          || (w.ops[id].Qr? && w.ops[id].gen == w.session.generation && w.ops[id].phase == Verifying(credential))
    ensures SignedIn(Step(w, Respond(id, AccountIs(user))).session, credential, user)
  {
  }

  lemma ChallengeIsRedeemed(w: World, id: nat, challenge: nat, credential: nat)
    requires id in w.ops && w.ops[id] == SmsLogin(w.session.generation, challenge)
    ensures var next := Step(w, Respond(id, CredentialIs(credential)));
      id in next.ops && next.ops[id] == Verify(next.session.generation, credential)
  {
  }

  lemma ChallengeSignsIn(w: World, id: nat, challenge: nat, credential: nat, user: nat)
    requires id !in w.ops && w.session.sms == Some(challenge) && w.session.pending.None?
    ensures var last := Step(Then(w, BeginSmsLogin(id), Respond(id, CredentialIs(credential))), Respond(id,
        AccountIs(user)));
      SignedIn(last.session, credential, user)
  {
    var begun := Step(w, BeginSmsLogin(id));
    assert id in begun.ops && begun.ops[id] == SmsLogin(begun.session.generation, challenge);
    hide Step, SignedIn;
    ChallengeIsRedeemed(begun, id, challenge, credential);
    VerdictSignsIn(Step(begun, Respond(id, CredentialIs(credential))), id, credential, user);
  }

  /** Asking for a code and redeeming it signs in, from any state. */
  lemma SmsSignsIn(w: World, id: nat, challenge: nat, credential: nat, user: nat)
    requires id !in w.ops
    ensures var asked := Then(w, BeginSms(id), Respond(id, ChallengeIs(challenge)));
      var last := Step(Then(asked, BeginSmsLogin(id), Respond(id, CredentialIs(credential))), Respond(id,
          AccountIs(user)));
      SignedIn(last.session, credential, user)
  {
    hide Step;
    SmsAsksForChallenge(w, id, challenge);
    ChallengeSignsIn(Then(w, BeginSms(id), Respond(id, ChallengeIs(challenge))), id, challenge, credential, user);
  }

  lemma QrOpens(w: World, id: nat)
    requires id !in w.ops
    ensures var shown := Then(w, BeginQr(id), Respond(id, Ready));
      id in shown.ops && shown.ops[id] == Qr(shown.session.generation, false, true, Idle, 0)
  {
    var begun := Step(w, BeginQr(id));
    assert begun.ops[id] == QrKey(begun.session.generation);
  }

  lemma PollConfirms(w: World, id: nat, credential: nat)
    requires id in w.ops && w.ops[id] == Qr(w.session.generation, false, true, Polling, 0)
    ensures var next := Step(w, Respond(id, CredentialIs(credential)));
      id in next.ops && next.ops[id] == Qr(next.session.generation, true, false, Verifying(credential), 0)
  {
  }

  lemma ConfirmedQrSignsIn(w: World, id: nat, credential: nat, user: nat)
    requires id in w.ops && w.ops[id] == Qr(w.session.generation, false, true, Idle, 0)
    ensures var last := Step(Then(w, BeginAdvance(id, false), Respond(id, CredentialIs(credential))), Respond(id,
        AccountIs(user)));
      SignedIn(last.session, credential, user)
  {
    var polling := Step(w, BeginAdvance(id, false));
    assert id in polling.ops && polling.ops[id] == Qr(polling.session.generation, false, true, Polling, 0);
    hide Step, SignedIn;
    PollConfirms(polling, id, credential);
    VerdictSignsIn(Step(polling, Respond(id, CredentialIs(credential))), id, credential, user);
  }

  /** Opening a QR attempt and confirming it on the first poll signs in, from any state. */
  lemma QrSignsIn(w: World, id: nat, credential: nat, user: nat)
    requires id !in w.ops
    ensures var shown := Then(w, BeginQr(id), Respond(id, Ready));
      var last := Step(Then(shown, BeginAdvance(id, false), Respond(id, CredentialIs(credential))), Respond(id,
          AccountIs(user)));
      SignedIn(last.session, credential, user)
  {
    hide Step;
    QrOpens(w, id);
    ConfirmedQrSignsIn(Then(w, BeginQr(id), Respond(id, Ready)), id, credential, user);
  }

  /** Ending or replacing a session forgets everything but its counters. */
  lemma EndingForgets(s: Session, t: Session, credential: nat, user: nat)
    requires s.generation == t.generation && s.revision == t.revision
    ensures SignOut(s) == SignOut(t) && BeginLogin(s) == BeginLogin(t) && Import(s, credential) == Import(t, credential)
    ensures Reject(s, s.generation) == Reject(t, t.generation)
    ensures Install(s, s.generation, credential, user) == Install(t, t.generation, credential, user)
  {
  }

  // ----- The liked set

  /** A caller in `waiting` holds the load lock; the other waits for it with the same revision in mind. */
  predicate TwoCallers(w: World, loader: nat, waiter: nat) {
    loader != waiter && loader in w.ops && waiter in w.ops && w.likedLock == Some(loader)
    && w.ops[loader].LikedLoad? && w.ops[loader].gen == w.session.generation
    && w.ops[waiter].LikedWait? && w.ops[waiter].gen == w.session.generation
    && w.ops[waiter].observed == w.session.revision
    && w.session.revision < REVISIONS
  }

  /** One load answers both callers, even when the second asked for a forced refresh. */
  lemma WaiterJoinsLoad(w: World, loader: nat, waiter: nat, ids: set<nat>)
    requires TwoCallers(w, loader, waiter)
    ensures var (loaded, first) := Perform(w, Respond(loader, LikedAre(ids)));
      var (joined, second) := Perform(loaded, AcquireLiked(waiter));
      first == DeliveredLiked(ids) && second == DeliveredLiked(ids) && waiter !in joined.ops
      && joined.session == loaded.session && joined.likedLock.None?
  {
    var (loaded, _) := Perform(w, Respond(loader, LikedAre(ids)));
    RevisionMoves(w.session.revision);
    assert loaded.session == StoreLiked(w.session, w.session.generation, ids).0;
    assert waiter in loaded.ops && loaded.ops[waiter] == w.ops[waiter];
    assert loaded.session.revision == NextRevision(w.session.revision);
  }

  lemma RevisionMoves(revision: nat)
    requires revision < REVISIONS
    ensures NextRevision(revision) != revision
  {
  }

  /** The cached set may answer unforced callers. */
  predicate Usable(s: Session, ids: set<nat>) {
    s.likedMembership == Some(ids) && !s.needsRefresh
  }

  /** What may end that: a new generation, an answer to a write or load of this one, or a refresh request. */
  predicate Disturbs(w: World, e: Event) {
    Step(w, e).session.generation != w.session.generation || e.RequestRefresh?
    || (e.Respond? && e.id in w.ops && (w.ops[e.id].Like? || w.ops[e.id].LikedLoad?)
        && w.ops[e.id].gen == w.session.generation)
  }

  ghost predicate Undisturbed(w: World, events: seq<Event>)
    decreases |events|
  {
    events == []
    || (Undisturbed(w, events[..|events| - 1]) && !Disturbs(Run(w, events[..|events| - 1]), events[|events| - 1]))
  }

  lemma ResponseKeepsSet(w: World, id: nat, r: Response, ids: set<nat>)
    requires Invariant(w) && Usable(w.session, ids) && id in w.ops && AwaitsResponse(w.ops[id])
    requires (w.ops[id].Like? || w.ops[id].LikedLoad?) ==> w.ops[id].gen != w.session.generation
    requires RespondTo(w, id, w.ops[id], r).0.session.generation == w.session.generation
    ensures Usable(RespondTo(w, id, w.ops[id], r).0.session, ids)
  {
    assert Fits(w.session, w.ops[id]);
    hide OpsFit, RequestAlone, CacheFresh, LocksHeld;
  }

  lemma ContinueKeepsSet(w: World, e: Event, ids: set<nat>)
    requires !Starts(e) && !Immediate(e) && !e.Respond? && e.id in w.ops
    requires Usable(w.session, ids) && Continue(w, e, e.id).0.session.generation == w.session.generation
    ensures Usable(Continue(w, e, e.id).0.session, ids)
  {
  }

  lemma StartKeepsSet(w: World, e: Event, ids: set<nat>)
    requires Starts(e) && Usable(w.session, ids) && Begin(w, e).0.session.generation == w.session.generation
    ensures Usable(Begin(w, e).0.session, ids)
  {
  }

  lemma StepKeepsSet(w: World, e: Event, ids: set<nat>)
    requires Invariant(w) && Usable(w.session, ids) && !Disturbs(w, e)
    ensures Usable(Step(w, e).session, ids)
  {
    hide Invariant, Begin, Continue, RespondTo, Usable;
    if Immediate(e) {
      NowKeepsSet(w, e, ids);
    } else if Starts(e) {
      if e.id !in w.ops {
        StartKeepsSet(w, e, ids);
      }
    } else if e.id in w.ops {
      if !e.Respond? {
        ContinueKeepsSet(w, e, ids);
      } else {
        RespondStep(w, e);
        if AwaitsResponse(w.ops[e.id]) {
          ResponseKeepsSet(w, e.id, e.response, ids);
        }
      }
    }
  }

  lemma NowKeepsSet(w: World, e: Event, ids: set<nat>)
    requires Immediate(e) && !e.RequestRefresh? && Usable(w.session, ids)
    requires Now(w, e).session.generation == w.session.generation
    ensures Usable(Now(w, e).session, ids)
  {
  }

  lemma {:induction false} RunKeepsSet(w: World, events: seq<Event>, ids: set<nat>)
    requires Invariant(w) && Usable(w.session, ids) && Undisturbed(w, events)
    ensures Usable(Run(w, events).session, ids)
    decreases |events|
  {
    if events != [] {
      hide Invariant, Usable, Disturbs, Step;
      var before := events[..|events| - 1];
      RunKeepsSet(w, before, ids);
      RunKeeps(w, before);
      StepKeepsSet(Run(w, before), events[|events| - 1], ids);
    }
  }

  /** A caller of the current session that waits for the lock and accepts a cached set. */
  predicate WaitsUnforced(w: World, id: nat) {
    id in w.ops && w.ops[id].LikedWait? && !w.ops[id].force && w.ops[id].gen == w.session.generation
  }

  lemma ServedAtOnce(w: World, id: nat, ids: set<nat>)
    requires Invariant(w) && Usable(w.session, ids)
    ensures id !in w.ops ==> Perform(w, BeginLiked(id, false)) == (w, DeliveredLiked(ids))
    ensures WaitsUnforced(w, id) && w.likedLock.None? ==> Perform(w, AcquireLiked(id)).1 == DeliveredLiked(ids)
  {
    hide OpsFit, RequestAlone, CacheFresh, LocksHeld;
  }

  lemma LoadIsUsable(w: World, loader: nat, ids: set<nat>)
    requires loader in w.ops && w.ops[loader].LikedLoad? && w.ops[loader].gen == w.session.generation
    ensures Usable(Step(w, Respond(loader, LikedAre(ids))).session, ids)
  {
  }

  /**
    One load answers every later unforced caller, whether new or waiting for the lock, over any run until the
    session is replaced, a write or load is answered or a refresh is asked for; nobody turns to the server.
  */
  lemma CachedSetIsServed(w: World, loader: nat, ids: set<nat>, events: seq<Event>, id: nat)
    requires Invariant(w)
    requires loader in w.ops && w.ops[loader].LikedLoad? && w.ops[loader].gen == w.session.generation
    requires Undisturbed(Step(w, Respond(loader, LikedAre(ids))), events)
    ensures var later := Run(Step(w, Respond(loader, LikedAre(ids))), events);
      (id !in later.ops ==> Perform(later, BeginLiked(id, false)) == (later, DeliveredLiked(ids)))
      && (WaitsUnforced(later, id) && later.likedLock.None? ==>
          Perform(later, AcquireLiked(id)).1 == DeliveredLiked(ids))
  {
    hide Invariant, Step, Perform, Run, Usable, Undisturbed;
    var loaded := Step(w, Respond(loader, LikedAre(ids)));
    StepKeepsInvariant(w, Respond(loader, LikedAre(ids)));
    LoadIsUsable(w, loader, ids);
    RunKeepsSet(loaded, events, ids);
    RunKeeps(loaded, events);
    ServedAtOnce(Run(loaded, events), id, ids);
  }

  /** A refresh request makes the next unforced caller wait for a load instead. */
  lemma MarkedSetIsReloaded(w: World, id: nat)
    requires id !in w.ops && w.session.active.Some? && w.session.likedMembership.Some? && w.likedLock.None?
    ensures var asked := Then(w, RequestRefresh, BeginLiked(id, false));
      var loading := Step(asked, AcquireLiked(id));
      id in loading.ops && loading.ops[id] == LikedLoad(w.session.generation, w.session.active.value)
      && loading.likedLock == Some(id)
  {
    var asked := Then(w, RequestRefresh, BeginLiked(id, false));
    assert asked.ops[id] == LikedWait(w.session.generation, w.session.active.value, w.session.revision, false);
  }

  // ----- Recent history and QR polling

  function Asked(w: World, first: nat, second: nat): World {
    Then(w, BeginRecentPage(first, true), BeginRecentPage(second, true))
  }

  lemma AskedFacts(w: World, first: nat, second: nat)
    requires first !in w.ops && second !in w.ops && first != second && w.session.active.Some?
    ensures var asked := Asked(w, first, second);
      var g, account := w.session.generation, w.session.active.value;
      first in asked.ops && asked.ops[first] == Recent(g, account, w.nextToken)
      && second in asked.ops && asked.ops[second] == Recent(g, account, w.nextToken + 1)
      && asked.session.recentRequest == Some(w.nextToken + 1) && asked.session.generation == g
  {
  }

  /** Of two requests for the history, answered in either order, only the later one is stored. */
  lemma LatestRecentRequestWins(w: World, first: nat, second: nat, early: seq<Option<nat>>, late: seq<Option<nat>>)
    requires first !in w.ops && second !in w.ops && first != second && w.session.active.Some?
    ensures var asked := Asked(w, first, second);
      Perform(asked, Respond(first, RowsAre(early))).1 == Replaced
      && Step(asked, Respond(first, RowsAre(early))).session == asked.session
      && Step(asked, Respond(second, RowsAre(late))).session.recentSnapshot == Some(late)
  {
    AskedFacts(w, first, second);
    hide Perform, Asked;
    RecentAnswer(Asked(w, first, second), first, early);
    RecentAnswer(Asked(w, first, second), second, late);
  }

  lemma RecentAnswer(w: World, id: nat, rows: seq<Option<nat>>)
    requires id in w.ops && w.ops[id].Recent? && w.ops[id].gen == w.session.generation
    ensures var (next, outcome) := Perform(w, Respond(id, RowsAre(rows)));
      if w.session.recentRequest == Some(w.ops[id].token) then next.session == w.session.(recentSnapshot := Some(rows))
      else next.session == w.session && outcome == Replaced
  {
  }

  /** An attempt polled again and again, each poll failing for lack of network. */
  function FailedPolls(s: Session, op: Op, n: nat): (r: Op)
    requires op.Qr? && op.phase == Idle
    ensures r.Qr? && r.phase == Idle
  {
    if n == 0 then op
    else
      var polling := QrAdvance(s, FailedPolls(s, op, n - 1), false).0;
      if polling.phase == Idle then polling else QrAnswer(s, polling, Failed(NetworkFailure)).1
  }

  /** A fresh attempt outlives two network failures in a row and ends with the third. */
  lemma {:induction false} ThirdFailureEnds(s: Session, op: Op, n: nat)
    requires op == Qr(s.generation, false, true, Idle, 0)
    ensures FailedPolls(s, op, n)
         == if n < NETWORK_FAILURE_LIMIT then Qr(s.generation, false, true, Idle, n)
            else Qr(s.generation, true, false, Idle, NETWORK_FAILURE_LIMIT)
  {
    if n > 0 {
      ThirdFailureEnds(s, op, n - 1);
    }
  }

  /** And any answered poll starts the count again. */
  lemma WaitingForgivesFailures(s: Session, op: Op, n: nat)
    requires op == Qr(s.generation, false, true, Idle, 0) && n < NETWORK_FAILURE_LIMIT
    ensures var polling := QrAdvance(s, FailedPolls(s, op, n), false).0;
      polling.Qr? && polling.phase == Polling && QrAnswer(s, polling, StillWaiting) == (s, op, Done)
  {
    ThirdFailureEnds(s, op, n);
  }
}
