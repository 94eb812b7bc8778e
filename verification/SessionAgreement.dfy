/**
  The cached liked set against the server's. Writes and loads go through one caller at a time and
  answers are truthful. A write is given up only where the cached set already shows its outcome, a
  new one does not reverse a write given up, and a load's answer shows the writes given up: then after
  every run the cached set is the server's, or marked for refresh, whenever those writes take effect.
*/
module SessionAgreement {
  import opened Basics
  import opened SessionSpec
  import opened SessionTheorems

  /** Operations that write the liked set or read it back. */
  predicate Writes(op: Op) {
    op.Like? || op.LikedLoad?
  }

  ghost predicate NoneWrites(w: World) {
    forall id :: id in w.ops ==> !Writes(w.ops[id])
  }

  ghost predicate NoLike(w: World) {
    forall id :: id in w.ops ==> !w.ops[id].Like?
  }

  /** Nobody relies on the cached set for this track, or it already shows the outcome of the write. */
  predicate Shows(s: Session, track: nat, liked: bool) {
    s.likedMembership.None? || s.needsRefresh || (track in s.likedMembership.value) == liked
  }

  /** Is this the moment a waiting caller turns to the server? */
  predicate StartsLoad(w: World, id: nat) {
    id in w.ops && w.ops[id].LikedWait? && w.likedLock.None? && w.session.generation == w.ops[id].gen
    && !ServesAfterWait(w.session, w.ops[id].observed, w.ops[id].force)
  }

  /** The same for a write that was given up: another account's set is not concerned. */
  predicate ShowsWrite(s: Session, d: Write) {
    s.active.Some? && s.active.value.user == d.user ==> Shows(s, d.track, d.liked)
  }

  ghost predicate AllShow(w: World) {
    forall k :: 0 <= k < |w.detached| ==> ShowsWrite(w.session, w.detached[k])
  }

  /** No write given up may still reverse this one in a cached set that is relied on. */
  ghost predicate Unopposed(w: World, user: nat, track: nat, liked: bool) {
    w.session.likedMembership.None? || w.session.needsRefresh
    || forall k :: 0 <= k < |w.detached| && w.detached[k].user == user && w.detached[k].track == track ==>
      w.detached[k].liked == liked
  }

  /** The answer to a load shows every write of its account that was given up and is still unsettled. */
  ghost predicate AnswerShows(w: World, user: nat, ids: set<nat>) {
    forall k :: 0 <= k < |w.detached| && w.detached[k].user == user ==>
      (w.detached[k].track in ids) == w.detached[k].liked
  }

  /**
    What is asked of the callers and of the server's answers. Nothing is asked of when, or whether,
    the server applies a write that was given up.
  */
  ghost predicate Honest(w: World, e: Event) {
    match e
    case BeginLike(id, track, liked) =>
      NoneWrites(w) && (w.session.active.Some? ==> Unopposed(w, w.session.active.value.user, track, liked))
    case AcquireLiked(id) => StartsLoad(w, id) ==> NoneWrites(w)
    case Respond(id, r) =>
      id in w.ops && w.ops[id].gen == w.session.generation ==>
        (w.ops[id].Like? ==> AnswersWrite(r, w.ops[id].applied))
        && (w.ops[id].LikedLoad? && r.LikedAre? ==>
            r.ids == ServerSet(w, w.ops[id].account.user) && AnswerShows(w, w.ops[id].account.user, r.ids))
    case Abandon(id) =>
      id in w.ops && w.ops[id].Like? && w.ops[id].gen == w.session.generation ==>
        Shows(w.session, w.ops[id].track, w.ops[id].liked)
    case _ => true
  }

  /** Success only after the write, a definite refusal only without it. */
  predicate AnswersWrite(r: Response, applied: bool) {
    (r.Written? && applied) || (r.Failed? && (OutcomeUnknown(r.error) || !applied))
  }

  ghost predicate HonestRun(w: World, events: seq<Event>)
    decreases |events|
  {
    events == [] ||
    (HonestRun(w, events[..|events| - 1]) && Honest(Run(w, events[..|events| - 1]), events[|events| - 1]))
  }

  /** The cached set, unless marked for refresh, is what the server holds for the active account. */
  predicate Agrees(w: World) {
    w.session.likedMembership.Some? && !w.session.needsRefresh ==>
      w.session.active.Some? && w.session.likedMembership.value == ServerSet(w, w.session.active.value.user)
  }

  /** A write in flight: not yet applied, applied but not yet recorded, or overtaken by a new session. */
  predicate WriteAgrees(w: World, op: Op)
    requires op.Like?
  {
    if op.gen != w.session.generation then w.session.likedMembership.None?
    else if !op.applied then Agrees(w)
    else w.session.likedMembership.Some? && !w.session.needsRefresh ==>
      ServerSet(w, op.account.user) == Delta(w.session.likedMembership.value, op.track, op.liked)
  }

  ghost predicate Agreement(w: World) {
    (forall a, b :: a in w.ops && b in w.ops && Writes(w.ops[a]) && Writes(w.ops[b]) ==> a == b)
    && (forall id :: id in w.ops && w.ops[id].Like? ==> WriteAgrees(w, w.ops[id]))
    && (NoLike(w) ==> Agrees(w))
    && AllShow(w)
    && (forall id :: id in w.ops && w.ops[id].Like? ==>
        Unopposed(w, w.ops[id].account.user, w.ops[id].track, w.ops[id].liked))
  }

  // ----- Events that leave the liked set alone

  predicate MembershipKept(w: World, next: World) {
    next.session.generation == w.session.generation && next.server == w.server
    && next.session.likedMembership == w.session.likedMembership && next.session.active == w.session.active
    && (w.session.needsRefresh ==> next.session.needsRefresh)
  }

  predicate Calm(w: World, next: World, id: nat) {
    next.ops - {id} == w.ops - {id} && next.detached == w.detached
    && (id in next.ops && Writes(next.ops[id]) ==> id in w.ops && w.ops[id] == next.ops[id])
    && (next.session.likedMembership.None?
        || (MembershipKept(w, next)
            && (id in w.ops && w.ops[id].Like? ==> id in next.ops && next.ops[id] == w.ops[id])))
  }

  lemma CalmWrites(w: World, next: World, id: nat, a: nat)
    requires Calm(w, next, id) && a in next.ops && Writes(next.ops[a])
    ensures a in w.ops && w.ops[a] == next.ops[a]
  {
    if a != id {
      OthersStay(w, next, id, a);
    }
  }

  lemma CalmKeeps(w: World, next: World, id: nat)
    requires Agreement(w) && Calm(w, next, id)
    ensures Agreement(next)
  {
    forall a, b | a in next.ops && b in next.ops && Writes(next.ops[a]) && Writes(next.ops[b]) ensures a == b {
      CalmWrites(w, next, id, a);
      CalmWrites(w, next, id, b);
    }
    forall a | a in next.ops && Writes(next.ops[a]) ensures a in w.ops && Writes(w.ops[a]) {
      CalmWrites(w, next, id, a);
    }
    forall a | a in next.ops && next.ops[a].Like? ensures WriteAgrees(next, next.ops[a]) {
      CalmWrites(w, next, id, a);
      assert WriteAgrees(w, w.ops[a]);
    }
    forall a | a in next.ops && next.ops[a].Like?
      ensures Unopposed(next, next.ops[a].account.user, next.ops[a].track, next.ops[a].liked)
    {
      CalmWrites(w, next, id, a);
      assert Unopposed(w, w.ops[a].account.user, w.ops[a].track, w.ops[a].liked);
    }
    forall k | 0 <= k < |next.detached| ensures ShowsWrite(next.session, next.detached[k]) {
      assert ShowsWrite(w.session, w.detached[k]);
    }
    if NoLike(next) && next.session.likedMembership.Some? {
      forall a | a in w.ops ensures !w.ops[a].Like? {
        if a != id {
          OthersStay(w, next, id, a);
        }
      }
    }
  }

  lemma NowAgrees(w: World, e: Event)
    requires Agreement(w) && OpsFit(w) && Immediate(e)
    ensures Agreement(Now(w, e))
  {
    if e.SettleWrite? {
      SettleAgrees(w, e.k, e.applied);
    } else {
      CalmKeeps(w, Now(w, e), 0);
    }
  }

  /** A settled write changes a set only if it concerns its account and the set does not show it. */
  lemma SettledSet(w: World, d: Write, user: nat)
    requires d.user == user ==> (d.track in ServerSet(w, user)) == d.liked
    ensures var server := w.server[d.user := Delta(ServerSet(w, d.user), d.track, d.liked)];
      ServerSet(w.(server := server), user) == ServerSet(w, user)
  {
    if d.user == user {
      DeltaChangesNothingIff(ServerSet(w, user), d.track, d.liked);
    }
  }

  /** Settling leaves the writes that remain as they were. */
  lemma SettledRest(w: World, k: nat, applied: bool, j: nat)
    requires k < |w.detached| && j < |Settle(w, k, applied).detached|
    ensures Settle(w, k, applied).detached[j] == w.detached[if j < k then j else j + 1]
  {
  }

  lemma SettledWrite(w: World, k: nat, op: Op)
    requires Agreement(w) && OpsFit(w) && k < |w.detached| && op.Like? && Fits(w.session, op) && WriteAgrees(w, op)
    requires Unopposed(w, op.account.user, op.track, op.liked)
    ensures WriteAgrees(Settle(w, k, true), op)
  {
    var d := w.detached[k];
    assert ShowsWrite(w.session, d);
    if op.gen == w.session.generation && w.session.likedMembership.Some? && !w.session.needsRefresh {
      SettledSet(w, d, op.account.user);
    }
  }

  lemma SettledAgrees(w: World, k: nat)
    requires Agrees(w) && k < |w.detached| && ShowsWrite(w.session, w.detached[k])
    ensures Agrees(Settle(w, k, true))
  {
    if w.session.likedMembership.Some? && !w.session.needsRefresh {
      SettledSet(w, w.detached[k], w.session.active.value.user);
    }
  }

  /** Whenever the server applies a write given up, or loses it, the cached set stays right. */
  lemma SettleAgrees(w: World, k: nat, applied: bool)
    requires Agreement(w) && OpsFit(w)
    ensures Agreement(Settle(w, k, applied))
  {
    var next := Settle(w, k, applied);
    if k < |w.detached| {
      forall j | 0 <= j < |next.detached|
        ensures next.detached[j] in w.detached && ShowsWrite(next.session, next.detached[j])
      {
        SettledRest(w, k, applied, j);
      }
      forall id | id in next.ops && next.ops[id].Like?
        ensures WriteAgrees(next, next.ops[id])
        ensures Unopposed(next, next.ops[id].account.user, next.ops[id].track, next.ops[id].liked)
      {
        assert Fits(w.session, w.ops[id]) && WriteAgrees(w, w.ops[id]);
        assert Unopposed(w, w.ops[id].account.user, w.ops[id].track, w.ops[id].liked);
        if applied {
          SettledWrite(w, k, w.ops[id]);
        }
      }
      if NoLike(next) && applied {
        assert NoLike(w) && ShowsWrite(w.session, w.detached[k]);
        SettledAgrees(w, k);
      }
    }
  }

  lemma StartIsCalm(w: World, e: Event)
    requires Starts(e) && !e.BeginLike?
    requires e.id !in w.ops
    ensures Calm(w, Begin(w, e).0, e.id)
  {
    hide Cache.Get;
  }

  lemma LikeStartAgrees(w: World, e: Event)
    requires Agreement(w) && e.BeginLike? && e.id !in w.ops && Honest(w, e)
    ensures Agreement(Begin(w, e).0)
  {
    assert NoLike(w);
    var next := Begin(w, e).0;
    assert Agrees(w) && next.server == w.server && next.session == w.session;
  }

  lemma EventIsCalm(w: World, e: Event)
    requires !Starts(e) && !Immediate(e) && !e.Respond? && !e.ServerApplies? && !e.AcquireLiked?
    requires e.id in w.ops
    requires !(e.Abandon? && w.ops[e.id].Like?)
    ensures Calm(w, Continue(w, e, e.id).0, e.id)
  {
  }

  // ----- Events on the liked set

  lemma AcquireAgrees(w: World, e: Event)
    requires Agreement(w) && e.AcquireLiked? && e.id in w.ops && Honest(w, e)
    ensures Agreement(Continue(w, e, e.id).0)
  {
    var next := Continue(w, e, e.id).0;
    if !StartsLoad(w, e.id) {
      CalmKeeps(w, next, e.id);
    } else {
      assert NoLike(w);
      assert next.session == w.session && next.server == w.server && next.detached == w.detached;
      forall a | a in next.ops ensures !next.ops[a].Like? && (Writes(next.ops[a]) ==> a == e.id) {
        if a != e.id {
          assert a in w.ops && next.ops[a] == w.ops[a];
        }
      }
      assert Agrees(next) == Agrees(w);
    }
  }

  /** The one writer or loader is gone, and what it may have left behind shows. */
  lemma LikeEnds(w: World, next: World, id: nat)
    requires Agreement(w) && id in w.ops && Writes(w.ops[id]) && next.ops == w.ops - {id} && Agrees(next)
    requires AllShow(next)
    ensures Agreement(next)
  {
    forall a | a in next.ops ensures !Writes(next.ops[a]) {
      assert a in w.ops && w.ops[a] == next.ops[a];
    }
  }

  lemma ApplyAgrees(w: World, e: Event)
    requires Agreement(w) && OpsFit(w) && e.ServerApplies? && e.id in w.ops
    ensures Agreement(Continue(w, e, e.id).0)
  {
    var op := w.ops[e.id];
    var next := Continue(w, e, e.id).0;
    if op.Like? && !op.applied {
      assert Fits(w.session, op) && WriteAgrees(w, op);
      assert next.session == w.session && next.ops == w.ops[e.id := op.(applied := true)];
      assert ServerSet(next, op.account.user) == Delta(ServerSet(w, op.account.user), op.track, op.liked);
      forall a | a in next.ops && Writes(next.ops[a]) ensures a == e.id {
        assert a in w.ops && Writes(w.ops[a]);
      }
      assert e.id in next.ops && next.ops[e.id].Like?;
    }
  }

  lemma LateWriteAnswered(w: World, e: Event)
    requires Agreement(w) && e.Respond? && e.id in w.ops && w.ops[e.id].Like?
    requires w.ops[e.id].gen != w.session.generation
    ensures Agreement(Continue(w, e, e.id).0)
  {
    var next := Continue(w, e, e.id).0;
    assert WriteAgrees(w, w.ops[e.id]);
    assert next.ops == w.ops - {e.id} && next.server == w.server && next.session == w.session;
    LikeEnds(w, next, e.id);
  }

  lemma PromptWriteAnswered(w: World, e: Event)
    requires Agreement(w) && OpsFit(w) && e.Respond? && e.id in w.ops && w.ops[e.id].Like? && Honest(w, e)
    requires w.ops[e.id].gen == w.session.generation
    ensures Agreement(Continue(w, e, e.id).0)
  {
    var next := Continue(w, e, e.id).0;
    assert WriteAgrees(w, w.ops[e.id]) && Fits(w.session, w.ops[e.id]);
    assert next.ops == w.ops - {e.id} && next.server == w.server;
    hide Agreement, OpsFit;
    LikeEnds(w, next, e.id);
  }

  lemma WriteAnswered(w: World, e: Event)
    requires Agreement(w) && OpsFit(w) && e.Respond? && e.id in w.ops && w.ops[e.id].Like? && Honest(w, e)
    ensures Agreement(Continue(w, e, e.id).0)
  {
    hide Agreement, OpsFit, Continue, Honest;
    if w.ops[e.id].gen == w.session.generation {
      PromptWriteAnswered(w, e);
    } else {
      LateWriteAnswered(w, e);
    }
  }

  lemma LoadAnswered(w: World, e: Event)
    requires Agreement(w) && OpsFit(w) && e.Respond? && e.id in w.ops && w.ops[e.id].LikedLoad? && Honest(w, e)
    ensures Agreement(Continue(w, e, e.id).0)
  {
    var next := Continue(w, e, e.id).0;
    assert Fits(w.session, w.ops[e.id]);
    assert next.ops == w.ops - {e.id} && next.server == w.server;
    assert NoLike(w);
    assert Agrees(w);
    hide Agreement, OpsFit, NoLike;
    LikeEnds(w, next, e.id);
  }

  lemma QrResponseIsCalm(w: World, id: nat, r: Response)
    requires id in w.ops && w.ops[id].Qr? && w.ops[id].phase != Idle
    ensures Calm(w, RespondQr(w, id, w.ops[id], r).0, id)
  {
  }

  lemma RefusalIsCalm(w: World, id: nat, r: Response)
    requires id in w.ops && !w.ops[id].Qr? && !Writes(w.ops[id]) && AwaitsResponse(w.ops[id])
    requires w.session.generation != FenceOf(w.ops[id]) || r == Failed(CredentialRejected)
    ensures Calm(w, RespondTo(w, id, w.ops[id], r).0, id)
  {
    hide RespondCurrent;
  }

  lemma AnswerIsCalm(w: World, id: nat, r: Response)
    requires id in w.ops && !w.ops[id].Qr? && !Writes(w.ops[id]) && AwaitsResponse(w.ops[id])
    requires w.session.generation == FenceOf(w.ops[id])
    ensures Calm(w, RespondCurrent(w, id, w.ops[id], r).0, id)
  {
    hide Cache.Insert;
  }

  lemma OtherResponseIsCalm(w: World, id: nat, r: Response)
    requires id in w.ops && !w.ops[id].Qr? && !Writes(w.ops[id]) && AwaitsResponse(w.ops[id])
    ensures Calm(w, RespondTo(w, id, w.ops[id], r).0, id)
  {
    hide RespondCurrent, Calm;
    if w.session.generation != FenceOf(w.ops[id]) || r == Failed(CredentialRejected) {
      RefusalIsCalm(w, id, r);
    } else {
      AnswerIsCalm(w, id, r);
    }
  }

  lemma ResponseAgrees(w: World, e: Event)
    requires Agreement(w) && OpsFit(w) && e.Respond? && e.id in w.ops && Honest(w, e)
    ensures Agreement(Continue(w, e, e.id).0)
  {
    hide Agreement, OpsFit, Calm, RespondTo, Honest;
    var op := w.ops[e.id];
    if op.Like? {
      WriteAnswered(w, e);
    } else if op.LikedLoad? {
      LoadAnswered(w, e);
    } else if AwaitsResponse(op) {
      ResponseIsCalm(w, e.id, e.response);
      CalmKeeps(w, RespondTo(w, e.id, op, e.response).0, e.id);
    }
  }

  lemma ResponseIsCalm(w: World, id: nat, r: Response)
    requires id in w.ops && !Writes(w.ops[id]) && AwaitsResponse(w.ops[id])
    ensures Calm(w, RespondTo(w, id, w.ops[id], r).0, id)
  {
    hide Calm, RespondQr;
    if w.ops[id].Qr? {
      QrResponseIsCalm(w, id, r);
    } else {
      OtherResponseIsCalm(w, id, r);
    }
  }

  lemma ContinueAgrees(w: World, e: Event)
    requires !Starts(e) && !Immediate(e) && e.id in w.ops
    requires Agreement(w) && OpsFit(w) && Honest(w, e)
    ensures Agreement(Continue(w, e, e.id).0)
  {
    hide OpsFit, Calm, Continue;
    if e.Respond? {
      ResponseAgrees(w, e);
    } else if e.ServerApplies? {
      ApplyAgrees(w, e);
    } else if e.AcquireLiked? {
      AcquireAgrees(w, e);
    } else if e.Abandon? && w.ops[e.id].Like? {
      DropAgrees(w, e);
    } else {
      EventIsCalm(w, e);
      CalmKeeps(w, Continue(w, e, e.id).0, e.id);
    }
  }

  /** A write is given up: its outcome shows, or its session is over and nothing is cached. */
  lemma DropAgrees(w: World, e: Event)
    requires Agreement(w) && e.Abandon? && e.id in w.ops && w.ops[e.id].Like? && Honest(w, e) && OpsFit(w)
    ensures Agreement(Continue(w, e, e.id).0)
  {
    var op := w.ops[e.id];
    var next := Continue(w, e, e.id).0;
    assert WriteAgrees(w, op) && Fits(w.session, op);
    if w.session.likedMembership.Some? {
      DeltaChangesNothingIff(w.session.likedMembership.value, op.track, op.liked);
    }
    assert next.session == w.session && next.server == w.server;
    assert Agrees(next);
    LikeEnds(w, next, e.id);
  }

  lemma StepAgrees(w: World, e: Event)
    requires Invariant(w) && Agreement(w) && Honest(w, e)
    ensures Agreement(Step(w, e))
  {
    hide Agreement, Calm, Begin, Continue, Now, Honest;
    if Immediate(e) {
      NowAgrees(w, e);
    } else if Starts(e) {
      if e.id !in w.ops {
        if e.BeginLike? {
          LikeStartAgrees(w, e);
        } else {
          StartIsCalm(w, e);
          CalmKeeps(w, Begin(w, e).0, e.id);
        }
      }
    } else if e.id in w.ops {
      ContinueAgrees(w, e);
    }
  }

  lemma {:induction false} RunAgreesFrom(w: World, events: seq<Event>)
    requires Invariant(w) && Agreement(w) && HonestRun(w, events)
    ensures Agreement(Run(w, events))
    decreases |events|
  {
    if events != [] {
      hide Agreement, Invariant, Step, Honest;
      var before := events[..|events| - 1];
      RunAgreesFrom(w, before);
      RunKeeps(w, before);
      StepAgrees(Run(w, before), events[|events| - 1]);
    }
  }

  lemma RunAgrees(server: map<nat, set<nat>>, events: seq<Event>)
    requires HonestRun(Initial(server), events)
    ensures Agreement(Run(Initial(server), events))
  {
    hide Run, HonestRun;
    RunAgreesFrom(Initial(server), events);
  }

  /** After every such run, with no write in flight, the cached liked set is the server's or marked for refresh. */
  lemma LikedSetAgreesWithServer(server: map<nat, set<nat>>, events: seq<Event>)
    requires HonestRun(Initial(server), events) && NoLike(Run(Initial(server), events))
    ensures Agrees(Run(Initial(server), events))
  {
    hide Run, HonestRun;
    RunAgrees(server, events);
  }

  // ----- Sets

  lemma DeltaChangesNothingIff(ids: set<nat>, track: nat, liked: bool)
    ensures Delta(ids, track, liked) == ids <==> (track in ids) == liked
  {
    if Delta(ids, track, liked) == ids {
      assert (track in Delta(ids, track, liked)) == liked;
    }
  }

  // ----- Exactly when the cached set stays right

  /** Whatever honest continuation follows, the cached set is right whenever no write is in flight. */
  ghost predicate AgreesEverAfter(w: World) {
    forall events :: HonestRun(w, events) && NoLike(Run(w, events)) ==> Agrees(Run(w, events))
  }

  lemma RunOfNothing(w: World)
    ensures HonestRun(w, []) && Run(w, []) == w
  {
  }

  lemma RunOfSettling(w: World, k: nat)
    ensures var events := [SettleWrite(k, true)];
      HonestRun(w, events) && Run(w, events) == Settle(w, k, true)
  {
    var e := SettleWrite(k, true);
    assert [e][..0] == [];
    assert Step(w, e) == Settle(w, k, true);
    assert Honest(w, e);
  }

  /** A write given up that the cached set does not show goes wrong as soon as the server applies it. */
  lemma HiddenWriteHarms(w: World, k: nat)
    requires Agrees(w) && k < |w.detached| && !ShowsWrite(w.session, w.detached[k])
    ensures !Agrees(Settle(w, k, true))
  {
    var d := w.detached[k];
    DeltaChangesNothingIff(w.session.likedMembership.value, d.track, d.liked);
  }

  /**
    With no write or load in flight, the cached set stays right over every honest continuation exactly when it
    is right now and shows every write given up that the server may still apply.
  */
  lemma AgreesEverAfterIff(w: World)
    requires Invariant(w) && NoneWrites(w)
    ensures AgreesEverAfter(w) <==> Agrees(w) && AllShow(w)
  {
    hide Invariant, Step, Run, HonestRun;
    if Agrees(w) && AllShow(w) {
      assert Agreement(w);
      forall events | HonestRun(w, events) && NoLike(Run(w, events)) ensures Agrees(Run(w, events)) {
        RunAgreesFrom(w, events);
      }
    }
    if AgreesEverAfter(w) {
      RunOfNothing(w);
      assert Agrees(w);
      forall k | 0 <= k < |w.detached| ensures ShowsWrite(w.session, w.detached[k]) {
        RunOfSettling(w, k);
        if !ShowsWrite(w.session, w.detached[k]) {
          HiddenWriteHarms(w, k);
        }
      }
    }
  }

  /** The operation is the only write or load in flight. */
  ghost predicate Alone(w: World, id: nat) {
    id in w.ops && forall other :: other in w.ops && Writes(w.ops[other]) ==> other == id
  }

  lemma NoneAfter(w: World, next: World, id: nat)
    requires Alone(w, id) && next.ops == w.ops - {id}
    ensures NoneWrites(next)
  {
    forall a | a in next.ops ensures !Writes(next.ops[a]) {
      assert a in w.ops && w.ops[a] == next.ops[a] && a != id;
    }
  }

  lemma Dropped(w: World, id: nat)
    requires Invariant(w) && Agreement(w) && id in w.ops && w.ops[id].Like? && w.ops[id].gen == w.session.generation
    ensures var next := Step(w, Abandon(id));
      next.ops == w.ops - {id} && next.session == w.session
      && (Agrees(next) && AllShow(next) <==> Shows(w.session, w.ops[id].track, w.ops[id].liked))
  {
    var op := w.ops[id];
    var next := Step(w, Abandon(id));
    assert WriteAgrees(w, op) && Fits(w.session, op);
    if w.session.likedMembership.Some? {
      DeltaChangesNothingIff(w.session.likedMembership.value, op.track, op.liked);
    }
    assert next.session == w.session && next.server == w.server && next.ops == w.ops - {id};
    var d := Write(op.account.user, op.track, op.liked);
    assert next.detached == if op.applied then w.detached else w.detached + [d];
    if !op.applied {
      assert next.detached[|w.detached|] == d;
    }
  }

  /**
    Giving up a write of the current session, applied by the server or not, is safe over every honest
    continuation exactly when nobody relies on the cached set for this track or it already shows the outcome.
  */
  lemma DroppedWriteAgreesIff(w: World, id: nat)
    requires Invariant(w) && Agreement(w) && id in w.ops && w.ops[id].Like? && w.ops[id].gen == w.session.generation
    ensures AgreesEverAfter(Step(w, Abandon(id))) <==> Shows(w.session, w.ops[id].track, w.ops[id].liked)
  {
    Dropped(w, id);
    assert Alone(w, id);
    hide Invariant, Step, Agreement;
    StepKeepsInvariant(w, Abandon(id));
    NoneAfter(w, Step(w, Abandon(id)), id);
    AgreesEverAfterIff(Step(w, Abandon(id)));
  }

  lemma Loaded(w: World, id: nat)
    requires Invariant(w) && id in w.ops && w.ops[id].LikedLoad? && w.ops[id].gen == w.session.generation
    ensures var user := w.ops[id].account.user; var ids := ServerSet(w, user);
      var next := Step(w, Respond(id, LikedAre(ids)));
      next.ops == w.ops - {id} && Agrees(next) && (AllShow(next) <==> AnswerShows(w, user, ids))
  {
    assert Fits(w.session, w.ops[id]);
    var user := w.ops[id].account.user;
    var ids := ServerSet(w, user);
    var next := Step(w, Respond(id, LikedAre(ids)));
    assert next.session == StoreLiked(w.session, w.session.generation, ids).0;
    assert next.detached == w.detached && next.server == w.server && next.ops == w.ops - {id};
    hide Invariant, Step;
    if AllShow(next) {
      forall k | 0 <= k < |w.detached| && w.detached[k].user == user
        ensures (w.detached[k].track in ids) == w.detached[k].liked
      {
        assert ShowsWrite(next.session, next.detached[k]);
      }
    }
  }

  /**
    Storing what the server truthfully answers to a load is safe over every honest continuation exactly when
    the answer already shows every write of the account that was given up and is unsettled.
  */
  lemma LoadAgreesIff(w: World, id: nat)
    requires Invariant(w) && Alone(w, id) && w.ops[id].LikedLoad? && w.ops[id].gen == w.session.generation
    ensures var user := w.ops[id].account.user; var ids := ServerSet(w, user);
      AgreesEverAfter(Step(w, Respond(id, LikedAre(ids)))) <==> AnswerShows(w, user, ids)
  {
    var e := Respond(id, LikedAre(ServerSet(w, w.ops[id].account.user)));
    Loaded(w, id);
    hide Invariant, Step;
    StepKeepsInvariant(w, e);
    NoneAfter(w, Step(w, e), id);
    AgreesEverAfterIff(Step(w, e));
  }

  /** The recorded set, where it is relied on, shows every unsettled write of the account. */
  ghost predicate RecordShows(w: World, op: Op)
    requires op.Like?
  {
    w.session.likedMembership.Some? && !w.session.needsRefresh ==>
      AnswerShows(w, op.account.user, Delta(w.session.likedMembership.value, op.track, op.liked))
  }

  lemma Recorded(w: World, id: nat)
    requires Invariant(w) && id in w.ops && w.ops[id].Like? && w.ops[id].gen == w.session.generation
    requires w.ops[id].applied && WriteAgrees(w, w.ops[id])
    ensures var next := Step(w, Respond(id, Written));
      next.ops == w.ops - {id} && Agrees(next) && (AllShow(next) <==> RecordShows(w, w.ops[id]))
  {
    var op := w.ops[id];
    assert Fits(w.session, op);
    var next := Step(w, Respond(id, Written));
    assert next.session == ApplyLikedDelta(w.session, w.session.generation, op.track, op.liked).0;
    assert next.detached == w.detached && next.server == w.server && next.ops == w.ops - {id};
    hide Invariant, Step;
    if AllShow(next) {
      forall k | 0 <= k < |w.detached| ensures ShowsWrite(next.session, w.detached[k]) {
        assert ShowsWrite(next.session, next.detached[k]);
      }
    }
  }

  /**
    Recording a write that the server has applied is safe over every honest continuation exactly when no
    unsettled write of the account would still change the recorded set.
  */
  lemma RecordedWriteAgreesIff(w: World, id: nat)
    requires Invariant(w) && Alone(w, id) && w.ops[id].Like? && w.ops[id].gen == w.session.generation
    requires w.ops[id].applied && WriteAgrees(w, w.ops[id])
    ensures AgreesEverAfter(Step(w, Respond(id, Written))) <==> RecordShows(w, w.ops[id])
  {
    Recorded(w, id);
    hide Invariant, Step;
    StepKeepsInvariant(w, Respond(id, Written));
    NoneAfter(w, Step(w, Respond(id, Written)), id);
    AgreesEverAfterIff(Step(w, Respond(id, Written)));
  }

  lemma HonestAppends(w: World, events: seq<Event>, e: Event)
    requires HonestRun(w, events) && Honest(Run(w, events), e)
    ensures HonestRun(w, events + [e]) && Run(w, events + [e]) == Step(Run(w, events), e)
  {
    hide Honest, Step;
    assert (events + [e])[..|events|] == events;
  }

  lemma Started(w: World, id: nat, track: nat, liked: bool)
    requires id !in w.ops && w.session.active.Some?
    ensures var next := Step(w, BeginLike(id, track, liked));
      var op := Like(w.session.generation, w.session.active.value, track, liked, false);
      next == With(w, id, op)
      && Step(next, ServerApplies(id)).ops == next.ops[id := op.(applied := true)]
      && Step(next, ServerApplies(id)).session == w.session && Step(next, ServerApplies(id)).detached == w.detached
      && ServerSet(Step(next, ServerApplies(id)), op.account.user) == Delta(ServerSet(w, op.account.user), track, liked)
  {
  }

  lemma WroteAlone(w: World, wrote: World, id: nat, op: Op)
    requires op.Like? && op.applied && op.gen == w.session.generation
    requires Agreement(w) && NoneWrites(w) && w.session.active == Some(op.account)
    requires wrote.ops == w.ops[id := op] && wrote.session == w.session && wrote.detached == w.detached
    requires ServerSet(wrote, op.account.user) == Delta(ServerSet(w, op.account.user), op.track, op.liked)
    requires !Unopposed(w, op.account.user, op.track, op.liked)
    ensures Alone(wrote, id) && WriteAgrees(wrote, op) && !RecordShows(wrote, op)
  {
    assert NoLike(w) && Agrees(w);
    OpposedIsHidden(wrote, op);
  }

  lemma HarmfulEnd(next: World, id: nat, op: Op)
    requires id in next.ops && next.ops[id].Like?
    requires var wrote := Step(next, ServerApplies(id));
      Invariant(wrote) && Alone(wrote, id) && wrote.ops[id] == op && op.Like? && op.applied
      && op.gen == wrote.session.generation && WriteAgrees(wrote, op) && !RecordShows(wrote, op)
    ensures !AgreesEverAfter(next)
  {
    hide Invariant, Step, Run, HonestRun, Settle;
    var wrote := Step(next, ServerApplies(id));
    var last := Step(wrote, Respond(id, Written));
    Recorded(wrote, id);
    NoneAfter(wrote, last, id);
    var k :| 0 <= k < |last.detached| && !ShowsWrite(last.session, last.detached[k]);
    HiddenWriteHarms(last, k);
    RunOfNothing(next);
    HonestAppends(next, [], ServerApplies(id));
    HonestAppends(next, [] + [ServerApplies(id)], Respond(id, Written));
    HonestAppends(next, [] + [ServerApplies(id)] + [Respond(id, Written)], SettleWrite(k, true));
    SettlesOnly(last, k);
  }

  /** The new write takes effect and is recorded; the opposite one, given up before, takes effect after it. */
  lemma OpposedWriteHarms(w: World, id: nat, track: nat, liked: bool)
    requires Invariant(w) && Agreement(w) && NoneWrites(w) && id !in w.ops && w.session.active.Some?
    requires !Unopposed(w, w.session.active.value.user, track, liked)
    ensures !AgreesEverAfter(Step(w, BeginLike(id, track, liked)))
  {
    var next := Step(w, BeginLike(id, track, liked));
    var wrote := Step(next, ServerApplies(id));
    var op := Like(w.session.generation, w.session.active.value, track, liked, true);
    Started(w, id, track, liked);
    hide Invariant, Step, Agreement, AgreesEverAfter, NoneWrites, Unopposed;
    StepKeepsInvariant(w, BeginLike(id, track, liked));
    StepKeepsInvariant(next, ServerApplies(id));
    assert wrote.ops == w.ops[id := op];
    WroteAlone(w, wrote, id, op);
    HarmfulEnd(next, id, op);
  }

  lemma SettlesOnly(w: World, k: nat)
    requires NoneWrites(w)
    ensures Step(w, SettleWrite(k, true)) == Settle(w, k, true) && NoLike(Settle(w, k, true))
  {
  }

  lemma OpposedIsHidden(w: World, op: Op)
    requires op.Like? && !Unopposed(w, op.account.user, op.track, op.liked)
    ensures !RecordShows(w, op)
  {
    var k :| 0 <= k < |w.detached| && w.detached[k].user == op.account.user && w.detached[k].track == op.track
      && w.detached[k].liked != op.liked;
  }

  /**
    Beginning a write with none in flight is safe over every honest continuation exactly when no write of the
    account that was given up and is unsettled may still reverse it in a cached set that is relied on.
  */
  lemma NewWriteAgreesIff(w: World, id: nat, track: nat, liked: bool)
    requires Invariant(w) && Agreement(w) && NoneWrites(w) && id !in w.ops && w.session.active.Some?
    ensures AgreesEverAfter(Step(w, BeginLike(id, track, liked)))
      <==> Unopposed(w, w.session.active.value.user, track, liked)
  {
    hide Invariant, Step, Run, HonestRun, Agreement, Agrees;
    var e := BeginLike(id, track, liked);
    var next := Step(w, e);
    if Unopposed(w, w.session.active.value.user, track, liked) {
      StepAgrees(w, e);
      StepKeepsInvariant(w, e);
      forall events | HonestRun(next, events) && NoLike(Run(next, events)) ensures Agrees(Run(next, events)) {
        RunAgreesFrom(next, events);
        RightWithoutLike(Run(next, events));
      }
    } else {
      OpposedWriteHarms(w, id, track, liked);
    }
  }

  lemma RightWithoutLike(w: World)
    requires Agreement(w) && NoLike(w)
    ensures Agrees(w)
  {
  }
}
