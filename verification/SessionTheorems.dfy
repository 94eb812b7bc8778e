/**
  What the session owner keeps over every run, whatever the interleaving: one
  credential at a time, cached data of the active account only, stale completions
  without effect, and media fetched within one generation.
*/
module SessionTheorems {
  import opened Basics
  import opened SessionSpec

  // ----- The invariant

  predicate AtMostOneCredential(s: Session) {
    (s.active.Some? ==> s.pending.None? && s.sms.None?) && (s.pending.Some? ==> s.sms.None?)
  }

  /** An operation that may still turn into a pending credential or a challenge. */
  predicate LogsIn(op: Op) {
    op.SmsRequest? || op.SmsLogin? || op.QrKey? || op.Qr?
  }

  /** A login attempt that nothing has come of yet: its generation was begun for it alone. */
  predicate Opens(op: Op) {
    op.SmsRequest? || op.QrKey? || (op.Qr? && !op.finished)
  }

  /** The account whose data the operation asks for. */
  function AccountOf(op: Op): Option<Account> {
    match op
    case Read(_, reader) => reader
    case Playlists(_, account) => Some(account)
    case Recent(_, account, _) => Some(account)
    case Like(_, account, _, _, _) => Some(account)
    case LikedWait(_, account, _, _) => Some(account)
    case LikedLoad(_, account) => Some(account)
    case _ => None
  }

  /** What an operation of the current generation may rely on. */
  predicate Fits(s: Session, op: Op) {
    FenceOf(op) <= s.generation && op.gen <= FenceOf(op)
    && (op.gen == s.generation ==>
      (LogsIn(op) ==> s.active.None?)
      && (Opens(op) ==> s.pending.None? && s.sms.None?)
      && (AccountOf(op).Some? ==> s.active == AccountOf(op)))
    && (op.MediaHit? ==> FetchedWithin(op.source, op.gen))
    && (op.Qr? && op.finished ==> !op.cancellable)
  }

  predicate FetchedWithin(source: Cache.Source<Fetched>, generation: nat) {
    source.media.beganIn == generation && source.media.endedIn == generation
  }

  ghost predicate OpsFit(w: World) {
    forall id :: id in w.ops ==> Fits(w.session, w.ops[id])
  }

  predicate CurrentLogin(w: World, id: nat) {
    id in w.ops && w.ops[id].gen == w.session.generation && LogsIn(w.ops[id])
  }

  /** Such an attempt is the only login attempt of its generation. */
  ghost predicate RequestAlone(w: World) {
    forall id, other :: CurrentLogin(w, id) && CurrentLogin(w, other) && Opens(w.ops[id]) ==> other == id
  }

  /** Cached data is the active account's. */
  predicate Owned(s: Session, origins: Origins) {
    (s.likedPlaylist.Some? ==> s.active.Some? && s.active == origins.playlist)
    && (s.likedMembership.Some? ==> s.active.Some? && s.active == origins.membership)
    && (s.recentSnapshot.Some? ==> s.active.Some? && s.active == origins.recent)
  }

  ghost predicate CacheFresh(entries: seq<Cache.Entry<Key, Fetched>>) {
    forall i :: 0 <= i < |entries| ==> FetchedWithin(entries[i].source, entries[i].generation)
  }

  predicate UsesMedia(op: Op) {
    op.MediaHit? || op.MediaMiss? || op.MediaFetch?
  }

  /** Exactly the holder of each lock is past the point where it is taken. */
  ghost predicate LocksHeld(w: World) {
    (forall id :: id in w.ops ==>
      (w.ops[id].LikedLoad? <==> w.likedLock == Some(id)) && (UsesMedia(w.ops[id]) <==> w.mediaLock == Some(id)))
    && (w.likedLock.Some? ==> w.likedLock.value in w.ops) && (w.mediaLock.Some? ==> w.mediaLock.value in w.ops)
  }

  ghost predicate Invariant(w: World) {
    AtMostOneCredential(w.session) && OpsFit(w) && RequestAlone(w) && Owned(w.session, w.origins)
    && CacheFresh(w.cache) && LocksHeld(w)
  }

  // ----- One event

  lemma NowKeeps(w: World, e: Event)
    requires Invariant(w) && Immediate(e)
    ensures Invariant(Now(w, e))
  {
    var next := Now(w, e);
    forall id | CurrentLogin(next, id) ensures CurrentLogin(w, id) && next.session == w.session {
      assert Fits(w.session, w.ops[id]);
    }
  }

  predicate LockMoves(before: Option<nat>, after: Option<nat>, id: nat, holds: bool) {
    (after == Some(id) <==> holds) && (after == before || (before in {None, Some(id)} && after in {None, Some(id)}))
  }

  /** Current generation kept, the active account with it; only a login attempt moves the other two. */
  predicate SessionMoves(w: World, next: World, id: nat) {
    next.session.generation > w.session.generation
    || (next.session.generation == w.session.generation && next.session.active == w.session.active
        && ((next.session.pending == w.session.pending && next.session.sms == w.session.sms) || CurrentLogin(w, id)))
  }

  /** A login operation of a generation already begun continues one, or redeems a challenge. */
  predicate LoginContinues(w: World, next: World, id: nat) {
    CurrentLogin(next, id) && next.session.generation == w.session.generation ==>
      (CurrentLogin(w, id) && (Opens(next.ops[id]) ==> Opens(w.ops[id])))
      || (next.ops[id].SmsLogin? && w.session.sms.Some?)
  }

  /** What one operation's event may do: everything here speaks of `id` and the session only. */
  ghost predicate Local(w: World, next: World, id: nat) {
    next.ops - {id} == w.ops - {id}
    && SessionMoves(w, next, id)
    && (id in next.ops ==> Fits(next.session, next.ops[id]))
    && LoginContinues(w, next, id)
    && AtMostOneCredential(next.session) && Owned(next.session, next.origins) && CacheFresh(next.cache)
    && LockMoves(w.likedLock, next.likedLock, id, id in next.ops && next.ops[id].LikedLoad?)
    && LockMoves(w.mediaLock, next.mediaLock, id, id in next.ops && UsesMedia(next.ops[id]))
  }

  lemma OthersStay(w: World, next: World, id: nat, other: nat)
    requires next.ops - {id} == w.ops - {id} && other != id
    ensures other in next.ops <==> other in w.ops
    ensures other in w.ops ==> next.ops[other] == w.ops[other]
  {
    assert other in next.ops <==> other in next.ops - {id};
    assert other in w.ops <==> other in w.ops - {id};
    if other in w.ops {
      assert next.ops[other] == (next.ops - {id})[other] == (w.ops - {id})[other];
    }
  }

  lemma OthersFit(w: World, next: World, id: nat, other: nat)
    requires Invariant(w) && Local(w, next, id) && other != id && other in next.ops
    ensures Fits(next.session, next.ops[other])
  {
    OthersStay(w, next, id, other);
    assert Fits(w.session, w.ops[other]);
    if CurrentLogin(w, id) && CurrentLogin(w, other) {
      assert !Opens(w.ops[other]);
    }
  }

  lemma OtherLoginStays(w: World, next: World, id: nat, other: nat)
    requires Invariant(w) && Local(w, next, id) && other != id && CurrentLogin(next, other)
    ensures CurrentLogin(w, other) && w.ops[other] == next.ops[other]
    ensures next.session.generation == w.session.generation
    ensures Opens(w.ops[other]) ==> w.session.sms.None?
  {
    OthersStay(w, next, id, other);
    assert Fits(w.session, w.ops[other]);
  }

  lemma RequestStaysAlone(w: World, next: World, id: nat)
    requires Invariant(w) && Local(w, next, id)
    ensures RequestAlone(next)
  {
    forall a, b | CurrentLogin(next, a) && CurrentLogin(next, b) && Opens(next.ops[a]) ensures b == a {
      if a != id {
        OtherLoginStays(w, next, id, a);
      }
      if b != id {
        OtherLoginStays(w, next, id, b);
      }
    }
  }

  lemma LocksStayHeld(w: World, next: World, id: nat)
    requires Invariant(w) && Local(w, next, id)
    ensures LocksHeld(next)
  {
    forall other | other in next.ops
      ensures (next.ops[other].LikedLoad? <==> next.likedLock == Some(other))
      ensures UsesMedia(next.ops[other]) <==> next.mediaLock == Some(other)
    {
      if other != id {
        OthersStay(w, next, id, other);
      }
    }
    if next.likedLock.Some? && next.likedLock.value != id {
      OthersStay(w, next, id, next.likedLock.value);
    }
    if next.mediaLock.Some? && next.mediaLock.value != id {
      OthersStay(w, next, id, next.mediaLock.value);
    }
  }

  lemma LocalKeeps(w: World, next: World, id: nat)
    requires Invariant(w) && Local(w, next, id)
    ensures Invariant(next)
  {
    forall other | other in next.ops ensures Fits(next.session, next.ops[other]) {
      if other != id {
        OthersFit(w, next, id, other);
      }
    }
    RequestStaysAlone(w, next, id);
    LocksStayHeld(w, next, id);
  }

  /** The invariant, as far as one operation in flight needs it. */
  ghost predicate Ready(w: World, id: nat) {
    id in w.ops && Fits(w.session, w.ops[id]) && AtMostOneCredential(w.session) && Owned(w.session, w.origins)
    && CacheFresh(w.cache)
    && (w.ops[id].LikedLoad? <==> w.likedLock == Some(id)) && (UsesMedia(w.ops[id]) <==> w.mediaLock == Some(id))
  }

  lemma InvariantMakesReady(w: World, id: nat)
    requires Invariant(w) && id in w.ops
    ensures Ready(w, id)
  {
  }

  lemma LoginStartIsLocal(w: World, e: Event)
    requires Invariant(w) && (e.BeginVerify? || e.BeginSms? || e.BeginSmsLogin? || e.BeginQr?) && e.id !in w.ops
    ensures Local(w, Begin(w, e).0, e.id)
  {
    hide OpsFit, RequestAlone, CacheFresh;
  }

  lemma PageStartIsLocal(w: World, e: Event)
    requires e.BeginRecentPage?
    requires Invariant(w) && e.id !in w.ops
    ensures Local(w, Begin(w, e).0, e.id)
  {
    hide OpsFit, RequestAlone, CacheFresh;
  }

  lemma AccountStartIsLocal(w: World, e: Event)
    requires e.BeginRead? || e.BeginPlaylists? || e.BeginLike? || e.BeginLiked?
    requires Invariant(w) && e.id !in w.ops
    ensures Local(w, Begin(w, e).0, e.id)
  {
    hide OpsFit, RequestAlone, CacheFresh;
  }

  lemma {:induction false} LiveKeepsFresh(entries: seq<Cache.Entry<Key, Fetched>>, generation: nat, now: nat)
    requires CacheFresh(entries)
    ensures CacheFresh(Cache.Live(entries, generation, now))
  {
    if entries != [] {
      LiveKeepsFresh(entries[1..], generation, now);
    }
  }

  lemma {:induction false} WithoutKeepsFresh(entries: seq<Cache.Entry<Key, Fetched>>, generation: nat, key: Key)
    requires CacheFresh(entries)
    ensures CacheFresh(Cache.Without(entries, generation, key))
  {
    if entries != [] {
      WithoutKeepsFresh(entries[1..], generation, key);
    }
  }

  lemma GetIsFresh(entries: seq<Cache.Entry<Key, Fetched>>, key: Key, generation: nat, now: nat)
    requires CacheFresh(entries)
    ensures CacheFresh(Cache.Get(entries, key, generation, now).0)
    ensures var hit := Cache.Get(entries, key, generation, now).1; hit.Some? ==> FetchedWithin(hit.value, generation)
  {
    LiveKeepsFresh(entries, generation, now);
  }

  lemma InsertIsFresh(entries: seq<Cache.Entry<Key, Fetched>>, key: Key, source: Cache.Source<Fetched>, generation: nat,
                      started: nat)
    requires CacheFresh(entries) && FetchedWithin(source, generation)
    ensures CacheFresh(Cache.Insert(entries, key, source, generation, started, CLOCK_END))
  {
    WithoutKeepsFresh(entries, generation, key);
  }

  lemma MediaStartIsLocal(w: World, e: Event)
    requires Invariant(w) && e.BeginMedia? && e.id !in w.ops
    ensures Local(w, Begin(w, e).0, e.id)
  {
    hide OpsFit, RequestAlone, CacheFresh, Cache.Get;
    GetIsFresh(w.cache, e.key, w.session.generation, e.now);
  }

  lemma StartIsLocal(w: World, e: Event)
    requires Starts(e)
    requires Invariant(w) && e.id !in w.ops
    ensures Local(w, Begin(w, e).0, e.id)
  {
    hide Invariant, Local, Begin;
    if e.BeginMedia? {
      MediaStartIsLocal(w, e);
    } else if e.BeginVerify? || e.BeginSms? || e.BeginSmsLogin? || e.BeginQr? {
      LoginStartIsLocal(w, e);
    } else if e.BeginRecentPage? {
      PageStartIsLocal(w, e);
    } else {
      AccountStartIsLocal(w, e);
    }
  }

  lemma QrEventIsLocal(w: World, e: Event)
    requires e.BeginAdvance? || e.CancelQr? || e.CloseQr?
    requires Ready(w, e.id)
    ensures Local(w, Continue(w, e, e.id).0, e.id)
  {
    hide CacheFresh;
  }

  lemma LockEventIsLocal(w: World, e: Event)
    requires e.AcquireLiked? || e.RecheckMedia? || e.FetchMedia?
    requires Ready(w, e.id)
    ensures Local(w, Continue(w, e, e.id).0, e.id)
  {
    hide CacheFresh;
  }

  /** An abandoned operation and a write taking effect on the server. */
  lemma QuietEventIsLocal(w: World, e: Event)
    requires e.Abandon? || e.ServerApplies?
    requires Ready(w, e.id)
    ensures Local(w, Continue(w, e, e.id).0, e.id)
  {
    hide CacheFresh;
  }

  lemma QrConfirmedIsLocal(w: World, id: nat, r: Response)
    requires Ready(w, id) && w.ops[id].Qr? && w.ops[id].phase.Polling? && r.CredentialIs?
    ensures Local(w, RespondQr(w, id, w.ops[id], r).0, id)
  {
    hide CacheFresh;
  }

  lemma QrPollIsLocal(w: World, id: nat, r: Response)
    requires Ready(w, id) && w.ops[id].Qr? && w.ops[id].phase.Polling? && !r.CredentialIs?
    ensures Local(w, RespondQr(w, id, w.ops[id], r).0, id)
  {
    hide CacheFresh;
    var next := RespondQr(w, id, w.ops[id], r).0;
    assert next.session == w.session || next.session.generation > w.session.generation;
  }

  lemma QrVerdictIsLocal(w: World, id: nat, r: Response)
    requires Ready(w, id) && w.ops[id].Qr? && w.ops[id].phase.Verifying?
    ensures Local(w, RespondQr(w, id, w.ops[id], r).0, id)
  {
    hide CacheFresh;
  }

  lemma RefusalIsLocal(w: World, id: nat, r: Response)
    requires Ready(w, id) && !w.ops[id].Qr? && AwaitsResponse(w.ops[id])
    requires w.session.generation != FenceOf(w.ops[id]) || r == Failed(CredentialRejected)
    ensures Local(w, RespondTo(w, id, w.ops[id], r).0, id)
  {
    hide CacheFresh, RespondCurrent;
  }

  lemma LoginResponseIsLocal(w: World, id: nat, r: Response)
    requires Ready(w, id) && !w.ops[id].Qr? && AwaitsResponse(w.ops[id])
    requires w.session.generation == FenceOf(w.ops[id]) && (LogsIn(w.ops[id]) || w.ops[id].Verify?)
    ensures Local(w, RespondCurrent(w, id, w.ops[id], r).0, id)
  {
    hide CacheFresh;
  }

  lemma AccountResponseIsLocal(w: World, id: nat, r: Response)
    requires Ready(w, id) && AwaitsResponse(w.ops[id]) && w.session.generation == FenceOf(w.ops[id])
    requires !LogsIn(w.ops[id]) && !w.ops[id].Verify? && !UsesMedia(w.ops[id])
    ensures Local(w, RespondCurrent(w, id, w.ops[id], r).0, id)
  {
    hide CacheFresh;
  }

  lemma MediaResponseIsLocal(w: World, id: nat, r: Response)
    requires Ready(w, id) && w.ops[id].MediaFetch? && w.session.generation == FenceOf(w.ops[id])
    ensures Local(w, RespondCurrent(w, id, w.ops[id], r).0, id)
  {
    hide CacheFresh, Cache.Insert;
    if r.MediaIs? && w.ops[id].gen == w.session.generation {
      var g := w.session.generation;
      InsertIsFresh(w.cache, w.ops[id].key, Cache.Source(Fetched(r.uri, g, g), r.validForSeconds), g,
          w.ops[id].started);
    }
  }

  lemma ResponseIsLocal(w: World, id: nat, r: Response)
    requires Ready(w, id) && id in w.ops && AwaitsResponse(w.ops[id])
    ensures Local(w, RespondTo(w, id, w.ops[id], r).0, id)
  {
    hide Ready, Local, RespondCurrent, RespondQr;
    var op := w.ops[id];
    if op.Qr? {
      if op.phase.Verifying? {
        QrVerdictIsLocal(w, id, r);
      } else if r.CredentialIs? {
        QrConfirmedIsLocal(w, id, r);
      } else {
        QrPollIsLocal(w, id, r);
      }
    } else if w.session.generation != FenceOf(op) || r == Failed(CredentialRejected) {
      RefusalIsLocal(w, id, r);
    } else if LogsIn(op) || op.Verify? {
      LoginResponseIsLocal(w, id, r);
    } else if UsesMedia(op) {
      MediaResponseIsLocal(w, id, r);
    } else {
      AccountResponseIsLocal(w, id, r);
    }
  }

  lemma ContinueKeeps(w: World, e: Event)
    requires Invariant(w) && !Starts(e) && !Immediate(e) && e.id in w.ops
    ensures Invariant(Continue(w, e, e.id).0)
  {
    hide Invariant, Local, Ready, RespondTo;
    InvariantMakesReady(w, e.id);
    if !e.Respond? {
      EventIsLocal(w, e);
    } else if AwaitsResponse(w.ops[e.id]) {
      ResponseIsLocal(w, e.id, e.response);
    } else {
      return;
    }
    LocalKeeps(w, Continue(w, e, e.id).0, e.id);
  }

  lemma EventIsLocal(w: World, e: Event)
    requires !Starts(e) && !Immediate(e) && !e.Respond? && Ready(w, e.id)
    ensures Local(w, Continue(w, e, e.id).0, e.id)
  {
    hide Ready, Local, Continue;
    if e.BeginAdvance? || e.CancelQr? || e.CloseQr? {
      QrEventIsLocal(w, e);
    } else if e.Abandon? || e.ServerApplies? {
      QuietEventIsLocal(w, e);
    } else {
      LockEventIsLocal(w, e);
    }
  }

  lemma StepKeepsInvariant(w: World, e: Event)
    requires Invariant(w)
    ensures Invariant(Step(w, e))
  {
    hide Invariant, Local, Begin, Continue, Now;
    if Immediate(e) {
      NowKeeps(w, e);
    } else if Starts(e) {
      if e.id !in w.ops {
        StartIsLocal(w, e);
        LocalKeeps(w, Begin(w, e).0, e.id);
      }
    } else if e.id in w.ops {
      ContinueKeeps(w, e);
    }
  }

  // ----- Every run

  lemma {:induction false} RunKeeps(w: World, events: seq<Event>)
    requires Invariant(w)
    ensures Invariant(Run(w, events))
    decreases |events|
  {
    if events != [] {
      hide Invariant, Step;
      RunKeeps(w, events[..|events| - 1]);
      StepKeepsInvariant(Run(w, events[..|events| - 1]), events[|events| - 1]);
    }
  }

  /** The invariant holds in every state any run reaches. */
  lemma RunKeepsInvariant(server: map<nat, set<nat>>, events: seq<Event>)
    ensures Invariant(Run(Initial(server), events))
  {
    hide Run;
    RunKeeps(Initial(server), events);
  }

  /** Under every interleaving at most one of the account, the candidate and the challenge is present. */
  lemma CredentialExclusivity(server: map<nat, set<nat>>, events: seq<Event>)
    ensures AtMostOneCredential(Run(Initial(server), events).session)
  {
    RunKeepsInvariant(server, events);
  }

  /** Whatever is cached for an account is the active account's own. */
  lemma CachedDataIsTheActiveAccounts(server: map<nat, set<nat>>, events: seq<Event>)
    ensures var w := Run(Initial(server), events); Owned(w.session, w.origins)
  {
    RunKeepsInvariant(server, events);
  }

  /** At most one membership load and at most one media resolution are ever in flight. */
  lemma SingleFlight(server: map<nat, set<nat>>, events: seq<Event>, a: nat, b: nat)
    ensures var ops := Run(Initial(server), events).ops;
      a in ops && b in ops && ((ops[a].LikedLoad? && ops[b].LikedLoad?) || (UsesMedia(ops[a]) && UsesMedia(ops[b])))
      ==> a == b
  {
    RunKeepsInvariant(server, events);
  }

  /** A liked set handed to a caller is the cached one, fetched for the account that is still active. */
  lemma DeliveredLikedBelongsToActive(server: map<nat, set<nat>>, events: seq<Event>, e: Event)
    ensures var w := Run(Initial(server), events);
      var (next, outcome) := Perform(w, e);
      outcome.DeliveredLiked? ==>
        next.session.likedMembership == Some(outcome.ids) && next.session.active.Some?
        && next.session.active == next.origins.membership
        && (!Starts(e) ==> w.ops[e.id].gen == w.session.generation && next.session.active == AccountOf(w.ops[e.id]))
  {
    var w := Run(Initial(server), events);
    RunKeepsInvariant(server, events);
    StepKeepsInvariant(w, e);
    LikedDelivery(w, e);
  }

  lemma LikedDelivery(w: World, e: Event)
    requires Invariant(w)
    ensures var (next, outcome) := Perform(w, e);
      outcome.DeliveredLiked? ==>
        next.session.likedMembership == Some(outcome.ids)
        && (!Starts(e) ==> e.id in w.ops && w.ops[e.id].gen == w.session.generation
                           && next.session.active == AccountOf(w.ops[e.id]))
  {
    hide RequestAlone, CacheFresh, LocksHeld;
    if !Starts(e) && !Immediate(e) && e.id in w.ops {
      assert Fits(w.session, w.ops[e.id]);
      if !e.Respond? && !e.AcquireLiked? {
        NoLikedDelivery(w, e);
      }
    }
  }

  lemma NoLikedDelivery(w: World, e: Event)
    requires !Starts(e) && !Immediate(e) && e.id in w.ops && !e.Respond? && !e.AcquireLiked?
    ensures !Continue(w, e, e.id).1.DeliveredLiked?
  {
  }

  /** A media source handed to a caller was requested and answered within the caller's generation, still current. */
  lemma DeliveredMediaIsFresh(server: map<nat, set<nat>>, events: seq<Event>, e: Event)
    ensures var w := Run(Initial(server), events);
      var outcome := Perform(w, e).1;
      outcome.DeliveredMedia? ==>
        FetchedWithin(outcome.source, outcome.inGeneration) && outcome.inGeneration == w.session.generation
        && e.id in w.ops && w.ops[e.id].gen == outcome.inGeneration
  {
    RunKeepsInvariant(server, events);
    MediaDelivery(Run(Initial(server), events), e);
  }

  lemma MediaDelivery(w: World, e: Event)
    requires Invariant(w)
    ensures var outcome := Perform(w, e).1;
      outcome.DeliveredMedia? ==>
        FetchedWithin(outcome.source, outcome.inGeneration) && outcome.inGeneration == w.session.generation
        && !Immediate(e) && e.id in w.ops && w.ops[e.id].gen == outcome.inGeneration
  {
    hide RequestAlone, CacheFresh, LocksHeld, Begin;
    if !Starts(e) && !Immediate(e) && e.id in w.ops {
      assert Fits(w.session, w.ops[e.id]);
      hide OpsFit;
    }
    assert Begin(w, e).1.DeliveredMedia? ==> false by {
      NoMediaAtStart(w, e);
    }
  }

  lemma NoMediaAtStart(w: World, e: Event)
    ensures !Begin(w, e).1.DeliveredMedia?
  {
  }

  // ----- Generations and activation

  /** Later or the same generation, and no account that was not active before. */
  predicate NothingActivated(s: Session, next: Session) {
    next.generation >= s.generation && (next.active.Some? ==> next.active == s.active)
  }

  /** The one way to become active: a verdict on this credential, awaited since the current generation began. */
  predicate Activated(s: Session, next: Session, op: Op, r: Response) {
    next.generation == s.generation + 1 && op.gen == s.generation && r.AccountIs?
    && next.active.Some? && next.active.value.user == r.user
    && (op == Verify(s.generation, next.active.value.credential)
        || (op.Qr? && op.phase == Verifying(next.active.value.credential)))
  }

  lemma StartActivatesNothing(w: World, e: Event)
    ensures NothingActivated(w.session, Begin(w, e).0.session)
  {
    hide Cache.Get;
  }

  lemma ContinueActivatesNothing(w: World, e: Event, id: nat)
    requires id in w.ops && !e.Respond?
    ensures NothingActivated(w.session, Continue(w, e, id).0.session)
  {
    hide RespondTo;
  }

  lemma QrResponseActivates(w: World, id: nat, op: Op, r: Response)
    requires op.Qr? && op.phase != Idle
    ensures var next := RespondQr(w, id, op, r).0.session;
      NothingActivated(w.session, next) || Activated(w.session, next, op, r)
  {
  }

  lemma ResponseActivates(w: World, id: nat, op: Op, r: Response)
    requires !op.Qr? && w.session.generation == FenceOf(op)
    ensures var next := RespondCurrent(w, id, op, r).0.session;
      NothingActivated(w.session, next) || Activated(w.session, next, op, r)
  {
    hide Cache.Insert;
  }

  lemma RespondActivates(w: World, id: nat, op: Op, r: Response)
    requires AwaitsResponse(op)
    ensures var next := RespondTo(w, id, op, r).0.session;
      NothingActivated(w.session, next) || Activated(w.session, next, op, r)
  {
    hide Activated, RespondQr, RespondCurrent;
    if op.Qr? {
      QrResponseActivates(w, id, op, r);
    } else if w.session.generation == FenceOf(op) {
      ResponseActivates(w, id, op, r);
    }
  }

  lemma StepActivates(w: World, e: Event)
    ensures var next := Step(w, e).session;
      NothingActivated(w.session, next)
      || (e.Respond? && e.id in w.ops && Activated(w.session, next, w.ops[e.id], e.response))
  {
    hide Activated, Begin, Continue;
    if Immediate(e) {
    } else if Starts(e) {
      StartActivatesNothing(w, e);
    } else if e.id in w.ops {
      if e.Respond? {
        ResponseActivatesAt(w, e);
      } else {
        ContinueActivatesNothing(w, e, e.id);
      }
    }
  }

  lemma ResponseActivatesAt(w: World, e: Event)
    requires e.Respond? && e.id in w.ops
    ensures var next := Continue(w, e, e.id).0.session;
      NothingActivated(w.session, next) || Activated(w.session, next, w.ops[e.id], e.response)
  {
    hide Activated, RespondTo;
    if AwaitsResponse(w.ops[e.id]) {
      RespondActivates(w, e.id, w.ops[e.id], e.response);
    }
  }

  /** No event takes the generation back. */
  lemma GenerationNeverFalls(w: World, e: Event)
    ensures Step(w, e).session.generation >= w.session.generation
  {
    hide Step;
    StepActivates(w, e);
  }

  lemma {:induction false} RunNeverLowersGeneration(w: World, events: seq<Event>)
    ensures Run(w, events).session.generation >= w.session.generation
    decreases |events|
  {
    hide Step;
    if events != [] {
      RunNeverLowersGeneration(w, events[..|events| - 1]);
      GenerationNeverFalls(Run(w, events[..|events| - 1]), events[|events| - 1]);
    }
  }

  /** An account becomes active only when its credential was verified in the generation still current. */
  lemma ActivationNeedsVerification(w: World, e: Event)
    ensures var next := Step(w, e).session;
      next.active.Some? && next.active != w.session.active ==>
        e.Respond? && e.id in w.ops && Activated(w.session, next, w.ops[e.id], e.response)
  {
    hide Step;
    StepActivates(w, e);
  }
}
