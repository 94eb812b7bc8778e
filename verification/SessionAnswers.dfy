/**
  What callers get from the session owner and what each answer leaves behind, told at the level of
  whole events: requests that need an account, answers stored, failures, QR attempts and media.
*/
module SessionAnswers {
  import opened Basics
  import opened SessionSpec
  import opened SessionTheorems
  import opened SessionFencing

  predicate InFlight(w: World, id: nat, op: Op) {
    id in w.ops && w.ops[id] == op
  }

  /** No account, no candidate, no challenge, and nothing cached of any. */
  predicate Blank(s: Session) {
    s.active.None? && s.pending.None? && s.sms.None? && s.likedPlaylist.None? && s.likedMembership.None?
    && s.recentRequest.None? && s.recentSnapshot.None? && !s.needsRefresh
  }

  // ----- Rejection and other failures

  /** A rejected credential ends the session it was used in, whatever the request was. */
  lemma RejectionEndsSession(w: World, id: nat)
    requires id in w.ops && AwaitsResponse(w.ops[id]) && FenceOf(w.ops[id]) == w.session.generation
    ensures var (next, outcome) := Perform(w, Respond(id, Failed(CredentialRejected)));
      Blank(next.session) && next.session.generation == w.session.generation + 1
      && outcome == ClientFailure(CredentialRejected)
  {
  }

  /** Any other failure is passed on; only a write of unknown outcome leaves a trace, the refresh mark. */
  lemma FailureLeavesSession(w: World, id: nat, error: ClientError)
    requires id in w.ops && AwaitsResponse(w.ops[id]) && !w.ops[id].Qr? && !w.ops[id].MediaFetch?
    requires w.ops[id].gen == w.session.generation && error != CredentialRejected
    ensures var (next, outcome) := Perform(w, Respond(id, Failed(error)));
      id !in next.ops && outcome == ClientFailure(error)
      && next.session ==
        (if w.ops[id].Like? && w.session.likedMembership.Some?
            && (error == NetworkFailure || error == ShapeMismatch || error == ResponseBound) then
           w.session.(needsRefresh := true)
         else w.session)
  {
  }

  /** An operation that is given up is gone, with the locks it held; a QR attempt only stops waiting. */
  lemma AbandonedIsGone(w: World, id: nat)
    requires id in w.ops
    ensures var next := Step(w, Abandon(id));
      next.session == w.session && next.server == w.server && next.cache == w.cache
      && if w.ops[id].Qr? then InFlight(next, id, w.ops[id].(phase := Idle))
         else id !in next.ops && next.likedLock != Some(id) && next.mediaLock != Some(id)
  {
  }

  // ----- Requests that need an account

  /** Without an account nothing is asked for. */
  lemma NoAccountNoRequest(w: World, e: Event)
    requires w.session.active.None? && Starts(e) && e.id !in w.ops
    requires e.BeginPlaylists? || e.BeginRecentPage? || e.BeginLike? || e.BeginLiked?
    ensures Perform(w, e) == (w, Ignored)
  {
  }

  /** Nor is anything verified without a candidate, or redeemed without candidate and challenge. */
  lemma NoCandidateNoVerification(w: World, id: nat)
    requires id !in w.ops && w.session.pending.None?
    ensures Perform(w, BeginVerify(id)) == (w, Ignored)
    ensures w.session.sms.None? ==> Perform(w, BeginSmsLogin(id)) == (w, Ignored)
  {
  }

  /** A retained candidate is verified before any challenge is redeemed. */
  lemma CandidateComesFirst(w: World, id: nat)
    requires id !in w.ops && w.session.pending.Some?
    ensures InFlight(Step(w, BeginSmsLogin(id)), id, Verify(w.session.generation, w.session.pending.value))
    ensures InFlight(Step(w, BeginVerify(id)), id, Verify(w.session.generation, w.session.pending.value))
  {
  }

  /** A load of the playlists records which of them is the liked one, or that there is none. */
  lemma PlaylistsAreRecorded(w: World, id: nat, playlist: Option<nat>)
    requires id !in w.ops && w.session.active.Some?
    ensures var next := Step(Step(w, BeginPlaylists(id)), Respond(id, LikedPlaylistIs(playlist)));
      next.session == w.session.(likedPlaylist := playlist) && id !in next.ops
      && next.origins.playlist == w.session.active
  {
    var begun := Step(w, BeginPlaylists(id));
    assert InFlight(begun, id, Playlists(w.session.generation, w.session.active.value));
  }

  /** A later page is served from the snapshot; the first page, or one without a snapshot, is asked for anew. */
  lemma RecentPageRequest(w: World, id: nat, first: bool)
    requires id !in w.ops && w.session.active.Some?
    ensures var next := Step(w, BeginRecentPage(id, first));
      if !first && w.session.recentSnapshot.Some? then next == w
      else
        InFlight(next, id, Recent(w.session.generation, w.session.active.value, w.nextToken))
        && next.session.recentSnapshot.None? && next.session.recentRequest == Some(w.nextToken)
        && next.nextToken > w.nextToken
  {
  }

  /** A caller that insists on fresh data is never served the set it has seen: it waits, and then loads. */
  lemma ForcedCallerLoads(w: World, id: nat)
    requires id !in w.ops && w.session.active.Some? && w.likedLock.None?
    ensures var asked := Step(w, BeginLiked(id, true));
      var (loading, outcome) := Perform(asked, AcquireLiked(id));
      Perform(w, BeginLiked(id, true)).1 == Done && outcome == Done
      && InFlight(loading, id, LikedLoad(w.session.generation, w.session.active.value))
      && loading.session == w.session
  {
    var asked := Step(w, BeginLiked(id, true));
    assert InFlight(asked, id,
                    LikedWait(w.session.generation, w.session.active.value, w.session.revision, true));
  }

  // ----- QR attempts

  /** An attempt is polled exactly while unfinished, before its deadline and in its own generation. */
  lemma PollsIff(w: World, id: nat, late: bool)
    requires id in w.ops && w.ops[id].Qr? && w.ops[id].phase == Idle
    ensures var op := w.ops[id]; var (next, outcome) := Perform(w, BeginAdvance(id, late));
      next.session == w.session && id in next.ops && next.ops[id].Qr?
      && (next.ops[id].phase == Polling <==> !op.finished && !late && op.gen == w.session.generation)
      && (next.ops[id].finished <==> op.finished || late)
      && (!op.finished && late ==> outcome == QrTimedOut && !next.ops[id].cancellable)
      && (!op.finished && !late && op.gen != w.session.generation ==> outcome == Replaced)
  {
  }

  /** The answers to a poll that end the attempt. */
  predicate EndsAttempt(op: Op, r: Response)
    requires op.Qr?
  {
    r.TimedOut? || r.Expired? || r.CredentialIs? || (r.Failed? && (r.error != NetworkFailure || op.failures >= 2))
  }

  predicate AnswersPoll(r: Response) {
    r.TimedOut? || r.Expired? || r.CredentialIs? || r.Failed? || r.StillWaiting?
  }

  /** A poll ends the attempt, and spends its cancellation handle, exactly on those answers. */
  lemma PollEndsIff(w: World, id: nat, r: Response)
    requires id in w.ops && w.ops[id].Qr? && w.ops[id].phase == Polling && !w.ops[id].finished
    requires w.ops[id].gen == w.session.generation && AnswersPoll(r)
    ensures var next := Step(w, Respond(id, r));
      id in next.ops && next.ops[id].Qr?
      && (next.ops[id].finished <==> EndsAttempt(w.ops[id], r))
      && (EndsAttempt(w.ops[id], r) ==> !next.ops[id].cancellable)
      && (r.CredentialIs? <==> next.ops[id].phase.Verifying?)
      && (next.session != w.session ==> r.CredentialIs? || r == Failed(CredentialRejected))
  {
  }

  /** Failures in a row are counted and forgiven by any answer of the server; the caller hears what happened. */
  lemma PollReports(w: World, id: nat, r: Response)
    requires id in w.ops && w.ops[id].Qr? && w.ops[id].phase == Polling && !w.ops[id].finished
    requires w.ops[id].gen == w.session.generation && AnswersPoll(r)
    ensures var (next, outcome) := Perform(w, Respond(id, r));
      id in next.ops && next.ops[id].Qr?
      && next.ops[id].failures ==
        (if r == Failed(NetworkFailure) then w.ops[id].failures + 1
         else if r.Failed? || r.TimedOut? then w.ops[id].failures
         else 0)
      && outcome == (if r.Failed? then ClientFailure(r.error) else if r.TimedOut? then QrTimedOut else Done)
  {
  }

  /** A fenced call reports success exactly in its own generation, and otherwise changes nothing. */
  lemma FencedCallsReport(s: Session, generation: nat, credential: nat, user: nat, track: nat, liked: bool,
                          playlist: Option<nat>, ids: set<nat>)
    ensures var mine := s.generation == generation;
      mine == RetainPending(s, generation, credential).1 == Reject(s, generation).1
      && mine == Install(s, generation, credential, user).1 == ApplyLikedDelta(s, generation, track, liked).1
      && mine == StoreChallenge(s, generation, credential).1 == FencedBump(s, generation).1
      && mine == StorePlaylist(s, generation, playlist).1 == StoreLiked(s, generation, ids).1
      && (MarkRefresh(s, generation).1 <==> mine && s.likedMembership.Some?)
    ensures s.generation != generation ==>
      s == RetainPending(s, generation, credential).0 == Reject(s, generation).0
      && s == Install(s, generation, credential, user).0 == ApplyLikedDelta(s, generation, track, liked).0
      && s == StoreChallenge(s, generation, credential).0 == FencedBump(s, generation).0
      && s == StorePlaylist(s, generation, playlist).0 == StoreLiked(s, generation, ids).0
      && s == MarkRefresh(s, generation).0
  {
  }

  /** A confirmed credential becomes the candidate of the attempt's generation. */
  lemma ConfirmationRetains(w: World, id: nat, credential: nat)
    requires id in w.ops && w.ops[id].Qr? && w.ops[id].phase == Polling
    requires w.ops[id].gen == w.session.generation
    ensures var next := Step(w, Respond(id, CredentialIs(credential)));
      next.session.pending == Some(credential) && next.session.active.None? && next.session.sms.None?
      && next.session.generation == w.session.generation
      && id in next.ops && next.ops[id].Qr? && next.ops[id].phase == Verifying(credential)
  {
  }

  // ----- Media

  /** A media answer in the caller's generation is handed out as it came, unless it is not valid at all. */
  lemma MediaAnswer(w: World, id: nat, uri: nat, seconds: nat)
    requires id in w.ops && w.ops[id].MediaFetch? && w.ops[id].fetchGen == w.session.generation
    ensures var g := w.ops[id].gen; var (next, outcome) := Perform(w, Respond(id, MediaIs(uri, seconds)));
      id !in next.ops && next.session == w.session
      && if g != w.session.generation then outcome == Replaced && next.cache == w.cache
         else if seconds == 0 then outcome == ClientFailure(ShapeMismatch) && next.cache == w.cache
         else outcome.DeliveredMedia? && outcome.inGeneration == g
              && outcome.source == Cache.Source(Fetched(uri, g, g), seconds)
  {
  }

  /** And it is found again: the next request for the same media within its validity needs no server. */
  lemma MediaIsFoundAgain(w: World, id: nat, uri: nat, seconds: nat, later: nat, now: nat)
    requires id in w.ops && w.ops[id].MediaFetch? && w.ops[id].fetchGen == w.session.generation
    requires w.ops[id].gen == w.session.generation && seconds > 0 && w.mediaLock == Some(id)
    requires var started := w.ops[id].started;
      started <= now && now + 1_000_000_000 <= started + seconds * 1_000_000_000 <= CLOCK_END
      && started + seconds * 1_000_000_000 < now + 0x1_0000_0000 * 1_000_000_000
    requires later !in w.ops
    ensures var fetched := Step(w, Respond(id, MediaIs(uri, seconds)));
      var next := Step(fetched, BeginMedia(later, w.ops[id].key, now));
      later in next.ops && next.ops[later].MediaHit? && next.ops[later].source.media.uri == uri
  {
    var op := w.ops[id];
    var g := w.session.generation;
    var source := Cache.Source(Fetched(uri, g, g), seconds);
    var fetched := Step(w, Respond(id, MediaIs(uri, seconds)));
    assert fetched.cache == Cache.Insert(w.cache, op.key, source, g, op.started, CLOCK_END);
    assert fetched.mediaLock.None? && fetched.session == w.session && later !in fetched.ops;
    hide Step;
    InsertedIsFound(w.cache, op.key, source, g, op.started, now);
    MediaBegins(fetched, later, op.key, now);
  }

  lemma MediaBegins(w: World, id: nat, key: Key, now: nat)
    requires w.mediaLock.None? && id !in w.ops
    ensures var hit := Cache.Get(w.cache, key, w.session.generation, now).1;
      var next := Step(w, BeginMedia(id, key, now));
      id in next.ops && (hit.Some? ==> next.ops[id] == MediaHit(w.session.generation, hit.value))
      && (hit.None? ==> next.ops[id] == MediaMiss(w.session.generation, key, now))
  {
    hide Cache.Get;
  }

  lemma InsertedIsFound(entries: seq<Cache.Entry<Key, Fetched>>, key: Key, source: Cache.Source<Fetched>, g: nat,
                        started: nat, now: nat)
    requires var expires := started + source.validForSeconds * 1_000_000_000;
      started <= now && now + 1_000_000_000 <= expires <= CLOCK_END && expires < now + 0x1_0000_0000 * 1_000_000_000
    ensures var hit := Cache.Get(Cache.Insert(entries, key, source, g, started, CLOCK_END), key, g, now).1;
      hit.Some? && hit.value.media == source.media
  {
    var inserted := Cache.Insert(entries, key, source, g, started, CLOCK_END);
    var last := |inserted| - 1;
    var rest := Cache.MakeRoom(Cache.Without(entries, g, key));
    assert inserted[last].key == key && inserted[last].generation == g && inserted[last].source == source;
    Cache.WithoutFacts(entries, g, key);
    Cache.MakeRoomFacts(Cache.Without(entries, g, key));
    var live := Cache.Live(inserted, g, now);
    Cache.LiveFacts(inserted, g, now);
    assert inserted[last] in inserted;
    assert inserted[last] in live;
    var found := Cache.Find(live, g, key);
    var k :| 0 <= k < |live| && live[k] == inserted[last];
    assert found <= k;
    assert live[found] in live;
    assert live[found] in inserted;
    assert live[found] == inserted[last] by {
      OnlyOneOfKey(rest, inserted[last], live[found]);
    }
    RemainsSome(inserted[last].expires, now);
  }

  lemma OnlyOneOfKey(rest: seq<Cache.Entry<Key, Fetched>>, last: Cache.Entry<Key, Fetched>,
                     e: Cache.Entry<Key, Fetched>)
    requires e in rest + [last] && e.key == last.key && forall x :: x in rest ==> x.key != last.key
    ensures e == last
  {
  }

  lemma RemainsSome(expires: nat, now: nat)
    requires now + 1_000_000_000 <= expires < now + 0x1_0000_0000 * 1_000_000_000
    ensures 1 <= Cache.RemainingSeconds(expires, now) <= U32_MAX
  {
  }
}
