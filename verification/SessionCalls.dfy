/**
  The protocol seen from the owner: every step of every run moves the session by at most
  one of the owner's calls, so a run is a sequence of calls.
*/
module SessionCalls {
  import opened Basics
  import opened SessionSpec

  datatype Call =
    | CallImport(credential: nat)
    | CallSignOut
    | CallCancelSms
    | CallCancelPending
    | CallBeginLogin
    | CallBeginRecent(token: nat)
    | CallEndGeneration(began: nat)
    | CallReject(began: nat)
    | CallInstall(began: nat, credential: nat, user: nat)
    | CallRetain(began: nat, credential: nat)
    | CallChallenge(began: nat, challenge: nat)
    | CallPlaylist(began: nat, playlist: Option<nat>)
    | CallRecent(began: nat, token: nat, rows: seq<Option<nat>>)
    | CallDelta(began: nat, track: nat, liked: bool)
    | CallMark(began: nat)
    | CallLiked(began: nat, ids: set<nat>)

  function Apply(s: Session, c: Call): Session {
    match c
    case CallImport(credential) => Import(s, credential)
    case CallSignOut => SignOut(s)
    case CallCancelSms => CancelSms(s).0
    case CallCancelPending => CancelPending(s).0
    case CallBeginLogin => BeginLogin(s)
    case CallBeginRecent(token) => BeginRecent(s, token)
    case CallEndGeneration(began) => FencedBump(s, began).0
    case CallReject(began) => Reject(s, began).0
    case CallInstall(began, credential, user) => Install(s, began, credential, user).0
    case CallRetain(began, credential) => RetainPending(s, began, credential).0
    case CallChallenge(began, challenge) => StoreChallenge(s, began, challenge).0
    case CallPlaylist(began, playlist) => StorePlaylist(s, began, playlist).0
    case CallRecent(began, token, rows) => StoreRecent(s, began, token, rows).0
    case CallDelta(began, track, liked) => ApplyLikedDelta(s, began, track, liked).0
    case CallMark(began) => MarkRefresh(s, began).0
    case CallLiked(began, ids) => StoreLiked(s, began, ids).0
  }

  function ApplyIf(s: Session, c: Option<Call>): Session {
    if c.Some? then Apply(s, c.value) else s
  }

  // ----- Which call an event makes

  /** An answer either rejects the credential, or makes the one call its operation is for. */
  function CallOfAnswer(op: Op, r: Response): Option<Call> {
    if r == Failed(CredentialRejected) then Some(CallReject(FenceOf(op)))
    else match (op, r)
      case (Verify(gen, credential), AccountIs(user)) => Some(CallInstall(gen, credential, user))
      case (SmsRequest(gen), ChallengeIs(challenge)) => Some(CallChallenge(gen, challenge))
      case (SmsLogin(gen, _), CredentialIs(credential)) => Some(CallRetain(gen, credential))
      case (Playlists(gen, _), LikedPlaylistIs(playlist)) => Some(CallPlaylist(gen, playlist))
      case (Recent(gen, _, token), RowsAre(rows)) => Some(CallRecent(gen, token, rows))
      case (Like(gen, _, track, liked, _), Written) => Some(CallDelta(gen, track, liked))
      case (Like(gen, _, _, _, _), Failed(error)) => if OutcomeUnknown(error) then Some(CallMark(gen)) else None
      case (LikedLoad(gen, _), LikedAre(ids)) => Some(CallLiked(gen, ids))
      case (Qr(gen, _, _, Verifying(credential), _), AccountIs(user)) => Some(CallInstall(gen, credential, user))
      case (Qr(gen, _, _, Polling, _), CredentialIs(credential)) => Some(CallRetain(gen, credential))
      case _ => None
  }

  function CallOfStart(w: World, e: Event): Option<Call> {
    if e.BeginSms? || e.BeginQr? then Some(CallBeginLogin)
    else if e.BeginRecentPage? && w.session.active.Some? && (e.first || w.session.recentSnapshot.None?) then
      Some(CallBeginRecent(w.nextToken))
    else None
  }

  function CallOfOther(op: Op, e: Event): Option<Call> {
    if e.CancelQr? && op.Qr? && op.cancellable then Some(CallEndGeneration(op.gen))
    else if e.CloseQr? && op.Qr? && op.phase == Idle && !op.finished then Some(CallEndGeneration(op.gen))
    else None
  }

  function CallNow(s: Session, e: Event): Option<Call> {
    match e
    case ImportCredential(credential) => Some(CallImport(credential))
    case DoSignOut => Some(CallSignOut)
    case DoCancelSms => Some(CallCancelSms)
    case DoCancelPending => Some(CallCancelPending)
    case RequestRefresh => Some(CallMark(s.generation))
    case _ => None
  }

  function CallOf(w: World, e: Event): Option<Call> {
    if Immediate(e) then CallNow(w.session, e)
    else if Starts(e) then if e.id in w.ops then None else CallOfStart(w, e)
    else if e.id !in w.ops then None
    else if e.Respond? then
      if AwaitsResponse(w.ops[e.id]) && w.session.generation == FenceOf(w.ops[e.id]) then
        CallOfAnswer(w.ops[e.id], e.response)
      else None
    else CallOfOther(w.ops[e.id], e)
  }

  // ----- And that it makes no other change

  lemma StartIsACall(w: World, e: Event)
    requires Starts(e)
    ensures Begin(w, e).0.session == ApplyIf(w.session, CallOfStart(w, e))
  {
    hide Cache.Get;
  }

  lemma OtherIsACall(w: World, e: Event)
    requires !Starts(e) && !Immediate(e) && !e.Respond? && e.id in w.ops
    ensures Continue(w, e, e.id).0.session == ApplyIf(w.session, CallOfOther(w.ops[e.id], e))
  {
  }

  lemma QrAnswerIsACall(s: Session, op: Op, r: Response)
    requires op.Qr? && op.phase != Idle
    ensures QrAnswer(s, op, r).0 == if s.generation == op.gen then ApplyIf(s, CallOfAnswer(op, r)) else s
  {
  }

  lemma AnswerIsACall(w: World, id: nat, op: Op, r: Response)
    requires !op.Qr? && w.session.generation == FenceOf(op) && r != Failed(CredentialRejected)
    ensures RespondCurrent(w, id, op, r).0.session == ApplyIf(w.session, CallOfAnswer(op, r))
  {
    hide Cache.Insert;
  }

  lemma ResponseIsACall(w: World, id: nat, op: Op, r: Response)
    requires AwaitsResponse(op)
    ensures RespondTo(w, id, op, r).0.session
         == if w.session.generation == FenceOf(op) then ApplyIf(w.session, CallOfAnswer(op, r)) else w.session
  {
    hide QrAnswer, RespondCurrent;
    if op.Qr? {
      QrAnswerIsACall(w.session, op, r);
    } else if w.session.generation == FenceOf(op) && r != Failed(CredentialRejected) {
      AnswerIsACall(w, id, op, r);
    }
  }

  lemma RespondIsACall(w: World, e: Event)
    requires e.Respond? && e.id in w.ops
    ensures Step(w, e).session == ApplyIf(w.session, CallOf(w, e))
  {
    hide RespondTo, Apply, CallOfAnswer;
    if AwaitsResponse(w.ops[e.id]) {
      ResponseIsACall(w, e.id, w.ops[e.id], e.response);
    }
  }

  /** Every step of the protocol moves the session by at most one call. */
  lemma StepIsACall(w: World, e: Event)
    ensures Step(w, e).session == ApplyIf(w.session, CallOf(w, e))
  {
    hide Begin, Continue, CallOfStart, CallOfOther, CallOfAnswer;
    if Immediate(e) {
    } else if Starts(e) {
      if e.id !in w.ops {
        StartIsACall(w, e);
      }
    } else if e.id in w.ops {
      if e.Respond? {
        RespondIsACall(w, e);
      } else {
        OtherIsACall(w, e);
      }
    }
  }

  // ----- What no call does

  /** A refresh mark needs a liked set to mark, and a snapshot of the history the request it answered. */
  predicate Tidy(s: Session) {
    (s.needsRefresh ==> s.likedMembership.Some?) && (s.recentSnapshot.Some? ==> s.recentRequest.Some?)
  }

  lemma CallKeepsTidy(s: Session, c: Call)
    requires Tidy(s)
    ensures Tidy(Apply(s, c))
  {
  }

  /** Over every run a refresh mark stands on a cached set only, and a snapshot belongs to a request. */
  lemma {:induction false} MarksStandOnData(server: map<nat, set<nat>>, events: seq<Event>)
    ensures Tidy(Run(Initial(server), events).session)
    decreases |events|
  {
    hide Step, Tidy;
    if events == [] {
      InitialIsTidy(server);
    } else {
      var w, e := Run(Initial(server), events[..|events| - 1]), events[|events| - 1];
      MarksStandOnData(server, events[..|events| - 1]);
      StepIsACall(w, e);
      if CallOf(w, e).Some? {
        CallKeepsTidy(w.session, CallOf(w, e).value);
      }
    }
  }

  lemma InitialIsTidy(server: map<nat, set<nat>>)
    ensures Tidy(Initial(server).session)
  {
  }
}
