/**
  The NetEase session owner as a protocol. Each locked section is one function on
  the session; each await is a point where any other event may happen first; an
  operation in flight remembers the generation it began in.
*/
module SessionSpec {
  import opened Basics
  import Cache = MediaCacheSpec

  const REVISIONS: nat := 0x1_0000_0000_0000_0000

  datatype Account = Account(credential: nat, user: nat)

  datatype Session = Session(
    generation: nat,
    active: Option<Account>,
    pending: Option<nat>,
    sms: Option<nat>,
    likedPlaylist: Option<nat>,
    likedMembership: Option<set<nat>>,
    revision: nat,
    needsRefresh: bool,
    recentRequest: Option<nat>,
    recentSnapshot: Option<seq<Option<nat>>>)

  // ----- Locked sections

  function NextRevision(revision: nat): nat {
    (revision + 1) % REVISIONS
  }

  function Bump(s: Session): Session {
    s.(generation := s.generation + 1, recentRequest := None, recentSnapshot := None,
    likedMembership := None, needsRefresh := false, revision := NextRevision(s.revision))
  }

  function RetainPending(s: Session, generation: nat, credential: nat): (Session, bool) {
    if s.generation != generation then (s, false)
    else (s.(active := None, likedPlaylist := None, likedMembership := None, needsRefresh := false,
          pending := Some(credential), sms := None), true)
  }

  /** A rejected credential ends the session of exactly the generation that used it. */
  function Reject(s: Session, generation: nat): (Session, bool) {
    if s.generation != generation then (s, false)
    else (Bump(s.(active := None, likedPlaylist := None, pending := None, sms := None)), true)
  }

  function Install(s: Session, generation: nat, credential: nat, user: nat): (Session, bool) {
    if s.generation != generation then (s, false)
    else (Bump(s.(pending := None, sms := None, active := Some(Account(credential, user)),
               likedPlaylist := None, likedMembership := None, needsRefresh := false)), true)
  }

  function Delta(ids: set<nat>, track: nat, liked: bool): set<nat> {
    if liked then ids + {track} else ids - {track}
  }

  function ApplyLikedDelta(s: Session, generation: nat, track: nat, liked: bool): (Session, bool) {
    if s.generation != generation then (s, false)
    else if s.likedMembership.None? then (s, true)
    else (s.(likedMembership := Some(Delta(s.likedMembership.value, track, liked)),
          revision := NextRevision(s.revision)), true)
  }

  function MarkRefresh(s: Session, generation: nat): (Session, bool) {
    if s.generation == generation && s.likedMembership.Some? then (s.(needsRefresh := true), true) else (s, false)
  }

  function Import(s: Session, credential: nat): Session {
    Bump(s).(active := None, likedPlaylist := None, pending := Some(credential), sms := None)
  }

  function SignOut(s: Session): Session {
    Bump(s.(active := None, likedPlaylist := None, pending := None, sms := None))
  }

  function CancelPending(s: Session): (Session, bool) {
    if s.pending.None? then (s, false) else (Bump(s), true)
  }

  function CancelSms(s: Session): (Session, bool) {
    (Bump(s.(sms := None, pending := None)), s.sms.Some? || s.pending.Some?)
  }

  /** Both SMS and QR login start by ending whatever session there was. */
  function BeginLogin(s: Session): Session {
    Bump(s).(active := None, pending := None, sms := None, likedPlaylist := None)
  }

  function StoreChallenge(s: Session, generation: nat, challenge: nat): (Session, bool) {
    if s.generation != generation then (s, false) else (s.(sms := Some(challenge)), true)
  }

  /** QR cancellation and drop: only their own generation may be ended. */
  function FencedBump(s: Session, generation: nat): (Session, bool) {
    if s.generation != generation then (s, false) else (Bump(s), true)
  }

  function StorePlaylist(s: Session, generation: nat, playlist: Option<nat>): (Session, bool) {
    if s.generation != generation then (s, false) else (s.(likedPlaylist := playlist), true)
  }

  function BeginRecent(s: Session, token: nat): Session {
    s.(recentRequest := Some(token), recentSnapshot := None)
  }

  function StoreRecent(s: Session, generation: nat, token: nat, rows: seq<Option<nat>>): (Session, bool) {
    if s.generation != generation || s.recentRequest != Some(token) then (s, false)
    else (s.(recentSnapshot := Some(rows)), true)
  }

  function StoreLiked(s: Session, generation: nat, ids: set<nat>): (Session, bool) {
    if s.generation != generation then (s, false)
    else (s.(likedMembership := Some(ids), needsRefresh := false, revision := NextRevision(s.revision)), true)
  }

  /** May the cached membership answer before the single-flight lock is taken? */
  predicate ServesCached(s: Session, force: bool) {
    !force && !s.needsRefresh && s.likedMembership.Some?
  }

  /** And after it: also when somebody else replaced the set while this caller waited. */
  predicate ServesAfterWait(s: Session, observed: nat, force: bool) {
    s.likedMembership.Some? && (s.revision != observed || (!force && !s.needsRefresh))
  }

  // ----- Operations in flight

  datatype QrPhase = Idle | Polling | Verifying(credential: nat)

  type Key = (nat, nat)

  /** A media source and the generations in which its request began and ended. */
  datatype Fetched = Fetched(uri: nat, beganIn: nat, endedIn: nat)

  datatype Op =
    | Verify(gen: nat, credential: nat)
    | SmsRequest(gen: nat)
    | SmsLogin(gen: nat, challenge: nat)
    | QrKey(gen: nat)
    | Qr(gen: nat, finished: bool, cancellable: bool, phase: QrPhase, failures: nat)
    | Read(gen: nat, reader: Option<Account>)
    | Playlists(gen: nat, account: Account)
    | Recent(gen: nat, account: Account, token: nat)
    | Like(gen: nat, account: Account, track: nat, liked: bool, applied: bool)
    | LikedWait(gen: nat, account: Account, observed: nat, force: bool)
    | LikedLoad(gen: nat, account: Account)
    | MediaHit(gen: nat, source: Cache.Source<Fetched>)
    | MediaMiss(gen: nat, key: Key, started: nat)
    | MediaFetch(gen: nat, key: Key, started: nat, fetchGen: nat)

  /** The generation the operation's request runs in; a media request is sent in a later one than its caller began. */
  function FenceOf(op: Op): nat {
    if op.MediaFetch? then op.fetchGen else op.gen
  }

  predicate AwaitsResponse(op: Op) {
    !op.LikedWait? && !op.MediaHit? && !op.MediaMiss? && (op.Qr? ==> op.phase != Idle)
  }

  datatype ClientError = CredentialRejected | NetworkFailure | ShapeMismatch | ResponseBound | OtherFailure

  datatype Response =
    | Failed(error: ClientError)
    | TimedOut
    | AccountIs(user: nat)
    | ChallengeIs(challenge: nat)
    | CredentialIs(credential: nat)
    | Ready
    | StillWaiting
    | Expired
    | LikedPlaylistIs(playlist: Option<nat>)
    | RowsAre(rows: seq<Option<nat>>)
    | Written
    | LikedAre(ids: set<nat>)
    | MediaIs(uri: nat, validForSeconds: nat)

  datatype Outcome =
    | Ignored
    | Done
    | Replaced
    | QrTimedOut
    | ClientFailure(error: ClientError)
    | DeliveredLiked(ids: set<nat>)
    | DeliveredMedia(source: Cache.Source<Fetched>, inGeneration: nat)

  /** Whose data a cached value is. */
  datatype Origins = Origins(playlist: Option<Account>, membership: Option<Account>, recent: Option<Account>)

  /** A write whose caller is gone while the server may still apply or lose it. */
  datatype Write = Write(user: nat, track: nat, liked: bool)

  datatype World = World(
    session: Session,
    ops: map<nat, Op>,
    nextToken: nat,
    likedLock: Option<nat>,
    mediaLock: Option<nat>,
    cache: seq<Cache.Entry<Key, Fetched>>,
    origins: Origins,
    server: map<nat, set<nat>>,
    detached: seq<Write>)

  datatype Event =
    | ImportCredential(credential: nat)
    | DoSignOut
    | DoCancelSms
    | DoCancelPending
    | RequestRefresh
    | SettleWrite(k: nat, applied: bool)
    | BeginVerify(id: nat)
    | BeginSms(id: nat)
    | BeginSmsLogin(id: nat)
    | BeginQr(id: nat)
    | BeginAdvance(id: nat, pastDeadline: bool)
    | CancelQr(id: nat)
    | CloseQr(id: nat)
    | BeginRead(id: nat)
    | BeginPlaylists(id: nat)
    | BeginRecentPage(id: nat, first: bool)
    | BeginLike(id: nat, track: nat, liked: bool)
    | BeginLiked(id: nat, force: bool)
    | AcquireLiked(id: nat)
    | BeginMedia(id: nat, key: Key, now: nat)
    | RecheckMedia(id: nat)
    | FetchMedia(id: nat)
    | ServerApplies(id: nat)
    | Respond(id: nat, response: Response)
    | Abandon(id: nat)

  // ----- Steps

  function With(w: World, id: nat, op: Op): World {
    w.(ops := w.ops[id := op])
  }

  /** The operation ends; the locks it held are released. */
  function Ended(w: World, id: nat): World {
    w.(ops := w.ops - {id},
    likedLock := if w.likedLock == Some(id) then None else w.likedLock,
    mediaLock := if w.mediaLock == Some(id) then None else w.mediaLock)
  }

  /** After these failures the provider cannot know whether the server wrote. */
  predicate OutcomeUnknown(error: ClientError) {
    error == NetworkFailure || error == ShapeMismatch || error == ResponseBound
  }

  /** A write given up before it was seen to take effect stays on its way to the server. */
  function Detach(w: World, op: Op): World {
    if op.Like? && !op.applied then w.(detached := w.detached + [Write(op.account.user, op.track, op.liked)]) else w
  }

  function Settle(w: World, k: nat, applied: bool): World {
    if k >= |w.detached| then w
    else
      var d := w.detached[k];
      var rest := w.detached[..k] + w.detached[k + 1..];
      if !applied then w.(detached := rest)
      else w.(detached := rest, server := w.server[d.user := Delta(ServerSet(w, d.user), d.track, d.liked)])
  }

  function ServerSet(w: World, user: nat): set<nat> {
    if user in w.server then w.server[user] else {}
  }

  function Finished(op: Op): Op
    requires op.Qr?
  {
    Qr(op.gen, true, false, Idle, op.failures)
  }

  const NETWORK_FAILURE_LIMIT: nat := 3

  /** What a QR attempt makes of the answer it awaits: the session, the attempt and the result. */
  function QrAnswer(s: Session, op: Op, r: Response): (Session, Op, Outcome)
    requires op.Qr? && op.phase != Idle
  {
    var idle := op.(phase := Idle);
    if op.phase.Verifying? then
      if r.TimedOut? then (s, idle, QrTimedOut)
      else if s.generation != op.gen then (s, idle, Replaced)
      else if r == Failed(CredentialRejected) then (Reject(s, op.gen).0, idle, ClientFailure(r.error))
      else if r.AccountIs? then (Install(s, op.gen, op.phase.credential, r.user).0, idle, Done)
      else if r.Failed? then (s, idle, ClientFailure(r.error))
      else (s, idle, Ignored)
    else if r.TimedOut? then (s, Finished(op), QrTimedOut)
    else if s.generation != op.gen then (s, Finished(op), Replaced)
    else match r
      case Failed(NetworkFailure) =>
        var failures := op.failures + 1;
        var next := op.(phase := Idle, failures := failures);
        (s, if failures >= NETWORK_FAILURE_LIMIT then Finished(next) else next, ClientFailure(NetworkFailure))
      case Failed(CredentialRejected) => (Reject(s, op.gen).0, Finished(op), ClientFailure(CredentialRejected))
      case Failed(error) => (s, Finished(op), ClientFailure(error))
      case StillWaiting => (s, op.(phase := Idle, failures := 0), Done)
      case Expired => (s, Finished(op).(failures := 0), Done)
      case CredentialIs(credential) =>
        (RetainPending(s, op.gen, credential).0, Finished(op).(failures := 0, phase := Verifying(credential)), Done)
      case _ => (s, idle, Ignored)
  }

  function RespondQr(w: World, id: nat, op: Op, r: Response): (World, Outcome)
    requires op.Qr? && op.phase != Idle
  {
    var (session, next, outcome) := QrAnswer(w.session, op, r);
    (With(w, id, next).(session := session), outcome)
  }

  /** A call to advance: whether it polls at all, and what it reports if not. */
  function QrAdvance(s: Session, op: Op, pastDeadline: bool): (Op, Outcome)
    requires op.Qr? && op.phase == Idle
  {
    if op.finished then (op, Ignored)
    else if pastDeadline then (Finished(op), QrTimedOut)
    else if s.generation != op.gen then (op, Replaced)
    else (op.(phase := Polling), Done)
  }

  /** The cancellation handle works once, and only on the attempt's own generation. */
  function QrCancel(s: Session, op: Op): (Session, Op, bool)
    requires op.Qr?
  {
    if !op.cancellable then (s, op, false)
    else (FencedBump(s, op.gen).0, op.(cancellable := false), FencedBump(s, op.gen).1)
  }

  function QrDrop(s: Session, op: Op): Session
    requires op.Qr?
  {
    if op.finished then s else FencedBump(s, op.gen).0
  }

  /** A response that arrives while its operation's generation is still current and accepted. */
  function RespondCurrent(w: World, id: nat, op: Op, r: Response): (World, Outcome) {
    var s := w.session;
    var ended := Ended(w, id);
    match (op, r)
    case (Verify(gen, credential), AccountIs(user)) =>
      (ended.(session := Install(s, gen, credential, user).0), Done)
    case (SmsRequest(gen), ChallengeIs(challenge)) =>
      (ended.(session := StoreChallenge(s, gen, challenge).0), Done)
    case (SmsLogin(gen, challenge), CredentialIs(credential)) =>
      (With(w, id, Verify(gen, credential)).(session := RetainPending(s, gen, credential).0), Done)
    case (QrKey(gen), Ready) => (With(w, id, Qr(gen, false, true, Idle, 0)), Done)
    case (QrKey(_), TimedOut) => (ended, QrTimedOut)
    case (Playlists(gen, account), LikedPlaylistIs(playlist)) =>
      (ended.(session := StorePlaylist(s, gen, playlist).0, origins := w.origins.(playlist := Some(account))), Done)
    case (Recent(gen, account, token), RowsAre(rows)) =>
      var (next, stored) := StoreRecent(s, gen, token, rows);
      if stored then (ended.(session := next, origins := w.origins.(recent := Some(account))), Done)
      else (ended, Replaced)
    case (Like(gen, account, track, liked, applied), Written) =>
      (ended.(session := ApplyLikedDelta(s, gen, track, liked).0), Done)
    case (Like(gen, account, track, liked, applied), Failed(error)) =>
      if OutcomeUnknown(error) then
        (Detach(ended, op).(session := MarkRefresh(s, gen).0), ClientFailure(error))
      else (ended, ClientFailure(error))
    case (LikedLoad(gen, account), LikedAre(ids)) =>
      (ended.(session := StoreLiked(s, gen, ids).0, origins := w.origins.(membership := Some(account))),
       DeliveredLiked(ids))
    case (MediaFetch(gen, key, started, fetchGen), MediaIs(uri, valid)) =>
      if s.generation != gen then (ended, Replaced)
      else if valid == 0 then (ended, ClientFailure(ShapeMismatch))
      else
        var source := Cache.Source(Fetched(uri, fetchGen, s.generation), valid);
        (ended.(cache := Cache.Insert(w.cache, key, source, gen, started, CLOCK_END)), DeliveredMedia(source, gen))
    case (_, Failed(error)) => (ended, ClientFailure(error))
    case _ => (ended, Ignored)
  }

  /** Last instant the clock can represent, in nanoseconds; it only decides what is not cached. */
  const CLOCK_END: nat := 0x7FFF_FFFF_FFFF_FFFF * Cache.NANOS_PER_SECOND

  function RespondTo(w: World, id: nat, op: Op, r: Response): (World, Outcome)
    requires AwaitsResponse(op)
  {
    if op.Qr? then RespondQr(w, id, op, r)
    else if w.session.generation != FenceOf(op) then (Ended(Detach(w, op), id), Replaced)
    else if r == Failed(CredentialRejected) then
      (Ended(w, id).(session := Reject(w.session, FenceOf(op)).0), ClientFailure(CredentialRejected))
    else RespondCurrent(w, id, op, r)
  }

  /** Operations that a caller may start; `id` must be new. */
  function Begin(w: World, e: Event): (World, Outcome)
  {
    var s := w.session;
    match e
    case BeginVerify(id) =>
      if s.pending.None? then (w, Ignored) else (With(w, id, Verify(s.generation, s.pending.value)), Done)
    case BeginSms(id) =>
      var next := BeginLogin(s);
      (With(w, id, SmsRequest(next.generation)).(session := next), Done)
    case BeginSmsLogin(id) =>
      if s.pending.Some? then (With(w, id, Verify(s.generation, s.pending.value)), Done)
      else if s.sms.Some? then (With(w, id, SmsLogin(s.generation, s.sms.value)), Done)
      else (w, Ignored)
    case BeginQr(id) =>
      var next := BeginLogin(s);
      (With(w, id, QrKey(next.generation)).(session := next), Done)
    case BeginRead(id) => (With(w, id, Read(s.generation, s.active)), Done)
    case BeginPlaylists(id) =>
      if s.active.None? then (w, Ignored) else (With(w, id, Playlists(s.generation, s.active.value)), Done)
    case BeginRecentPage(id, first) =>
      if s.active.None? then (w, Ignored)
      else if !first && s.recentSnapshot.Some? then (w, Done)
      else (With(w, id, Recent(s.generation, s.active.value, w.nextToken))
            .(session := BeginRecent(s, w.nextToken), nextToken := w.nextToken + 1), Done)
    case BeginLike(id, track, liked) =>
      if s.active.None? then (w, Ignored)
      else (With(w, id, Like(s.generation, s.active.value, track, liked, false)), Done)
    case BeginLiked(id, force) =>
      if s.active.None? then (w, Ignored)
      else if ServesCached(s, force) then (w, DeliveredLiked(s.likedMembership.value))
      else (With(w, id, LikedWait(s.generation, s.active.value, s.revision, force)), Done)
    case BeginMedia(id, key, now) =>
      if w.mediaLock.Some? then (w, Ignored)
      else
        var (entries, hit) := Cache.Get(w.cache, key, s.generation, now);
        var op := if hit.Some? then MediaHit(s.generation, hit.value) else MediaMiss(s.generation, key, now);
        (With(w, id, op).(cache := entries, mediaLock := Some(id)), Done)
    case _ => (w, Ignored)
  }

  /** Events on an operation already in flight. */
  function Continue(w: World, e: Event, id: nat): (World, Outcome)
    requires id in w.ops
  {
    var s := w.session;
    var op := w.ops[id];
    match e
    case BeginAdvance(_, pastDeadline) =>
      if !op.Qr? || op.phase != Idle then (w, Ignored)
      else (With(w, id, QrAdvance(s, op, pastDeadline).0), QrAdvance(s, op, pastDeadline).1)
    case CancelQr(_) =>
      if !op.Qr? then (w, Ignored)
      else (With(w, id, QrCancel(s, op).1).(session := QrCancel(s, op).0), Done)
    case CloseQr(_) =>
      if !op.Qr? || op.phase != Idle then (w, Ignored)
      else (Ended(w, id).(session := QrDrop(s, op)), Done)
    case AcquireLiked(_) =>
      if !op.LikedWait? || w.likedLock.Some? then (w, Ignored)
      else if s.generation != op.gen then (Ended(w, id), Replaced)
      else if ServesAfterWait(s, op.observed, op.force) then (Ended(w, id), DeliveredLiked(s.likedMembership.value))
      else (With(w, id, LikedLoad(op.gen, op.account)).(likedLock := Some(id)), Done)
    case RecheckMedia(_) =>
      if !op.MediaHit? then (w, Ignored)
      else if s.generation != op.gen then (Ended(w, id), Replaced)
      else (Ended(w, id), DeliveredMedia(op.source, op.gen))
    case FetchMedia(_) =>
      if !op.MediaMiss? then (w, Ignored)
      else (With(w, id, MediaFetch(op.gen, op.key, op.started, s.generation)), Done)
    case ServerApplies(_) =>
      if !op.Like? || op.applied then (w, Ignored)
      else
        var user := op.account.user;
        (With(w, id, op.(applied := true))
         .(server := w.server[user := Delta(ServerSet(w, user), op.track, op.liked)]), Done)
    case Respond(_, r) => if AwaitsResponse(op) then RespondTo(w, id, op, r) else (w, Ignored)
    case Abandon(_) => (if op.Qr? then With(w, id, op.(phase := Idle)) else Ended(Detach(w, op), id), Done)
    case _ => (w, Ignored)
  }

  predicate Starts(e: Event) {
    e.BeginVerify? || e.BeginSms? || e.BeginSmsLogin? || e.BeginQr? || e.BeginRead? || e.BeginPlaylists?
    || e.BeginRecentPage? || e.BeginLike? || e.BeginLiked? || e.BeginMedia?
  }

  predicate Immediate(e: Event) {
    e.ImportCredential? || e.DoSignOut? || e.DoCancelSms? || e.DoCancelPending? || e.RequestRefresh?
    || e.SettleWrite?
  }

  function Now(w: World, e: Event): World
    requires Immediate(e)
  {
    var s := w.session;
    match e
    case ImportCredential(credential) => w.(session := Import(s, credential))
    case DoSignOut => w.(session := SignOut(s))
    case DoCancelSms => w.(session := CancelSms(s).0)
    case DoCancelPending => w.(session := CancelPending(s).0)
    case RequestRefresh => w.(session := MarkRefresh(s, s.generation).0)
    case SettleWrite(k, applied) => Settle(w, k, applied)
  }

  /** One event. Events that do not fit the state change nothing. */
  function Perform(w: World, e: Event): (World, Outcome) {
    if Immediate(e) then (Now(w, e), Done)
    else if Starts(e) then if e.id in w.ops then (w, Ignored) else Begin(w, e)
    else if e.id in w.ops then Continue(w, e, e.id)
    else (w, Ignored)
  }

  function Step(w: World, e: Event): World {
    Perform(w, e).0
  }

  function Run(w: World, events: seq<Event>): World
    decreases |events|
  {
    if events == [] then w else Step(Run(w, events[..|events| - 1]), events[|events| - 1])
  }

  function Initial(server: map<nat, set<nat>>): World {
    World(Session(0, None, None, None, None, None, 0, false, None, None), map[], 0, None, None, [],
          Origins(None, None, None), server, [])
  }
}
