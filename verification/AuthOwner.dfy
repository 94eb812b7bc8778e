/**
  The session owner's mutable state: one method per locked section, each moving the
  fields exactly as the protocol's step function says.
*/
module AuthOwner {
  import opened Basics
  import Protocol = SessionSpec
  import Calls = SessionCalls
  import Theorems = SessionTheorems

  class AuthOwner {
    var generation: nat
    var active: Option<Protocol.Account>
    var pending: Option<nat>
    var sms: Option<nat>
    var likedPlaylist: Option<nat>
    var likedMembership: Option<set<nat>>
    var revision: nat
    var needsRefresh: bool
    var recentRequest: Option<nat>
    var recentSnapshot: Option<seq<Option<nat>>>

    ghost function View(): Protocol.Session
      reads this
    {
      Protocol.Session(generation, active, pending, sms, likedPlaylist, likedMembership, revision, needsRefresh,
                       recentRequest, recentSnapshot)
    }

    constructor ()
      ensures View() == Protocol.Initial(map[]).session
    {
      generation, active, pending, sms := 0, None, None, None;
      likedPlaylist, likedMembership, revision, needsRefresh := None, None, 0, false;
      recentRequest, recentSnapshot := None, None;
    }

    method Bump()
      modifies this
      ensures View() == Protocol.Bump(old(View()))
    {
      generation := generation + 1;
      recentRequest := None;
      recentSnapshot := None;
      likedMembership := None;
      needsRefresh := false;
      revision := (revision + 1) % Protocol.REVISIONS;
    }

    method Snapshot() returns (r: Option<(nat, Protocol.Account)>)
      ensures r.Some? <==> active.Some?
      ensures r.Some? ==> r.value == (generation, active.value)
    {
      if active.None? {
        return None;
      }
      return Some((generation, active.value));
    }

    method RetainPending(began: nat, credential: nat) returns (ok: bool)
      modifies this
      ensures (View(), ok) == Protocol.RetainPending(old(View()), began, credential)
    {
      if generation != began {
        return false;
      }
      active := None;
      likedPlaylist := None;
      likedMembership := None;
      needsRefresh := false;
      pending := Some(credential);
      sms := None;
      return true;
    }

    /** The tail of `run` once the answer is a rejected credential. */
    method RejectCredential(began: nat) returns (ok: bool)
      modifies this
      ensures (View(), ok) == Protocol.Reject(old(View()), began)
    {
      if generation != began {
        return false;
      }
      active := None;
      likedPlaylist := None;
      pending := None;
      sms := None;
      Bump();
      return true;
    }

    method Install(began: nat, credential: nat, user: nat) returns (ok: bool)
      modifies this
      ensures (View(), ok) == Protocol.Install(old(View()), began, credential, user)
    {
      if generation != began {
        return false;
      }
      pending := None;
      sms := None;
      active := Some(Protocol.Account(credential, user));
      likedPlaylist := None;
      likedMembership := None;
      needsRefresh := false;
      Bump();
      return true;
    }

    method ApplyLikedDelta(began: nat, track: nat, liked: bool) returns (ok: bool)
      modifies this
      ensures (View(), ok) == Protocol.ApplyLikedDelta(old(View()), began, track, liked)
    {
      if generation != began {
        return false;
      }
      if likedMembership.None? {
        return true;
      }
      var replacement := likedMembership.value;
      if liked {
        replacement := replacement + {track};
      } else {
        replacement := replacement - {track};
      }
      likedMembership := Some(replacement);
      revision := (revision + 1) % Protocol.REVISIONS;
      return true;
    }

    method MarkLikedMembershipRefresh(began: nat) returns (marked: bool)
      modifies this
      ensures (View(), marked) == Protocol.MarkRefresh(old(View()), began)
    {
      if generation == began && likedMembership.Some? {
        needsRefresh := true;
        return true;
      }
      return false;
    }

    method ImportCredential(credential: nat)
      modifies this
      ensures View() == Protocol.Import(old(View()), credential)
    {
      Bump();
      active := None;
      likedPlaylist := None;
      pending := Some(credential);
      sms := None;
    }

    method CancelPendingCredentialVerification() returns (cancelled: bool)
      modifies this
      ensures (View(), cancelled) == Protocol.CancelPending(old(View()))
    {
      if pending.None? {
        return false;
      }
      Bump();
      return true;
    }

    method SignOut()
      modifies this
      ensures View() == Protocol.SignOut(old(View()))
    {
      active := None;
      likedPlaylist := None;
      pending := None;
      sms := None;
      Bump();
    }

    /** The first locked section of an SMS or a QR login; the result is the attempt's generation. */
    method BeginLogin() returns (began: nat)
      modifies this
      ensures View() == Protocol.BeginLogin(old(View())) && began == View().generation
    {
      Bump();
      active := None;
      pending := None;
      sms := None;
      likedPlaylist := None;
      return generation;
    }

    method StoreChallenge(began: nat, challenge: nat) returns (ok: bool)
      modifies this
      ensures (View(), ok) == Protocol.StoreChallenge(old(View()), began, challenge)
    {
      if generation != began {
        return false;
      }
      sms := Some(challenge);
      return true;
    }

    method CancelSmsAuthentication() returns (had: bool)
      modifies this
      ensures (View(), had) == Protocol.CancelSms(old(View()))
    {
      var hadChallenge := sms.Some?;
      sms := None;
      var hadPending := pending.Some?;
      pending := None;
      Bump();
      return hadChallenge || hadPending;
    }

    /** QR cancellation and drop: ends the generation only when it is still the attempt's own. */
    method EndGeneration(began: nat) returns (ended: bool)
      modifies this
      ensures (View(), ended) == Protocol.FencedBump(old(View()), began)
    {
      if generation != began {
        return false;
      }
      Bump();
      return true;
    }

    method StoreLikedPlaylist(began: nat, playlist: Option<nat>) returns (ok: bool)
      modifies this
      ensures (View(), ok) == Protocol.StorePlaylist(old(View()), began, playlist)
    {
      if generation != began {
        return false;
      }
      likedPlaylist := playlist;
      return true;
    }

    method BeginRecent(token: nat)
      modifies this
      ensures View() == Protocol.BeginRecent(old(View()), token)
    {
      recentRequest := Some(token);
      recentSnapshot := None;
    }

    method StoreRecent(began: nat, token: nat, rows: seq<Option<nat>>) returns (ok: bool)
      modifies this
      ensures (View(), ok) == Protocol.StoreRecent(old(View()), began, token, rows)
    {
      if generation != began || recentRequest.None? || recentRequest.value != token {
        return false;
      }
      recentSnapshot := Some(rows);
      return true;
    }

    method StoreLikedMembership(began: nat, ids: set<nat>) returns (ok: bool)
      modifies this
      ensures (View(), ok) == Protocol.StoreLiked(old(View()), began, ids)
    {
      if generation != began {
        return false;
      }
      likedMembership := Some(ids);
      needsRefresh := false;
      revision := (revision + 1) % Protocol.REVISIONS;
      return true;
    }

    /** The check before the load lock: a usable set, or the revision the caller has seen. */
    method PeekLikedMembership(force: bool) returns (hit: Option<set<nat>>, observed: nat)
      ensures hit == if Protocol.ServesCached(View(), force) then likedMembership else None
      ensures observed == revision
    {
      observed := revision;
      hit := None;
      if !force && !needsRefresh && likedMembership.Some? {
        hit := likedMembership;
      }
    }

    /** The check under the load lock: a set stored meanwhile also answers a forced refresh. */
    method RecheckLikedMembership(observed: nat, force: bool) returns (hit: Option<set<nat>>)
      ensures hit == if Protocol.ServesAfterWait(View(), observed, force) then likedMembership else None
    {
      hit := None;
      if likedMembership.Some? && (revision != observed || (!force && !needsRefresh)) {
        hit := likedMembership;
      }
    }
  }

  /** The call made on the object, whatever it reports. */
  method Make(auth: AuthOwner, c: Calls.Call)
    modifies auth
    ensures auth.View() == Calls.Apply(old(auth.View()), c)
  {
    match c {
      case CallImport(credential) => auth.ImportCredential(credential);
      case CallSignOut => auth.SignOut();
      case CallCancelSms => var _ := auth.CancelSmsAuthentication();
      case CallCancelPending => var _ := auth.CancelPendingCredentialVerification();
      case CallBeginLogin => var _ := auth.BeginLogin();
      case CallBeginRecent(token) => auth.BeginRecent(token);
      case CallEndGeneration(began) => var _ := auth.EndGeneration(began);
      case CallReject(began) => var _ := auth.RejectCredential(began);
      case CallInstall(began, credential, user) => var _ := auth.Install(began, credential, user);
      case CallRetain(began, credential) => var _ := auth.RetainPending(began, credential);
      case CallChallenge(began, challenge) => var _ := auth.StoreChallenge(began, challenge);
      case CallPlaylist(began, playlist) => var _ := auth.StoreLikedPlaylist(began, playlist);
      case CallRecent(began, token, rows) => var _ := auth.StoreRecent(began, token, rows);
      case CallDelta(began, track, liked) => var _ := auth.ApplyLikedDelta(began, track, liked);
      case CallMark(began) => var _ := auth.MarkLikedMembershipRefresh(began);
      case CallLiked(began, ids) => var _ := auth.StoreLikedMembership(began, ids);
    }
  }

  /**
    A fresh owner on which the calls of a run are made, in order, is in the state the protocol reaches,
    and so never holds more than one of account, candidate and challenge.
  */
  method Replay(server: map<nat, set<nat>>, events: seq<Protocol.Event>) returns (auth: AuthOwner)
    ensures fresh(auth) && auth.View() == Protocol.Run(Protocol.Initial(server), events).session
    ensures Theorems.AtMostOneCredential(auth.View())
  {
    hide Protocol.Step, Calls.CallOf, Calls.Apply;
    auth := new AuthOwner();
    var w := Protocol.Initial(server);
    for i := 0 to |events|
      invariant fresh(auth) && auth.View() == w.session && w == Protocol.Run(Protocol.Initial(server), events[..i])
    {
      Calls.StepIsACall(w, events[i]);
      var c := Calls.CallOf(w, events[i]);
      if c.Some? {
        Make(auth, c.value);
      }
      assert events[..i + 1][..i] == events[..i];
      w := Protocol.Step(w, events[i]);
    }
    assert events[..|events|] == events;
    Theorems.CredentialExclusivity(server, events);
  }

  /** One QR attempt, bound to the generation that opened it. */
  class QrSession {
    const auth: AuthOwner
    const generation: nat
    var finished: bool
    var cancellable: bool
    var failures: nat
    var phase: Protocol.QrPhase

    ghost function View(): Protocol.Op
      reads this
    {
      Protocol.Qr(generation, finished, cancellable, phase, failures)
    }

    constructor (auth: AuthOwner, generation: nat)
      ensures this.auth == auth && View() == Protocol.Qr(generation, false, true, Protocol.Idle, 0)
    {
      this.auth := auth;
      this.generation := generation;
      finished, cancellable, failures, phase := false, true, 0, Protocol.Idle;
    }

    method Finish()
      modifies this
      ensures View() == Protocol.Qr(generation, true, false, old(phase), old(failures))
    {
      finished := true;
      cancellable := false;
    }

    /** Advance up to its first await. */
    method Advance(pastDeadline: bool) returns (outcome: Protocol.Outcome)
      requires phase == Protocol.Idle
      modifies this
      ensures (View(), outcome) == Protocol.QrAdvance(auth.View(), old(View()), pastDeadline)
    {
      if finished {
        return Protocol.Ignored;
      }
      if pastDeadline {
        Finish();
        return Protocol.QrTimedOut;
      }
      if auth.generation != generation {
        return Protocol.Replaced;
      }
      phase := Protocol.Polling;
      return Protocol.Done;
    }

    /** Advance from an await to the next one or to its result. */
    method Answer(r: Protocol.Response) returns (outcome: Protocol.Outcome)
      requires phase != Protocol.Idle
      modifies this, auth
      ensures (auth.View(), View(), outcome) == Protocol.QrAnswer(old(auth.View()), old(View()), r)
    {
      if phase.Verifying? {
        outcome := Verdict(r);
      } else {
        outcome := PollAnswer(r);
      }
    }

    method Verdict(r: Protocol.Response) returns (outcome: Protocol.Outcome)
      requires phase.Verifying?
      modifies this, auth
      ensures (auth.View(), View(), outcome) == Protocol.QrAnswer(old(auth.View()), old(View()), r)
    {
      var credential := phase.credential;
      phase := Protocol.Idle;
      if r.TimedOut? {
        return Protocol.QrTimedOut;
      }
      if auth.generation != generation {
        return Protocol.Replaced;
      }
      if r.Failed? {
        if r.error == Protocol.CredentialRejected {
          var _ := auth.RejectCredential(generation);
        }
        return Protocol.ClientFailure(r.error);
      }
      if r.AccountIs? {
        var _ := auth.Install(generation, credential, r.user);
        return Protocol.Done;
      }
      return Protocol.Ignored;
    }

    method PollAnswer(r: Protocol.Response) returns (outcome: Protocol.Outcome)
      requires phase.Polling?
      modifies this, auth
      ensures (auth.View(), View(), outcome) == Protocol.QrAnswer(old(auth.View()), old(View()), r)
    {
      phase := Protocol.Idle;
      if r.TimedOut? {
        Finish();
        return Protocol.QrTimedOut;
      }
      if auth.generation != generation {
        Finish();
        return Protocol.Replaced;
      }
      if r.Failed? {
        outcome := PollFailure(r.error);
      } else if r.StillWaiting? {
        failures := 0;
        outcome := Protocol.Done;
      } else if r.Expired? {
        failures := 0;
        Finish();
        outcome := Protocol.Done;
      } else if r.CredentialIs? {
        failures := 0;
        var _ := auth.RetainPending(generation, r.credential);
        Finish();
        phase := Protocol.Verifying(r.credential);
        outcome := Protocol.Done;
      } else {
        outcome := Protocol.Ignored;
      }
    }

    /** The third network failure in a row ends the attempt; any other failure ends it at once. */
    method PollFailure(error: Protocol.ClientError) returns (outcome: Protocol.Outcome)
      requires phase.Idle? && auth.generation == generation
      modifies this, auth
      ensures (auth.View(), View(), outcome) ==
        Protocol.QrAnswer(old(auth.View()),
          Protocol.Qr(generation, old(finished), old(cancellable), Protocol.Polling, old(failures)),
              Protocol.Failed(error))
    {
      if error == Protocol.NetworkFailure {
        failures := failures + 1;
        if failures >= Protocol.NETWORK_FAILURE_LIMIT {
          Finish();
        }
      } else {
        Finish();
        if error == Protocol.CredentialRejected {
          var _ := auth.RejectCredential(generation);
        }
      }
      return Protocol.ClientFailure(error);
    }

    method Cancel() returns (cancelled: bool)
      modifies this, auth
      ensures (auth.View(), View(), cancelled) == Protocol.QrCancel(old(auth.View()), old(View()))
    {
      if !cancellable {
        return false;
      }
      cancellable := false;
      cancelled := auth.EndGeneration(generation);
    }

    method Drop()
      modifies this, auth
      ensures auth.View() == Protocol.QrDrop(old(auth.View()), old(View())) && !cancellable
    {
      cancellable := false;
      if !finished {
        var _ := auth.EndGeneration(generation);
      }
    }
  }
}
