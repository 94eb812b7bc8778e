/** Concrete runs after which the cached liked set is wrong and unmarked although no operation is in flight. */
module SessionDroppedWrite {
  import opened Basics
  import opened SessionSpec
  import opened SessionAgreement

  /** Such a drop: the server holds the track, the cache answers without it and asks for no refresh. */
  function DroppedWrite(): seq<Event> {
    [ImportCredential(1), BeginVerify(1), Respond(1, AccountIs(7)),
     BeginLiked(2, false), AcquireLiked(2), Respond(2, LikedAre({})),
     BeginLike(3, 5, true), ServerApplies(3), Abandon(3)]
  }

  lemma RunAppends(w: World, events: seq<Event>, e: Event)
    ensures Run(w, events + [e]) == Step(Run(w, events), e)
  {
    assert (events + [e])[..|events|] == events;
  }

  const SIGNED_IN: Session := Session(2, Some(Account(1, 7)), None, None, None, None, 2, false, None, None)
  const CACHED: Session := SIGNED_IN.(likedMembership := Some({}), revision := 3)

  function Plain(s: Session, ops: map<nat, Op>): World {
    Initial(map[]).(session := s, ops := ops)
  }

  lemma SigningIn(w: World)
    requires w == Initial(map[])
    ensures Step(Step(Step(w, ImportCredential(1)), BeginVerify(1)), Respond(1,
        AccountIs(7))) == Plain(SIGNED_IN, map[])
  {
    var s := Session(1, None, Some(1), None, None, None, 1, false, None, None);
    assert Step(w, ImportCredential(1)) == Plain(s, map[]);
    assert Step(Plain(s, map[]), BeginVerify(1)) == Plain(s, map[1 := Verify(1, 1)]);
  }

  lemma Caching(w: World)
    requires w == Plain(SIGNED_IN, map[])
    ensures Step(Step(Step(w, BeginLiked(2, false)), AcquireLiked(2)), Respond(2, LikedAre({})))
         == Plain(CACHED, map[]).(origins := Origins(None, Some(Account(1, 7)), None))
  {
    assert Step(w, BeginLiked(2, false)) == Plain(SIGNED_IN, map[2 := LikedWait(2, Account(1, 7), 2, false)]);
    var locked := Plain(SIGNED_IN, map[2 := LikedLoad(2, Account(1, 7))]).(likedLock := Some(2));
    assert Step(Step(w, BeginLiked(2, false)), AcquireLiked(2)) == locked;
  }

  lemma Dropping(w: World)
    requires w.session == CACHED && w.ops == map[] && w.server == map[]
    ensures var after := Step(Step(Step(w, BeginLike(3, 5, true)), ServerApplies(3)), Abandon(3));
      after.session == CACHED && after.ops == map[] && after.server == map[7 := {5}]
  {
    var began := w.(ops := map[3 := Like(2, Account(1, 7), 5, true, false)]);
    assert Step(w, BeginLike(3, 5, true)) == began;
    var wrote := w.(ops := map[3 := Like(2, Account(1, 7), 5, true, true)], server := map[7 := {5}]);
    assert Delta(ServerSet(began, 7), 5, true) == {5};
    assert Step(began, ServerApplies(3)) == wrote;
  }

  lemma RunThree(w: World, events: seq<Event>, a: Event, b: Event, c: Event)
    ensures Run(w, events + [a, b, c]) == Step(Step(Step(Run(w, events), a), b), c)
  {
    hide Step;
    RunAppends(w, events, a);
    RunAppends(w, events + [a], b);
    RunAppends(w, events + [a] + [b], c);
    assert events + [a, b, c] == events + [a] + [b] + [c];
  }

  lemma CachedAfterSix(w: World)
    requires w == Initial(map[])
    ensures Run(w, DroppedWrite()[..6]) == Plain(CACHED, map[]).(origins := Origins(None, Some(Account(1, 7)), None))
  {
    hide Step;
    var d := DroppedWrite();
    SigningIn(w);
    RunThree(w, [], d[0], d[1], d[2]);
    assert [] + [d[0], d[1], d[2]] == d[..3];
    Caching(Run(w, d[..3]));
    RunThree(w, d[..3], d[3], d[4], d[5]);
    assert d[..3] + [d[3], d[4], d[5]] == d[..6];
  }

  lemma DroppedWriteBreaksAgreement()
    ensures var w := Run(Initial(map[]), DroppedWrite());
      w.ops == map[] && !Agrees(w) && w.session.likedMembership == Some({}) && ServerSet(w, 7) == {5}
  {
    hide Step;
    var w, d := Initial(map[]), DroppedWrite();
    CachedAfterSix(w);
    Dropping(Run(w, d[..6]));
    RunThree(w, d[..6], d[6], d[7], d[8]);
    assert d[..6] + [d[6], d[7], d[8]] == d;
  }

  // ----- A write that failed for lack of network lands after the refresh

  /** The failed write marks the set, the reload clears the mark, and only then the server applies the write. */
  function LateWrite(): seq<Event> {
    DroppedWrite()[..6] + [BeginLike(3, 5, true), Respond(3, Failed(NetworkFailure)), BeginLiked(4, false)]
    + [AcquireLiked(4), Respond(4, LikedAre({})), SettleWrite(0, true)]
  }

  const ON_ITS_WAY: seq<Write> := [Write(7, 5, true)]

  lemma Failing(w: World)
    requires w == Plain(CACHED, map[]).(origins := Origins(None, Some(Account(1, 7)), None))
    ensures Step(Step(Step(w, BeginLike(3, 5, true)), Respond(3, Failed(NetworkFailure))), BeginLiked(4, false))
         == w.(session := CACHED.(needsRefresh := true), ops := map[4 := LikedWait(2, Account(1, 7), 3, false)],
               detached := ON_ITS_WAY)
  {
    var began := w.(ops := map[3 := Like(2, Account(1, 7), 5, true, false)]);
    assert Step(w, BeginLike(3, 5, true)) == began;
    var failed := w.(session := CACHED.(needsRefresh := true), detached := ON_ITS_WAY);
    assert began.ops - {3} == map[];
    assert Step(began, Respond(3, Failed(NetworkFailure))) == failed;
  }

  lemma Reloading(w: World)
    requires w.ops == map[4 := LikedWait(2, Account(1, 7), 3, false)] && w.likedLock.None?
    requires w.session == CACHED.(needsRefresh := true) && w.detached == ON_ITS_WAY && w.server == map[]
    ensures var after := Step(Step(Step(w, AcquireLiked(4)), Respond(4, LikedAre({}))), SettleWrite(0, true));
      after.session == CACHED.(revision := 4) && after.ops == map[] && after.server == map[7 := {5}]
  {
    var loading := w.(ops := map[4 := LikedLoad(2, Account(1, 7))], likedLock := Some(4));
    assert Step(w, AcquireLiked(4)) == loading;
    var loaded := Step(loading, Respond(4, LikedAre({})));
    assert loading.ops - {4} == map[];
    assert loaded.session == CACHED.(revision := 4) && loaded.ops == map[] && loaded.detached == ON_ITS_WAY;
    assert Delta(ServerSet(loaded, 7), 5, true) == {5};
  }

  lemma LateWriteBreaksAgreement()
    ensures var w := Run(Initial(map[]), LateWrite());
      w.ops == map[] && !Agrees(w) && w.session.likedMembership == Some({}) && ServerSet(w, 7) == {5}
  {
    hide Step;
    var w, d := Initial(map[]), LateWrite();
    assert d[..6] == DroppedWrite()[..6];
    CachedAfterSix(w);
    RunThree(w, d[..6], d[6], d[7], d[8]);
    assert d[..6] + [d[6], d[7], d[8]] == d[..9];
    Failing(Run(w, d[..6]));
    RunThree(w, d[..9], d[9], d[10], d[11]);
    assert d[..9] + [d[9], d[10], d[11]] == d;
    Reloading(Run(w, d[..9]));
  }
}
