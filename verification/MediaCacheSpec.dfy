/**
  The media resolution cache as a value, and what a whole run of it guarantees:
  a hit is the latest source of its key, never over-valid, and recently used
  entries outlive at least fifteen other keys.
*/
module MediaCacheSpec {
  import opened Basics

  const CAPACITY: nat := 16
  const NANOS_PER_SECOND: nat := 1_000_000_000

  /** A resolved source: its media and the seconds it stays valid. */
  datatype Source<S> = Source(media: S, validForSeconds: nat)

  /** One entry; `key` is the track and the preferred quality together. */
  datatype Entry<K, S> = Entry(key: K, generation: nat, source: Source<S>, expires: nat)

  function Live<K, S>(entries: seq<Entry<K, S>>, generation: nat, now: nat): seq<Entry<K, S>> {
    if entries == [] then []
    else if entries[0].generation == generation && entries[0].expires > now then
      [entries[0]] + Live(entries[1..], generation, now)
    else Live(entries[1..], generation, now)
  }

  function Without<K(==), S>(entries: seq<Entry<K, S>>, generation: nat, key: K): seq<Entry<K, S>> {
    if entries == [] then []
    else if entries[0].generation == generation && entries[0].key != key then
      [entries[0]] + Without(entries[1..], generation, key)
    else Without(entries[1..], generation, key)
  }

  /** First position holding the key in the generation, or the length. */
  function Find<K(==), S>(entries: seq<Entry<K, S>>, generation: nat, key: K): (i: nat)
    ensures i <= |entries|
    ensures i < |entries| ==> entries[i].key == key && entries[i].generation == generation
    ensures forall k :: 0 <= k < i ==> !(entries[k].key == key && entries[k].generation == generation)
  {
    if entries == [] then 0
    else if entries[0].key == key && entries[0].generation == generation then 0
    else 1 + Find(entries[1..], generation, key)
  }

  function RemainingSeconds(expires: nat, now: nat): nat {
    if expires <= now then 0 else (expires - now) / NANOS_PER_SECOND
  }

  function Get<K(==), S>(entries: seq<Entry<K, S>>, key: K, generation: nat, now: nat)
    : (seq<Entry<K, S>>, Option<Source<S>>)
  {
    var live := Live(entries, generation, now);
    var i := Find(live, generation, key);
    if i == |live| then (live, None)
    else
      var rest := live[..i] + live[i + 1..];
      var remaining := RemainingSeconds(live[i].expires, now);
      if remaining > U32_MAX || remaining == 0 then (rest, None)
      else (rest + [live[i]], Some(Source(live[i].source.media, remaining)))
  }

  /** The newest CAPACITY - 1 entries, making room for one more. */
  function MakeRoom<K, S>(entries: seq<Entry<K, S>>): seq<Entry<K, S>> {
    if |entries| >= CAPACITY then entries[|entries| - (CAPACITY - 1)..] else entries
  }

  function Expiry<S>(source: Source<S>, requestStarted: nat): nat {
    requestStarted + source.validForSeconds * NANOS_PER_SECOND
  }

  /** `clockEnd` is the last representable instant; an expiry beyond it is not cached. */
  function Insert<K(==), S>(entries: seq<Entry<K, S>>, key: K, source: Source<S>, generation: nat,
                            requestStarted: nat, clockEnd: nat): seq<Entry<K, S>>
  {
    var expires := Expiry(source, requestStarted);
    if expires > clockEnd then entries
    else MakeRoom(Without(entries, generation, key)) + [Entry(key, generation, source, expires)]
  }

  // ----- Shape of the cache

  ghost predicate DistinctKeys<K, S>(entries: seq<Entry<K, S>>) {
    forall i, j :: 0 <= i < j < |entries| ==> entries[i].key != entries[j].key
  }

  ghost predicate OneGeneration<K, S>(entries: seq<Entry<K, S>>) {
    forall i, j :: 0 <= i < j < |entries| ==> entries[i].generation == entries[j].generation
  }

  ghost predicate WellShaped<K, S>(entries: seq<Entry<K, S>>) {
    |entries| <= CAPACITY && DistinctKeys(entries) && OneGeneration(entries)
  }

  /** `part` keeps some entries of `whole`, in order. */
  ghost predicate Kept<K, S>(part: seq<Entry<K, S>>, whole: seq<Entry<K, S>>) {
    if part == [] then true
    else whole != [] && ((part[0] == whole[0] && Kept(part[1..], whole[1..])) || Kept(part, whole[1..]))
  }

  lemma {:induction false} KeptFacts<K, S>(part: seq<Entry<K, S>>, whole: seq<Entry<K, S>>)
    requires Kept(part, whole)
    ensures |part| <= |whole|
    ensures forall e :: e in part ==> e in whole
    ensures DistinctKeys(whole) ==> DistinctKeys(part)
    decreases |whole|
  {
    if part != [] {
      assert whole == [whole[0]] + whole[1..] && part == [part[0]] + part[1..];
      if part[0] == whole[0] && Kept(part[1..], whole[1..]) {
        KeptFacts(part[1..], whole[1..]);
        TailKeepsDistinct(whole);
        if DistinctKeys(whole) {
          forall j | 0 < j < |part| ensures part[0].key != part[j].key {
            assert part[1..][j - 1] in whole[1..];
            var k :| 0 <= k < |whole[1..]| && whole[1..][k] == part[j];
            assert whole[k + 1] == part[j];
          }
          forall i, j | 0 < i < j < |part| ensures part[i].key != part[j].key {
            assert part[1..][i - 1].key != part[1..][j - 1].key;
          }
        }
      } else {
        KeptFacts(part, whole[1..]);
        TailKeepsDistinct(whole);
      }
    }
  }

  lemma TailKeepsDistinct<K, S>(whole: seq<Entry<K, S>>)
    requires whole != []
    ensures DistinctKeys(whole) ==> DistinctKeys(whole[1..])
  {
  }

  lemma {:induction false} LiveFacts<K, S>(entries: seq<Entry<K, S>>, generation: nat, now: nat)
    ensures Kept(Live(entries, generation, now), entries)
    ensures forall e :: e in Live(entries, generation, now) <==>
        e in entries && e.generation == generation && e.expires > now
  {
    if entries != [] { LiveFacts(entries[1..], generation, now); }
  }

  lemma {:induction false} WithoutFacts<K, S>(entries: seq<Entry<K, S>>, generation: nat, key: K)
    ensures Kept(Without(entries, generation, key), entries)
    ensures forall e :: e in Without(entries, generation, key) <==>
        e in entries && e.generation == generation && e.key != key
  {
    if entries != [] { WithoutFacts(entries[1..], generation, key); }
  }

  lemma MakeRoomFacts<K, S>(entries: seq<Entry<K, S>>)
    ensures |MakeRoom(entries)| < CAPACITY
    ensures forall e :: e in MakeRoom(entries) ==> e in entries
    ensures DistinctKeys(entries) ==> DistinctKeys(MakeRoom(entries))
  {
  }

  lemma GetKeepsShape<K, S>(entries: seq<Entry<K, S>>, key: K, generation: nat, now: nat)
    requires WellShaped(entries)
    ensures WellShaped(Get(entries, key, generation, now).0)
    ensures forall e :: e in Get(entries, key, generation, now).0 ==>
        e in entries && e.generation == generation && e.expires > now
  {
    LiveFacts(entries, generation, now);
    var live := Live(entries, generation, now);
    KeptFacts(live, entries);
    forall i | 0 <= i < |live| ensures live[i].generation == generation { assert live[i] in live; }
    var i := Find(live, generation, key);
    if i < |live| {
      MoveKeepsShape(live, i);
    }
    hide WellShaped, Live, Find, RemainingSeconds;
    assert WellShaped(live) by {
      FoundShape(live, generation, |entries|);
    }
  }

  lemma FoundShape<K, S>(live: seq<Entry<K, S>>, generation: nat, bound: nat)
    requires |live| <= bound <= CAPACITY && DistinctKeys(live)
    requires forall i :: 0 <= i < |live| ==> live[i].generation == generation
    ensures WellShaped(live)
  {
  }

  /** Taking an entry out, and putting it behind the others, keeps the shape and the entries. */
  lemma MoveKeepsShape<K, S>(live: seq<Entry<K, S>>, i: nat)
    requires i < |live| <= CAPACITY && DistinctKeys(live) && OneGeneration(live)
    ensures var rest := live[..i] + live[i + 1..];
      WellShaped(rest) && WellShaped(rest + [live[i]])
      && (forall e :: e in rest ==> e in live) && (forall e :: e in rest + [live[i]] ==> e in live)
  {
    var rest := live[..i] + live[i + 1..];
    assert forall k :: 0 <= k < |rest| ==> rest[k] == live[if k < i then k else k + 1];
  }

  lemma InsertKeepsShape<K, S>(entries: seq<Entry<K, S>>, key: K, source: Source<S>, generation: nat,
                               requestStarted: nat, clockEnd: nat)
    requires WellShaped(entries)
    ensures WellShaped(Insert(entries, key, source, generation, requestStarted, clockEnd))
  {
    WithoutFacts(entries, generation, key);
    var others := Without(entries, generation, key);
    KeptFacts(others, entries);
    MakeRoomFacts(others);
    var room := MakeRoom(others);
    forall i | 0 <= i < |room| ensures room[i].generation == generation && room[i].key != key {
      assert room[i] in room;
    }
  }

  // ----- Runs

  datatype Event<K, S> =
    | Lookup(key: K, generation: nat, now: nat)
    | Store(key: K, generation: nat, source: Source<S>, requestStarted: nat, now: nat)

  function Apply<K(==), S>(entries: seq<Entry<K, S>>, e: Event<K, S>, clockEnd: nat): seq<Entry<K, S>> {
    match e
    case Lookup(key, generation, now) => Get(entries, key, generation, now).0
    case Store(key, generation, source, started, now) => Insert(entries, key, source, generation, started, clockEnd)
  }

  /** The cache after all events, from an empty start. */
  function Cache<K(==), S>(events: seq<Event<K, S>>, clockEnd: nat): seq<Entry<K, S>> {
    if events == [] then []
    else Apply(Cache(events[..|events| - 1], clockEnd), events[|events| - 1], clockEnd)
  }

  /** By `now`: every event happened before it, and a source was stored after its request started. */
  ghost predicate HappenedBy<K, S>(events: seq<Event<K, S>>, now: nat) {
    forall i :: 0 <= i < |events| ==>
      events[i].now <= now && (events[i].Store? ==> events[i].requestStarted <= events[i].now)
  }

  /** Was this event a cacheable store of the key in the generation? */
  predicate StoresAs<K(==), S>(e: Event<K, S>, key: K, generation: nat, clockEnd: nat) {
    e.Store? && e.key == key && e.generation == generation && Expiry(e.source, e.requestStarted) <= clockEnd
  }

  /** Index of the last cacheable store of the key in the generation, or -1. */
  function LastStore<K(==), S>(events: seq<Event<K, S>>, key: K, generation: nat, clockEnd: nat): (i: int)
    ensures -1 <= i < |events|
    ensures i >= 0 ==> StoresAs(events[i], key, generation, clockEnd)
    ensures forall j :: i < j < |events| ==> !StoresAs(events[j], key, generation, clockEnd)
  {
    if events == [] then -1
    else if StoresAs(events[|events| - 1], key, generation, clockEnd) then |events| - 1
    else LastStore(events[..|events| - 1], key, generation, clockEnd)
  }

  /** The entry is exactly what the last store of its key and generation left. */
  ghost predicate FromLastStore<K, S>(events: seq<Event<K, S>>, e: Entry<K, S>, clockEnd: nat) {
    var i := LastStore(events, e.key, e.generation, clockEnd);
    i >= 0 && e.source == events[i].source && e.expires == Expiry(events[i].source, events[i].requestStarted)
  }

  lemma InsertedEntries<K, S>(entries: seq<Entry<K, S>>, key: K, source: Source<S>, generation: nat,
      started: nat, clockEnd: nat)
    ensures var expires := Expiry(source, started);
            forall e :: e in Insert(entries, key, source, generation, started, clockEnd) ==>
                          if expires <= clockEnd && e.key == key then e == Entry(key, generation, source, expires)
                          else e in entries
  {
    WithoutFacts(entries, generation, key);
    var others := Without(entries, generation, key);
    MakeRoomFacts(others);
    var inserted := Insert(entries, key, source, generation, started, clockEnd);
    if Expiry(source, started) <= clockEnd {
      forall e | e in inserted
        ensures if e.key == key then e == Entry(key, generation, source, Expiry(source, started)) else e in entries
      {
        var k :| 0 <= k < |inserted| && inserted[k] == e;
        if k < |inserted| - 1 {
          assert MakeRoom(others)[k] in MakeRoom(others);
          assert e in others;
        }
      }
    }
  }

  lemma {:induction false} CacheInvariant<K, S>(events: seq<Event<K, S>>, clockEnd: nat)
    ensures WellShaped(Cache(events, clockEnd))
    ensures forall e :: e in Cache(events, clockEnd) ==> FromLastStore(events, e, clockEnd)
  {
    if events != [] {
      var before, last := events[..|events| - 1], events[|events| - 1];
      CacheInvariant(before, clockEnd);
      var entries := Cache(before, clockEnd);
      match last {
        case Lookup(key, generation, now) =>
          GetKeepsShape(entries, key, generation, now);
        case Store(key, generation, source, started, now) =>
          InsertKeepsShape(entries, key, source, generation, started, clockEnd);
          InsertedEntries(entries, key, source, generation, started, clockEnd);
      }
      forall e | e in Cache(events, clockEnd) ensures FromLastStore(events, e, clockEnd) {
        if e in entries { assert FromLastStore(before, e, clockEnd); }
      }
    }
  }

  /**
    A hit hands out the last source stored for that key and generation, with at
    least one second of validity and never more than truly remains.
  */
  lemma HitIsLatestAndNotOverValid<K, S>(events: seq<Event<K, S>>, key: K, generation: nat, now: nat, clockEnd: nat)
    requires HappenedBy(events, now)
    requires Get(Cache(events, clockEnd), key, generation, now).1.Some?
    ensures var hit := Get(Cache(events, clockEnd), key, generation, now).1.value;
            var i := LastStore(events, key, generation, clockEnd);
            && i >= 0
            && hit.media == events[i].source.media
            && 1 <= hit.validForSeconds <= events[i].source.validForSeconds
            && now + hit.validForSeconds * NANOS_PER_SECOND <= Expiry(events[i].source, events[i].requestStarted)
  {
    CacheInvariant(events, clockEnd);
    var live := Live(Cache(events, clockEnd), generation, now);
    LiveFacts(Cache(events, clockEnd), generation, now);
    var found := Find(live, generation, key);
    var e := live[found];
    assert e in live;
    assert FromLastStore(events, e, clockEnd);
    var i := LastStore(events, key, generation, clockEnd);
    RemainingIsTrue(e.expires, now, events[i].source.validForSeconds);
  }

  lemma RemainingIsTrue(expires: nat, now: nat, valid: nat)
    requires now < expires <= now + valid * NANOS_PER_SECOND
    ensures now + RemainingSeconds(expires, now) * NANOS_PER_SECOND <= expires
    ensures RemainingSeconds(expires, now) <= valid
  {
  }

  // ----- Survival of a recently used entry

  /** The other keys stored or hit by the events, starting from the given cache. */
  ghost function UsedKeys<K, S>(entries: seq<Entry<K, S>>, events: seq<Event<K, S>>, clockEnd: nat): set<K>
    decreases |events|
  {
    if events == [] then {}
    else
      var e := events[0];
      var used := e.Store? || Get(entries, e.key, e.generation, e.now).1.Some?;
      (if used then {e.key} else {}) + UsedKeys(Apply(entries, e, clockEnd), events[1..], clockEnd)
  }

  function ApplyAll<K(==), S>(entries: seq<Entry<K, S>>, events: seq<Event<K, S>>, clockEnd: nat): seq<Entry<K, S>>
    decreases |events|
  {
    if events == [] then entries else ApplyAll(Apply(entries, events[0], clockEnd), events[1..], clockEnd)
  }

  /** The entry is present and everything behind it was used since it was. */
  ghost predicate Behind<K, S>(entries: seq<Entry<K, S>>, e: Entry<K, S>, used: set<K>) {
    exists i :: BehindAt(entries, e, used, i)
  }

  ghost predicate BehindAt<K, S>(entries: seq<Entry<K, S>>, e: Entry<K, S>, used: set<K>, i: int) {
    && 0 <= i < |entries| && entries[i] == e
    && forall j :: i < j < |entries| ==> entries[j].key in used
  }

  lemma {:induction false} DistinctKeysCount<K, S>(entries: seq<Entry<K, S>>, used: set<K>)
    requires DistinctKeys(entries) && forall j :: 0 <= j < |entries| ==> entries[j].key in used
    ensures |entries| <= |used|
  {
    if entries != [] {
      var key := entries[0].key;
      DistinctKeysCount(entries[1..], used - {key});
      assert |used - {key}| == |used| - 1;
    }
  }

  lemma {:induction false} KeptBehind<K, S>(part: seq<Entry<K, S>>, whole: seq<Entry<K, S>>, e: Entry<K, S>,
      used: set<K>, i: nat)
    requires Kept(part, whole) && e in part && DistinctKeys(whole) && BehindAt(whole, e, used, i)
    ensures Behind(part, e, used)
    decreases |whole|
  {
    if part[0] == whole[0] && Kept(part[1..], whole[1..]) {
      KeptFacts(part[1..], whole[1..]);
      if i == 0 {
        forall j | 0 < j < |part| ensures part[j].key in used {
          assert part[1..][j - 1] in whole[1..];
          var k :| 0 <= k < |whole[1..]| && whole[1..][k] == part[j];
          assert whole[k + 1].key in used;
        }
        assert BehindAt(part, e, used, 0);
      } else {
        assert whole[0].key != whole[i].key;
        assert e in part[1..];
        assert BehindAt(whole[1..], e, used, i - 1);
        KeptBehind(part[1..], whole[1..], e, used, i - 1);
        var k :| BehindAt(part[1..], e, used, k);
        assert BehindAt(part, e, used, k + 1);
      }
    } else {
      KeptFacts(part, whole[1..]);
      assert e in whole[1..];
      var k :| 0 <= k < |whole[1..]| && whole[1..][k] == e;
      assert whole[k + 1] == e;
      assert i == k + 1;
      assert BehindAt(whole[1..], e, used, k);
      TailKeepsDistinct(whole);
      KeptBehind(part, whole[1..], e, used, k);
    }
  }

  lemma BehindAfterMove<K, S>(entries: seq<Entry<K, S>>, e: Entry<K, S>, used: set<K>, moved: nat)
    requires Behind(entries, e, used) && moved < |entries| && DistinctKeys(entries) && entries[moved].key != e.key
    ensures Behind(entries[..moved] + entries[moved + 1..], e, used)
    ensures Behind(entries[..moved] + entries[moved + 1..] + [entries[moved]], e, used + {entries[moved].key})
  {
    var i :| BehindAt(entries, e, used, i);
    var rest := entries[..moved] + entries[moved + 1..];
    var at := if i < moved then i else i - 1;
    assert BehindAt(rest, e, used, at);
    assert BehindAt(rest + [entries[moved]], e, used + {entries[moved].key}, at);
  }

  lemma LookupKeepsBehind<K, S>(entries: seq<Entry<K, S>>, e: Entry<K, S>, used: set<K>, key: K, now: nat)
    requires WellShaped(entries) && Behind(entries, e, used)
    requires key != e.key && now < e.expires
    ensures var (next, hit) := Get(entries, key, e.generation, now);
            Behind(next, e, if hit.Some? then used + {key} else used)
  {
    var live := Live(entries, e.generation, now);
    LiveFacts(entries, e.generation, now);
    KeptFacts(live, entries);
    var i :| BehindAt(entries, e, used, i);
    KeptBehind(live, entries, e, used, i);
    var found := Find(live, e.generation, key);
    if found < |live| { BehindAfterMove(live, e, used, found); }
  }

  lemma StoreKeepsBehind<K, S>(entries: seq<Entry<K, S>>, e: Entry<K, S>, used: set<K>, key: K, source: Source<S>,
                               started: nat, clockEnd: nat)
    requires WellShaped(entries) && Behind(entries, e, used)
    requires key != e.key && |used + {key}| < CAPACITY
    ensures Behind(Insert(entries, key, source, e.generation, started, clockEnd), e, used + {key})
  {
    if Expiry(source, started) <= clockEnd {
      var others := Without(entries, e.generation, key);
      WithoutFacts(entries, e.generation, key);
      KeptFacts(others, entries);
      var i :| BehindAt(entries, e, used, i);
      KeptBehind(others, entries, e, used, i);
      var k :| BehindAt(others, e, used, k);
      var behind := others[k + 1..];
      forall j | 0 <= j < |behind| ensures behind[j].key in (used + {key}) - {key} {
        assert behind[j] == others[k + 1 + j] && others[k + 1 + j] in others;
      }
      DistinctKeysCount(behind, (used + {key}) - {key});
      var room := MakeRoom(others);
      var cut := |others| - |room|;
      assert BehindAt(room, e, used, k - cut);
      var entry := Entry(key, e.generation, source, Expiry(source, started));
      assert BehindAt(room + [entry], e, used + {key}, k - cut);
    } else {
      var i :| BehindAt(entries, e, used, i);
      assert BehindAt(entries, e, used + {key}, i);
    }
  }

  lemma {:induction false} BehindSurvives<K, S>(entries: seq<Entry<K, S>>, e: Entry<K, S>, used: set<K>,
                                                events: seq<Event<K, S>>, clockEnd: nat)
    requires WellShaped(entries) && Behind(entries, e, used)
    requires forall i :: 0 <= i < |events| ==>
                           events[i].generation == e.generation && events[i].key != e.key &&
                           (events[i].Lookup? ==> events[i].now < e.expires)
    requires |used + UsedKeys(entries, events, clockEnd)| < CAPACITY
    ensures WellShaped(ApplyAll(entries, events, clockEnd))
    ensures Behind(ApplyAll(entries, events, clockEnd), e, used + UsedKeys(entries, events, clockEnd))
    decreases |events|
  {
    if events == [] {
      assert used + {} == used;
    } else {
      var first := events[0];
      var next := Apply(entries, first, clockEnd);
      var later := UsedKeys(next, events[1..], clockEnd);
      var all := used + UsedKeys(entries, events, clockEnd);
      var used' := if first.Store? || Get(entries, first.key, first.generation, first.now).1.Some?
        then used + {first.key} else used;
      assert used' + later == all;
      SubsetSmaller(used', all);
      match first {
        case Lookup(key, generation, now) =>
          GetKeepsShape(entries, key, generation, now);
          LookupKeepsBehind(entries, e, used, key, now);
        case Store(key, generation, source, started, now) =>
          InsertKeepsShape(entries, key, source, generation, started, clockEnd);
          StoreKeepsBehind(entries, e, used, key, source, started, clockEnd);
      }
      BehindSurvives(next, e, used', events[1..], clockEnd);
    }
  }

  lemma {:induction false} SubsetSmaller<K>(a: set<K>, b: set<K>)
    requires a <= b
    ensures |a| <= |b|
  {
    assert b == a + (b - a);
  }

  /**
    An entry just used (last in the deque) is still served, with at least one
    second left, as long as fewer than sixteen other keys were stored or hit
    since, all in its generation.
  */
  lemma RecentlyUsedSurvives<K, S>(entries: seq<Entry<K, S>>, events: seq<Event<K, S>>, now: nat, clockEnd: nat)
    requires WellShaped(entries) && entries != []
    requires var e := entries[|entries| - 1];
             && (forall i :: 0 <= i < |events| ==>
                               events[i].generation == e.generation && events[i].key != e.key &&
                               (events[i].Lookup? ==> events[i].now < e.expires))
             && 1 <= RemainingSeconds(e.expires, now) <= U32_MAX
    requires |UsedKeys(entries, events, clockEnd)| < CAPACITY
    ensures var e := entries[|entries| - 1];
            Get(ApplyAll(entries, events, clockEnd), e.key, e.generation, now).1
            == Some(Source(e.source.media, RemainingSeconds(e.expires, now)))
  {
    hide Kept, ApplyAll, UsedKeys, Live;
    var e := entries[|entries| - 1];
    assert BehindAt(entries, e, {}, |entries| - 1);
    assert {} + UsedKeys(entries, events, clockEnd) == UsedKeys(entries, events, clockEnd);
    BehindSurvives(entries, e, {}, events, clockEnd);
    var final := ApplyAll(entries, events, clockEnd);
    var i :| BehindAt(final, e, UsedKeys(entries, events, clockEnd), i);
    assert e in final;
    LiveFacts(final, e.generation, now);
    var live := Live(final, e.generation, now);
    KeptFacts(live, final);
    assert e in live;
    var found := Find(live, e.generation, e.key);
    var k :| 0 <= k < |live| && live[k] == e;
    assert found <= k;
    assert live[found].key == live[k].key;
  }

  /** Storing a cacheable source, or hitting one, puts its entry last. */
  lemma UsePutsLast<K, S>(entries: seq<Entry<K, S>>, e: Event<K, S>, clockEnd: nat)
    requires if e.Store? then Expiry(e.source, e.requestStarted) <= clockEnd
             else Get(entries, e.key, e.generation, e.now).1.Some?
    ensures var next := Apply(entries, e, clockEnd);
            next != [] && next[|next| - 1].key == e.key && next[|next| - 1].generation == e.generation
  {
  }
}
