/**
  What the media cache serves and when: how long a stored source is handed out and for how
  many seconds, and the three ways in which it is forgotten.
*/
module MediaCacheTheorems {
  import opened Basics
  import opened MediaCacheSpec

  /** When a source stops being valid: so many seconds after the request that fetched it began. */
  function Ends<S>(source: Source<S>, requestStarted: nat): nat {
    requestStarted + source.validForSeconds * 1_000_000_000
  }

  lemma EndsIsExpiry<S>(source: Source<S>, requestStarted: nat)
    ensures Ends(source, requestStarted) == Expiry(source, requestStarted)
  {
  }

  /** Whole seconds left. */
  predicate SecondsLeft(end: nat, now: nat, seconds: nat) {
    now + seconds * 1_000_000_000 <= end < now + (seconds + 1) * 1_000_000_000
  }

  lemma SecondsLeftIff(end: nat, now: nat, seconds: nat)
    requires now <= end
    ensures SecondsLeft(end, now, seconds) <==> RemainingSeconds(end, now) == seconds
  {
  }

  /** Later events in one generation that store or look up other keys only, before the entry expires. */
  ghost predicate Elsewhere<K, S>(events: seq<Event<K, S>>, key: K, generation: nat, end: nat) {
    forall i :: 0 <= i < |events| ==>
      events[i].generation == generation && events[i].key != key && (events[i].Lookup? ==> events[i].now < end)
  }

  /**
    After any run: a source that is stored is handed out, with the whole seconds it still has, at any time it has
    between one second and 2^32 of them left, as long as fewer than sixteen other keys were used since.
  */
  lemma StoredIsServed<K, S>(before: seq<Event<K, S>>, key: K, generation: nat, source: Source<S>, started: nat,
                             stored: nat, later: seq<Event<K, S>>, now: nat, seconds: nat, clockEnd: nat)
    requires Ends(source, started) <= clockEnd && Elsewhere(later, key, generation, Ends(source, started))
    requires SecondsLeft(Ends(source, started), now, seconds) && 1 <= seconds <= 4_294_967_295
    requires var next := Apply(Cache(before, clockEnd), Store(key, generation, source, started, stored), clockEnd);
      |UsedKeys(next, later, clockEnd)| < 16
    ensures var next := Apply(Cache(before, clockEnd), Store(key, generation, source, started, stored), clockEnd);
      Get(ApplyAll(next, later, clockEnd), key, generation, now).1 == Some(Source(source.media, seconds))
  {
    hide ApplyAll, UsedKeys, Live, Find, WellShaped, Cache;
    EndsIsExpiry(source, started);
    SecondsLeftIff(Ends(source, started), now, seconds);
    var entries := Cache(before, clockEnd);
    CacheInvariant(before, clockEnd);
    InsertKeepsShape(entries, key, source, generation, started, clockEnd);
    var next := Apply(entries, Store(key, generation, source, started, stored), clockEnd);
    assert next[|next| - 1] == Entry(key, generation, source, Expiry(source, started));
    hide Insert, Get;
    RecentlyUsedSurvives(next, later, now, clockEnd);
  }

  // ----- Forgetting

  /** In any reachable state a source with less than a second, or too many seconds for 32 bits, is not handed out. */
  lemma LateIsNotServed<K, S>(events: seq<Event<K, S>>, key: K, generation: nat, now: nat, clockEnd: nat)
    ensures var i := LastStore(events, key, generation, clockEnd);
      i < 0 || Ends(events[i].source, events[i].requestStarted) < now + 1_000_000_000
      || Ends(events[i].source, events[i].requestStarted) >= now + 4_294_967_296 * 1_000_000_000 ==>
        Get(Cache(events, clockEnd), key, generation, now).1 == None
  {
    CacheInvariant(events, clockEnd);
    var entries := Cache(events, clockEnd);
    var live := Live(entries, generation, now);
    LiveFacts(entries, generation, now);
    var found := Find(live, generation, key);
    if found < |live| {
      assert live[found] in live;
      assert FromLastStore(events, live[found], clockEnd);
      var i := LastStore(events, key, generation, clockEnd);
      EndsIsExpiry(events[i].source, events[i].requestStarted);
      RemainingBounds(live[found].expires, now);
    }
  }

  lemma RemainingBounds(end: nat, now: nat)
    ensures end < now + 1_000_000_000 ==> RemainingSeconds(end, now) == 0
    ensures end >= now + 4_294_967_296 * 1_000_000_000 ==> RemainingSeconds(end, now) > U32_MAX
  {
  }

  /** A store or lookup in one generation forgets every other: nothing stored before is found in any other again. */
  lemma OtherGenerationsForgotten<K, S>(entries: seq<Entry<K, S>>, e: Event<K, S>, clockEnd: nat, other: nat, key: K,
                                        now: nat)
    requires other != e.generation && (e.Store? ==> Ends(e.source, e.requestStarted) <= clockEnd)
    ensures Get(Apply(entries, e, clockEnd), key, other, now).1 == None
  {
    var next := Apply(entries, e, clockEnd);
    match e {
      case Lookup(k, generation, at) =>
        LiveFacts(entries, generation, at);
        var live := Live(entries, generation, at);
        var i := Find(live, generation, k);
        assert forall j :: 0 <= j < |next| ==> next[j] in live;
      case Store(k, generation, source, started, at) =>
        EndsIsExpiry(source, started);
        WithoutFacts(entries, generation, k);
        MakeRoomFacts(Without(entries, generation, k));
        var room := MakeRoom(Without(entries, generation, k));
        assert forall j :: 0 <= j < |room| ==> room[j] in Without(entries, generation, k);
    }
    assert forall j :: 0 <= j < |next| ==> next[j].generation == e.generation;
    NoneLive(next, e.generation, other, now);
  }

  lemma {:induction false} NoneLive<K, S>(entries: seq<Entry<K, S>>, generation: nat, other: nat, now: nat)
    requires other != generation && forall j :: 0 <= j < |entries| ==> entries[j].generation == generation
    ensures Live(entries, other, now) == []
  {
    if entries != [] {
      NoneLive(entries[1..], generation, other, now);
    }
  }

  /** An expiry the clock cannot hold is not cached at all, and leaves what is there. */
  lemma UnboundedIsNotStored<K, S>(entries: seq<Entry<K, S>>, key: K, generation: nat, source: Source<S>, started: nat,
                                   stored: nat, clockEnd: nat)
    ensures Ends(source, started) > clockEnd ==>
      Apply(entries, Store(key, generation, source, started, stored), clockEnd) == entries
  {
    EndsIsExpiry(source, started);
  }

  /** The last entries hold these keys, in this order, in one generation. */
  ghost predicate TailKeys<K, S>(entries: seq<Entry<K, S>>, keys: seq<K>, generation: nat) {
    keys == []
    || (entries != []
        && var n, m := |entries| - 1, |keys| - 1;
        entries[n].key == keys[m] && entries[n].generation == generation && TailKeys(entries[..n], keys[..m],
            generation))
  }

  lemma {:induction false} TailKeysAt<K, S>(entries: seq<Entry<K, S>>, keys: seq<K>, generation: nat)
    requires TailKeys(entries, keys, generation)
    ensures |keys| <= |entries|
    ensures |keys| == |entries| ==> forall i :: 0 <= i < |keys| ==> entries[i].key == keys[i]
  {
    if keys != [] {
      TailKeysAt(entries[..|entries| - 1], keys[..|keys| - 1], generation);
    }
  }

  lemma {:induction false} WithoutConcat<K, S>(a: seq<Entry<K, S>>, b: seq<Entry<K, S>>, generation: nat, key: K)
    ensures Without(a + b, generation, key) == Without(a, generation, key) + Without(b, generation, key)
  {
    if a == [] {
      assert a + b == b;
    } else {
      WithoutConcat(a[1..], b, generation, key);
      assert (a + b)[1..] == a[1..] + b;
    }
  }

  lemma WithoutLast<K, S>(entries: seq<Entry<K, S>>, generation: nat, key: K)
    requires entries != [] && entries[|entries| - 1].generation == generation && entries[|entries| - 1].key != key
    ensures var n := |entries| - 1;
      Without(entries, generation, key) == Without(entries[..n], generation, key) + [entries[n]]
  {
    var n := |entries| - 1;
    assert entries == entries[..n] + [entries[n]];
    WithoutConcat(entries[..n], [entries[n]], generation, key);
  }

  lemma OneMoreKey<K, S>(entries: seq<Entry<K, S>>, keys: seq<K>, generation: nat, e: Entry<K, S>)
    requires TailKeys(entries, keys, generation) && e.generation == generation
    ensures TailKeys(entries + [e], keys + [e.key], generation)
  {
    assert (entries + [e])[..|entries|] == entries && (keys + [e.key])[..|keys|] == keys;
  }

  lemma {:induction false} TailStays<K, S>(entries: seq<Entry<K, S>>, keys: seq<K>, generation: nat, key: K)
    requires TailKeys(entries, keys, generation) && key !in keys
    ensures TailKeys(Without(entries, generation, key), keys, generation)
  {
    hide Without;
    if keys != [] {
      var n, m := |entries| - 1, |keys| - 1;
      TailStays(entries[..n], keys[..m], generation, key);
      assert keys[m] in keys && keys == keys[..m] + [keys[m]];
      WithoutLast(entries, generation, key);
      OneMoreKey(Without(entries[..n], generation, key), keys[..m], generation, entries[n]);
    }
  }

  lemma {:induction false} TailOfRest<K, S>(entries: seq<Entry<K, S>>, keys: seq<K>, generation: nat, cut: nat)
    requires TailKeys(entries, keys, generation) && cut + |keys| <= |entries|
    ensures TailKeys(entries[cut..], keys, generation)
  {
    if keys != [] {
      var n := |entries| - 1;
      TailOfRest(entries[..n], keys[..|keys| - 1], generation, cut);
      assert entries[cut..][..n - cut] == entries[..n][cut..];
    }
  }

  lemma TailGrows<K, S>(entries: seq<Entry<K, S>>, keys: seq<K>, generation: nat, e: Entry<K, S>)
    requires TailKeys(entries, keys, generation) && |keys| < 16 && e.generation == generation
    ensures TailKeys(MakeRoom(entries) + [e], keys + [e.key], generation)
  {
    hide TailKeys;
    TailKeysAt(entries, keys, generation);
    if |entries| >= 16 {
      TailOfRest(entries, keys, generation, |entries| - 15);
    }
    OneMoreKey(MakeRoom(entries), keys, generation, e);
  }

  lemma StoreExtendsTail<K, S>(entries: seq<Entry<K, S>>, keys: seq<K>, generation: nat, key: K, source: Source<S>,
                               started: nat, clockEnd: nat)
    requires TailKeys(entries, keys, generation) && key !in keys && |keys| < 16
    requires Ends(source, started) <= clockEnd
    ensures TailKeys(Insert(entries, key, source, generation, started, clockEnd), keys + [key], generation)
  {
    hide TailKeys, Without, MakeRoom;
    EndsIsExpiry(source, started);
    TailStays(entries, keys, generation, key);
    var entry := Entry(key, generation, source, Expiry(source, started));
    TailGrows(Without(entries, generation, key), keys, generation, entry);
  }

  /** Cacheable stores in one generation, of these keys. */
  ghost predicate StoresOf<K, S>(events: seq<Event<K, S>>, keys: seq<K>, generation: nat, clockEnd: nat) {
    |events| == |keys|
    && forall i :: 0 <= i < |events| ==>
        events[i].Store? && events[i].key == keys[i] && events[i].generation == generation
        && Ends(events[i].source, events[i].requestStarted) <= clockEnd
  }

  ghost predicate Distinct<K>(keys: seq<K>) {
    forall i, j :: 0 <= i < j < |keys| ==> keys[i] != keys[j]
  }

  lemma {:induction false} StoresAreLast<K, S>(entries: seq<Entry<K, S>>, done: seq<K>, events: seq<Event<K, S>>,
                                               keys: seq<K>, generation: nat, clockEnd: nat)
    requires TailKeys(entries, done, generation) && StoresOf(events, keys, generation, clockEnd)
    requires Distinct(done + keys) && |done + keys| <= 16
    ensures TailKeys(ApplyAll(entries, events, clockEnd), done + keys, generation)
    decreases |events|
  {
    hide TailKeys, Insert, Get;
    if events == [] {
      assert done + keys == done;
    } else {
      var e := events[0];
      assert (done + keys)[|done|] == keys[0];
      assert forall i :: 0 <= i < |done| ==> (done + keys)[i] == done[i];
      StoreExtendsTail(entries, done, generation, keys[0], e.source, e.requestStarted, clockEnd);
      assert done + [keys[0]] + keys[1..] == done + keys;
      StoresAreLast(Apply(entries, e, clockEnd), done + [keys[0]], events[1..], keys[1..], generation, clockEnd);
    }
  }

  /** Sixteen stores of other keys push an entry out, whatever was in the cache: exactly these sixteen are left. */
  lemma SixteenStoresEvict<K, S>(before: seq<Event<K, S>>, events: seq<Event<K, S>>, keys: seq<K>, generation: nat,
                                 clockEnd: nat, key: K, now: nat)
    requires StoresOf(events, keys, generation, clockEnd) && Distinct(keys) && |keys| == 16 && key !in keys
    ensures var final := ApplyAll(Cache(before, clockEnd), events, clockEnd);
      |final| == 16 && (forall i :: 0 <= i < 16 ==> final[i].key == keys[i])
      && Get(final, key, generation, now).1 == None
  {
    CacheInvariant(before, clockEnd);
    assert [] + keys == keys;
    StoresAreLast(Cache(before, clockEnd), [], events, keys, generation, clockEnd);
    StaysBounded(Cache(before, clockEnd), events, clockEnd);
    hide ApplyAll, Cache;
    OnlyThese(ApplyAll(Cache(before, clockEnd), events, clockEnd), keys, generation, key, now);
  }

  lemma OnlyThese<K, S>(final: seq<Entry<K, S>>, keys: seq<K>, generation: nat, key: K, now: nat)
    requires WellShaped(final) && TailKeys(final, keys, generation) && |keys| == 16 && key !in keys
    ensures |final| == 16 && (forall i :: 0 <= i < 16 ==> final[i].key == keys[i])
    ensures Get(final, key, generation, now).1 == None
  {
    TailKeysAt(final, keys, generation);
    assert forall i :: 0 <= i < 16 ==> keys[i] in keys;
    KeyIsAbsent(final, key, generation, now);
  }

  lemma KeyIsAbsent<K, S>(entries: seq<Entry<K, S>>, key: K, generation: nat, now: nat)
    requires forall i :: 0 <= i < |entries| ==> entries[i].key != key
    ensures Get(entries, key, generation, now).1 == None
  {
    LiveFacts(entries, generation, now);
    var live := Live(entries, generation, now);
    assert forall i :: 0 <= i < |live| ==> live[i] in live;
    assert Find(live, generation, key) == |live|;
  }

  lemma {:induction false} StaysBounded<K, S>(entries: seq<Entry<K, S>>, events: seq<Event<K, S>>, clockEnd: nat)
    requires WellShaped(entries)
    ensures WellShaped(ApplyAll(entries, events, clockEnd))
    decreases |events|
  {
    hide WellShaped;
    if events != [] {
      var next := Apply(entries, events[0], clockEnd);
      match events[0] {
        case Lookup(key, generation, now) => GetKeepsShape(entries, key, generation, now);
        case Store(key, generation, source, started, now) =>
          InsertKeepsShape(entries, key, source, generation, started, clockEnd);
      }
      StaysBounded(next, events[1..], clockEnd);
    }
  }
}
