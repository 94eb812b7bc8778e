/** The cache object: one deque of entries, updated in place by lookups and stores. */
module MediaCache {
  import opened Basics
  import opened MediaCacheSpec

  class MediaResolutionCache<K(==), S> {
    var entries: seq<Entry<K, S>>
    const clockEnd: nat

    constructor (clockEnd: nat)
      ensures entries == [] && this.clockEnd == clockEnd
    {
      entries := [];
      this.clockEnd := clockEnd;
    }

    /** Drops every entry of another generation and every expired one. */
    method RetainLive(generation: nat, now: nat)
      modifies this`entries
      ensures entries == Live(old(entries), generation, now)
    {
      var kept: seq<Entry<K, S>> := [];
      ghost var all := entries;
      for i := 0 to |entries|
        invariant entries == all
        invariant kept + Live(all[i..], generation, now) == Live(all, generation, now)
      {
        assert all[i..][1..] == all[i + 1..];
        if entries[i].generation == generation && entries[i].expires > now {
          kept := kept + [entries[i]];
        }
      }
      entries := kept;
    }

    method RetainOthers(generation: nat, key: K)
      modifies this`entries
      ensures entries == Without(old(entries), generation, key)
    {
      var kept: seq<Entry<K, S>> := [];
      ghost var all := entries;
      for i := 0 to |entries|
        invariant entries == all
        invariant kept + Without(all[i..], generation, key) == Without(all, generation, key)
      {
        assert all[i..][1..] == all[i + 1..];
        if entries[i].generation == generation && entries[i].key != key {
          kept := kept + [entries[i]];
        }
      }
      entries := kept;
    }

    method Get(key: K, generation: nat, now: nat) returns (hit: Option<Source<S>>)
      modifies this`entries
      ensures (entries, hit) == MediaCacheSpec.Get(old(entries), key, generation, now)
    {
      RetainLive(generation, now);
      var index := Find(entries, generation, key);
      if index == |entries| { return None; }
      var entry := entries[index];
      entries := entries[..index] + entries[index + 1..];
      var remaining := RemainingSeconds(entry.expires, now);
      if remaining > U32_MAX || remaining == 0 { return None; }
      hit := Some(Source(entry.source.media, remaining));
      entries := entries + [entry];
    }

    method Insert(source: Source<S>, key: K, generation: nat, requestStarted: nat)
      modifies this`entries
      ensures entries == MediaCacheSpec.Insert(old(entries), key, source, generation, requestStarted, clockEnd)
    {
      var expires := Expiry(source, requestStarted);
      if expires > clockEnd { return; }
      RetainOthers(generation, key);
      PopToRoom();
      entries := entries + [Entry(key, generation, source, expires)];
    }

    /** Pops from the front until one more entry fits. */
    method PopToRoom()
      modifies this`entries
      ensures entries == MakeRoom(old(entries))
    {
      ghost var all := entries;
      ghost var popped := 0;
      while |entries| >= CAPACITY
        invariant 0 <= popped <= |all| && entries == all[popped..]
        invariant if |all| >= CAPACITY then |entries| >= CAPACITY - 1 else popped == 0
        decreases |entries|
      {
        assert all[popped..][1..] == all[popped + 1..];
        entries := entries[1..];
        popped := popped + 1;
      }
    }
  }
}
