// One shard's keyspace (internal/keyspace): stored entries and the index of the keys that
// may carry a deadline. Clock readings are parameters.
module Keyspaces {
  import opened ByteStrings
  import opened Options
  import opened Commands

  // Sweeping any set of keys that have expired.
  ghost predicate Sweep(before: Keyspace, after: Keyspace, gone: set<Bytes>, now: Time) {
    && gone <= before.Keys && after == before - gone
    && forall k :: k in gone ==> before[k].Expired(now)
  }

  ghost function Dead(ks: Keyspace, now: Time): (r: set<Bytes>) {
    set k | k in ks && ks[k].Expired(now)
  }

  class Shard {
    var entries: Keyspace
    var withTTL: set<Bytes>

    // Every key with a deadline is indexed, and every indexed key is stored.
    ghost predicate Valid()
      reads this
    {
      && withTTL <= entries.Keys
      && forall k :: k in entries && entries[k].HasExpiry() ==> k in withTTL
    }

    constructor ()
      ensures Valid() && entries == map[]
    {
      entries, withTTL := map[], {};
    }

    function Peek(key: Bytes, now: Time): (e: Option<Entry>)
      reads this
    {
      Lookup(entries, key, now)
    }

    method Set(key: Bytes, v: Value)
      requires Valid()
      modifies this
      ensures Valid() && entries == old(entries)[key := Entry(v, ZERO_TIME)]
    {
      entries := entries[key := Entry(v, ZERO_TIME)];
      withTTL := withTTL - {key};
    }

    method SetEntry(key: Bytes, e: Entry)
      requires Valid()
      modifies this
      ensures Valid() && entries == old(entries)[key := e]
    {
      entries := entries[key := e];
      if e.HasExpiry() {
        withTTL := withTTL + {key};
      } else {
        withTTL := withTTL - {key};
      }
    }

    // A handler changes a stored collection through its reference; the index is not told.
    method Mutate(key: Bytes, v: Value)
      requires Valid() && key in entries
      modifies this
      ensures Valid() && entries == old(entries)[key := old(entries)[key].(value := v)]
    {
      entries := entries[key := entries[key].(value := v)];
    }

    method SetExpire(key: Bytes, at: Time, now: Time) returns (ok: bool)
      requires Valid()
      modifies this
      ensures Valid()
      ensures ok == Lookup(old(entries), key, now).Some?
      ensures entries == if ok then old(entries)[key := old(entries)[key].(expireAt := at)] else old(entries)
    {
      var e := Peek(key, now);
      if e.None? {
        return false;
      }
      entries := entries[key := e.value.(expireAt := at)];
      withTTL := withTTL + {key};
      return true;
    }

    method Persist(key: Bytes, now: Time) returns (ok: bool)
      requires Valid()
      modifies this
      ensures Valid()
      ensures ok == (Lookup(old(entries), key, now).Some? && old(entries)[key].HasExpiry())
      ensures entries == if ok then old(entries)[key := old(entries)[key].(expireAt := ZERO_TIME)] else old(entries)
    {
      var e := Peek(key, now);
      if e.None? || !e.value.HasExpiry() {
        return false;
      }
      entries := entries[key := e.value.(expireAt := ZERO_TIME)];
      withTTL := withTTL - {key};
      return true;
    }

    // Remove a key; an expired entry goes too but counts as absent.
    method Take(key: Bytes, now: Time) returns (e: Option<Entry>)
      requires Valid()
      modifies this
      ensures Valid() && entries == old(entries) - {key}
      ensures e == Lookup(old(entries), key, now)
    {
      e := Peek(key, now);
      if key in entries {
        entries := entries - {key};
        withTTL := withTTL - {key};
      }
    }

    method Flush()
      modifies this
      ensures Valid() && entries == map[]
    {
      entries, withTTL := map[], {};
    }

    // One key of the index: dropped from it when stale, evicted when expired.
    method Examine(key: Bytes, now: Time) returns (evicted: bool)
      requires Valid() && key in withTTL
      modifies this
      ensures Valid()
      ensures evicted == old(entries)[key].Expired(now)
      ensures entries == if evicted then old(entries) - {key} else old(entries)
      ensures withTTL <= old(withTTL) && old(withTTL) - withTTL <= {key}
    {
      if key !in entries || !entries[key].HasExpiry() {
        withTTL := withTTL - {key};
        return false;
      }
      if entries[key].Expired(now) {
        entries := entries - {key};
        withTTL := withTTL - {key};
        return true;
      }
      return false;
    }

    // Active expiry over up to `limit` indexed keys, taken in any order.
    method SampleExpired(now: Time, limit: int) returns (examined: nat, evicted: nat, ghost gone: set<Bytes>)
      requires Valid()
      modifies this
      ensures Valid()
      ensures examined == if limit <= 0 then 0 else if limit < |old(withTTL)| then limit else |old(withTTL)|
      ensures Sweep(old(entries), entries, gone, now) && evicted == |gone|
      ensures limit >= |old(withTTL)| ==> gone == Dead(old(entries), now) && Dead(entries, now) == {}
    {
      examined, evicted, gone := 0, 0, {};
      var rest := withTTL;
      while rest != {} && examined < limit
        invariant Valid()
        invariant rest <= withTTL && rest <= old(withTTL)
        invariant examined + |rest| == |old(withTTL)| && (examined == 0 || examined <= limit)
        invariant Sweep(old(entries), entries, gone, now) && evicted == |gone|
        invariant forall k :: k in entries && entries[k].Expired(now) ==> k in rest || k !in old(withTTL)
        decreases |rest|
      {
        var key :| key in rest;
        examined := examined + 1;
        ghost var before, start := entries, old(entries);
        var ev := Examine(key, now);
        rest := rest - {key};
        if ev {
          evicted := evicted + 1;
          gone := gone + {key};
          assert start - gone == before - {key};
        }
      }
      AllSwept(old(entries), entries, gone, old(withTTL), rest, now);
    }
  }

  // With nothing left to examine, the sweep took exactly the expired keys.
  lemma AllSwept(before: Keyspace, after: Keyspace, gone: set<Bytes>, index: set<Bytes>, rest: set<Bytes>, now: Time)
    requires Sweep(before, after, gone, now)
    requires forall k :: k in before && before[k].HasExpiry() ==> k in index
    requires forall k :: k in after && after[k].Expired(now) ==> k in rest || k !in index
    ensures rest == {} ==> gone == Dead(before, now) && Dead(after, now) == {}
  {
    if rest == {} {
      forall k | k in before && before[k].Expired(now) ensures k in gone {
        assert k in gone || k in after;
      }
    }
  }
}
