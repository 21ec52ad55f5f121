// A logical database split over shards (internal/shard). Every data method routes by key,
// changes no shard but the key's own, and does to the whole database what a single
// keyspace would do, whatever the hash function and the number of shards.
module Databases {
  import opened ByteStrings
  import opened Options
  import opened Commands
  import opened Keyspaces

  // The index functions: byte and string hashing agree, so one function serves both.
  function Route(hash: Bytes -> nat, n: nat, key: Bytes): (i: nat)
    requires n >= 1
    ensures i < n
  {
    hash(key) % n
  }

  // The shards hold exactly the view's entries, each in the shard its key routes to.
  ghost predicate Holds(cells: seq<Keyspace>, hash: Bytes -> nat, view: Keyspace) {
    && |cells| >= 1
    && (forall i, k :: 0 <= i < |cells| && k in cells[i] ==> Route(hash, |cells|, k) == i && k in view)
    && (forall k :: k in view ==>
          var c := cells[Route(hash, |cells|, k)];
          k in c && c[k] == view[k])
  }

  lemma HoldsLookup(cells: seq<Keyspace>, hash: Bytes -> nat, view: Keyspace, key: Bytes, now: Time)
    requires Holds(cells, hash, view)
    ensures Lookup(cells[Route(hash, |cells|, key)], key, now) == Lookup(view, key, now)
    ensures key in cells[Route(hash, |cells|, key)] <==> key in view
  {
  }

  lemma HoldsPut(cells: seq<Keyspace>, hash: Bytes -> nat, view: Keyspace, key: Bytes, e: Entry)
    requires Holds(cells, hash, view)
    ensures
      var i := Route(hash, |cells|, key);
      Holds(cells[i := cells[i][key := e]], hash, view[key := e])
  {
    var i := Route(hash, |cells|, key);
    var cells' := cells[i := cells[i][key := e]];
    forall j, k | 0 <= j < |cells'| && k in cells'[j] ensures Route(hash, |cells'|, k) == j && k in view[key := e] {
      assert k == key || k in cells[j];
    }
  }

  lemma HoldsDrop(cells: seq<Keyspace>, hash: Bytes -> nat, view: Keyspace, key: Bytes)
    requires Holds(cells, hash, view)
    ensures
      var i := Route(hash, |cells|, key);
      Holds(cells[i := cells[i] - {key}], hash, view - {key})
  {
    var i := Route(hash, |cells|, key);
    var cells' := cells[i := cells[i] - {key}];
    forall j, k | 0 <= j < |cells'| && k in cells'[j] ensures Route(hash, |cells'|, k) == j && k in view - {key} {
      assert k in cells[j];
    }
  }

  lemma HoldsUpdated(cells: seq<Keyspace>, hash: Bytes -> nat, view: Keyspace, key: Bytes, u: Update)
    requires Holds(cells, hash, view)
    ensures
      var i := Route(hash, |cells|, key);
      Holds(cells[i := Updated(cells[i], key, u)], hash, Updated(view, key, u))
  {
    match u
    case Keep => assert cells[Route(hash, |cells|, key) := cells[Route(hash, |cells|, key)]] == cells;
    case Put(e) => HoldsPut(cells, hash, view, key, e);
    case Drop => HoldsDrop(cells, hash, view, key);
  }

  lemma SweptKeys(cells: seq<Keyspace>, hash: Bytes -> nat, view: Keyspace, i: nat, gone: set<Bytes>)
    requires Holds(cells, hash, view) && i < |cells| && gone <= cells[i].Keys
    ensures gone <= view.Keys
    ensures forall k :: k in gone ==> Route(hash, |cells|, k) == i && view[k] == cells[i][k]
  {
    forall k | k in gone ensures Route(hash, |cells|, k) == i && k in view && view[k] == cells[i][k] {
      assert k in cells[i];
    }
  }

  lemma HoldsSweep(cells: seq<Keyspace>, hash: Bytes -> nat, view: Keyspace, i: nat, gone: set<Bytes>)
    requires Holds(cells, hash, view) && i < |cells| && gone <= cells[i].Keys
    ensures Holds(cells[i := cells[i] - gone], hash, view - gone) && gone <= view.Keys
    ensures forall k :: k in gone ==> Route(hash, |cells|, k) == i && view[k] == cells[i][k]
  {
    SweptKeys(cells, hash, view, i, gone);
    var cells' := cells[i := cells[i] - gone];
    forall j, k | 0 <= j < |cells'| && k in cells'[j] ensures Route(hash, |cells'|, k) == j && k in view - gone {
      assert k in cells[j];
    }
    forall k | k in view - gone
      ensures var c := cells'[Route(hash, |cells'|, k)]; k in c && c[k] == (view - gone)[k]
    {
      assert k in cells[Route(hash, |cells|, k)];
    }
  }

  class DB {
    const hash: Bytes -> nat
    const shards: seq<Shard>
    ghost var view: Keyspace

    ghost function Objects(): (r: set<object>) {
      set s | s in shards
    }

    ghost function Cells(): (r: seq<Keyspace>)
      reads Objects()
      ensures |r| == |shards|
    {
      seq(|shards|, i requires 0 <= i < |shards| reads Objects() => shards[i].entries)
    }

    ghost predicate Valid()
      reads this, Objects()
    {
      && |shards| >= 1
      && (forall i, j :: 0 <= i < j < |shards| ==> shards[i] != shards[j])
      && (forall i :: 0 <= i < |shards| ==> shards[i].Valid())
      && Holds(Cells(), hash, view)
    }

    function ShardOf(key: Bytes): (i: nat)
      requires |shards| >= 1
      ensures i < |shards|
    {
      Route(hash, |shards|, key)
    }

    // The shards a command on these keys may change.
    ghost function Covering(keys: seq<Bytes>): (r: set<object>)
      requires |shards| >= 1
      ensures r <= Objects()
    {
      set k | k in keys :: shards[ShardOf(k)]
    }

    function Lookup(key: Bytes, now: Time): (e: Option<Entry>)
      requires Valid()
      reads this, Objects()
      ensures e == Commands.Lookup(view, key, now)
    {
      HoldsLookup(Cells(), hash, view, key, now);
      shards[ShardOf(key)].Peek(key, now)
    }

    method Set(key: Bytes, v: Value)
      requires Valid()
      modifies this, shards[ShardOf(key)]
      ensures Valid() && view == old(view)[key := Entry(v, ZERO_TIME)]
    {
      ghost var cells := Cells();
      HoldsPut(cells, hash, view, key, Entry(v, ZERO_TIME));
      shards[ShardOf(key)].Set(key, v);
      view := view[key := Entry(v, ZERO_TIME)];
      assert Cells() == cells[ShardOf(key) := Cells()[ShardOf(key)]];
    }

    method SetEntry(key: Bytes, e: Entry)
      requires Valid()
      modifies this, shards[ShardOf(key)]
      ensures Valid() && view == old(view)[key := e]
    {
      ghost var cells := Cells();
      HoldsPut(cells, hash, view, key, e);
      shards[ShardOf(key)].SetEntry(key, e);
      view := view[key := e];
      assert Cells() == cells[ShardOf(key) := Cells()[ShardOf(key)]];
    }

    method Mutate(key: Bytes, v: Value)
      requires Valid() && key in view
      modifies this, shards[ShardOf(key)]
      ensures Valid() && view == old(view)[key := old(view)[key].(value := v)]
    {
      ghost var cells := Cells();
      HoldsPut(cells, hash, view, key, view[key].(value := v));
      shards[ShardOf(key)].Mutate(key, v);
      view := view[key := view[key].(value := v)];
      assert Cells() == cells[ShardOf(key) := Cells()[ShardOf(key)]];
    }

    method SetExpire(key: Bytes, at: Time, now: Time) returns (ok: bool)
      requires Valid()
      modifies this, shards[ShardOf(key)]
      ensures Valid() && ok == Commands.Lookup(old(view), key, now).Some?
      ensures view == if ok then old(view)[key := old(view)[key].(expireAt := at)] else old(view)
    {
      ghost var cells := Cells();
      HoldsLookup(cells, hash, view, key, now);
      ok := shards[ShardOf(key)].SetExpire(key, at, now);
      ghost var u := if ok then Put(view[key].(expireAt := at)) else Keep;
      HoldsUpdated(cells, hash, view, key, u);
      view := Updated(view, key, u);
      assert Cells() == cells[ShardOf(key) := Updated(cells[ShardOf(key)], key, u)];
    }

    method Persist(key: Bytes, now: Time) returns (ok: bool)
      requires Valid()
      modifies this, shards[ShardOf(key)]
      ensures Valid() && ok == (Commands.Lookup(old(view), key, now).Some? && old(view)[key].HasExpiry())
      ensures view == if ok then old(view)[key := old(view)[key].(expireAt := ZERO_TIME)] else old(view)
    {
      ghost var cells := Cells();
      HoldsLookup(cells, hash, view, key, now);
      ok := shards[ShardOf(key)].Persist(key, now);
      ghost var u := if ok then Put(view[key].(expireAt := ZERO_TIME)) else Keep;
      HoldsUpdated(cells, hash, view, key, u);
      view := Updated(view, key, u);
      assert Cells() == cells[ShardOf(key) := Updated(cells[ShardOf(key)], key, u)];
    }

    // Delete and Unlink differ only in who frees the value.
    method Delete(key: Bytes, now: Time) returns (live: bool)
      requires Valid()
      modifies this, shards[ShardOf(key)]
      ensures Valid() && view == old(view) - {key}
      ensures live == Commands.Lookup(old(view), key, now).Some?
    {
      ghost var cells := Cells();
      HoldsLookup(cells, hash, view, key, now);
      HoldsDrop(cells, hash, view, key);
      var e := shards[ShardOf(key)].Take(key, now);
      live := e.Some?;
      view := view - {key};
      assert Cells() == cells[ShardOf(key) := Cells()[ShardOf(key)]];
    }

    method Flush()
      requires Valid()
      modifies this, Objects()
      ensures Valid() && view == map[]
    {
      for i := 0 to |shards|
        invariant forall j :: 0 <= j < i ==> shards[j].Valid() && shards[j].entries == map[]
      {
        shards[i].Flush();
      }
      view := map[];
    }

    // One shard of an expiry pass, under that shard's lock alone.
    method ExpireShard(i: nat, now: Time, limit: int) returns (examined: nat, evicted: nat, ghost gone: set<Bytes>)
      requires Valid() && i < |shards|
      modifies this, shards[i]
      ensures Valid() && Sweep(old(view), view, gone, now) && evicted == |gone|
      ensures forall k :: k in gone ==> ShardOf(k) == i
    {
      ghost var cells := Cells();
      examined, evicted, gone := shards[i].SampleExpired(now, limit);
      HoldsSweep(cells, hash, view, i, gone);
      view := view - gone;
      assert Cells() == cells[i := Cells()[i]];
    }

    // A whole pass, shard after shard, when nothing else runs in between.
    method ExpireCycle(now: Time, limit: int) returns (examined: nat, evicted: nat, ghost gone: set<Bytes>)
      requires Valid()
      modifies this, Objects()
      ensures Valid() && Sweep(old(view), view, gone, now) && evicted == |gone|
    {
      examined, evicted, gone := 0, 0, {};
      for i := 0 to |shards|
        invariant Valid() && Sweep(old(view), view, gone, now) && evicted == |gone|
      {
        ghost var mid := view;
        var ex, ev, g := ExpireShard(i, now, limit);
        SweepMore(old(view), mid, gone, g, now);
        examined, evicted, gone := examined + ex, evicted + ev, gone + g;
      }
    }
  }

  lemma SweepMore(before: Keyspace, mid: Keyspace, gone: set<Bytes>, more: set<Bytes>, now: Time)
    requires Sweep(before, mid, gone, now) && more <= mid.Keys
    requires forall k :: k in more ==> mid[k].Expired(now)
    ensures Sweep(before, mid - more, gone + more, now) && |gone + more| == |gone| + |more|
  {
    assert before - (gone + more) == mid - more;
  }
}
