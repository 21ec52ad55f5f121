// The command handlers (internal/command) as they run against a sharded database. Each is
// proved to do to the whole database what Commands.Exec says, and to change no shard but
// those of the keys it was given.
module Handlers {
  import opened ByteStrings
  import opened Options
  import opened Decimals
  import opened Commands
  import opened Databases

  // A collection that was found is changed through its reference; a new one is stored.
  method Store(db: DB, now: Time, key: Bytes, e: Option<Entry>, v: Value)
    requires db.Valid() && e == Lookup(db.view, key, now)
    modifies db, db.shards[db.ShardOf(key)]
    ensures db.Valid() && db.view == Updated(old(db.view), key, Stored(e, v))
  {
    if e.Some? {
      db.Mutate(key, v);
    } else {
      db.Set(key, v);
    }
  }

  // A collection that has become empty is removed from the keyspace.
  method StoreOrDelete(db: DB, now: Time, key: Bytes, v: Value, empty: bool)
    requires db.Valid() && Lookup(db.view, key, now).Some?
    modifies db, db.shards[db.ShardOf(key)]
    ensures db.Valid() && db.view == Updated(old(db.view), key, StoredOrDropped(old(db.view)[key], v, empty))
  {
    if empty {
      var _ := db.Delete(key, now);
    } else {
      db.Mutate(key, v);
    }
  }

  method Set(db: DB, now: Time, key: Bytes, v: Bytes) returns (a: Answer)
    requires db.Valid()
    modifies db, db.shards[db.ShardOf(key)]
    ensures db.Valid()
    ensures Outcome(db.view, a) == Applied(old(db.view), key, Effect(Put(Entry(Str(v), ZERO_TIME)), Done))
  {
    db.Set(key, Str(v));
    a := Done;
  }

  // INCR and DECR.
  method IncrBy(db: DB, now: Time, key: Bytes, delta: int) returns (a: Answer)
    requires db.Valid()
    modifies db, db.shards[db.ShardOf(key)]
    ensures db.Valid()
    ensures Outcome(db.view, a) == Applied(old(db.view), key, IncrEffect(Lookup(old(db.view), key, now), delta))
  {
    var e := db.Lookup(key, now);
    var cur := 0;
    if e.Some? {
      if !e.value.value.Str? {
        return Fail(WrongType);
      }
      var n := ParseInt(e.value.value.bytes);
      if n.None? {
        return Fail(NotInteger);
      }
      cur := n.value;
    }
    if (delta > 0 && cur > MAX_INT64 - delta) || (delta < 0 && cur < MIN_INT64 - delta) {
      return Fail(Overflow);
    }
    cur := cur + delta;
    var next := Str(FormatInt(cur));
    if e.Some? {
      db.SetEntry(key, e.value.(value := next));
    } else {
      db.Set(key, next);
    }
    a := Int(cur);
  }

  method Expire(db: DB, now: Time, key: Bytes, secs: Bytes) returns (a: Answer)
    requires db.Valid()
    modifies db, db.shards[db.ShardOf(key)]
    ensures db.Valid()
    ensures Outcome(db.view, a) == Applied(old(db.view), key, ExpireEffect(now, Lookup(old(db.view), key, now), secs))
  {
    var n := ParseInt(secs);
    if n.None? {
      return Fail(NotInteger);
    }
    var ok := db.SetExpire(key, ExpireDeadline(now, n.value), now);
    a := Int(if ok then 1 else 0);
  }

  method PExpireAt(db: DB, now: Time, key: Bytes, ms: Bytes) returns (a: Answer)
    requires db.Valid()
    modifies db, db.shards[db.ShardOf(key)]
    ensures db.Valid()
    ensures Outcome(db.view, a) == Applied(old(db.view), key, PExpireAtEffect(Lookup(old(db.view), key, now), ms))
  {
    var n := ParseInt(ms);
    if n.None? {
      return Fail(NotInteger);
    }
    var ok := db.SetExpire(key, n.value * MILLISECOND, now);
    a := Int(if ok then 1 else 0);
  }

  method Persist(db: DB, now: Time, key: Bytes) returns (a: Answer)
    requires db.Valid()
    modifies db, db.shards[db.ShardOf(key)]
    ensures db.Valid()
    ensures Outcome(db.view, a) == Applied(old(db.view), key, PersistEffect(Lookup(old(db.view), key, now)))
  {
    var ok := db.Persist(key, now);
    a := Int(if ok then 1 else 0);
  }

  // DEL and UNLINK.
  method Delete(db: DB, now: Time, keys: seq<Bytes>) returns (a: Answer)
    requires db.Valid()
    modifies db, db.Covering(keys)
    ensures db.Valid() && db.view == old(db.view) - Elements(keys)
    ensures a == Int(CountLive(old(db.view), keys, now))
  {
    var n := 0;
    for i := 0 to |keys|
      invariant db.Valid() && db.view == old(db.view) - Elements(keys[..i])
      invariant n == CountLive(old(db.view), keys[..i], now)
    {
      assert keys[..i + 1][..i] == keys[..i];
      DropOneMore(old(db.view), keys, i);
      var live := db.Delete(keys[i], now);
      if live {
        n := n + 1;
      }
    }
    assert keys[..|keys|] == keys;
    a := Int(n);
  }

  method Exists(db: DB, now: Time, keys: seq<Bytes>) returns (a: Answer)
    requires db.Valid()
    ensures a == Int(CountExisting(db.view, keys, now))
  {
    var n := 0;
    for i := 0 to |keys|
      invariant n == CountExisting(db.view, keys[..i], now)
    {
      assert keys[..i + 1][..i] == keys[..i];
      var e := db.Lookup(keys[i], now);
      if e.Some? {
        n := n + 1;
      }
    }
    assert keys[..|keys|] == keys;
    a := Int(n);
  }

  // LPUSH and RPUSH.
  method ListPush(db: DB, now: Time, key: Bytes, values: seq<Bytes>, front: bool) returns (a: Answer)
    requires db.Valid()
    modifies db, db.shards[db.ShardOf(key)]
    ensures db.Valid()
    ensures Outcome(db.view, a) == Applied(old(db.view), key, PushEffect(Lookup(old(db.view), key, now), values, front))
  {
    var e := db.Lookup(key, now);
    var l: seq<Bytes> := [];
    if e.Some? {
      if !e.value.value.ListV? {
        return Fail(WrongType);
      }
      l := e.value.value.elems;
    }
    l := PushAll(l, values, front);
    assert db.Cells() == old(db.Cells());
    Store(db, now, key, e, ListV(l));
    a := Int(|l|);
  }

  method PushAll(l: seq<Bytes>, values: seq<Bytes>, front: bool) returns (r: seq<Bytes>)
    ensures r == Pushed(l, values, front)
  {
    r := l;
    for i := 0 to |values|
      invariant r == Pushed(l, values[..i], front)
    {
      PushedOneMore(l, values, i, front);
      if front {
        r := [values[i]] + r;
      } else {
        r := r + [values[i]];
      }
    }
    assert values[..|values|] == values;
  }

  lemma ReversedAppend(s: seq<Bytes>, x: Bytes)
    ensures Reversed(s + [x]) == [x] + Reversed(s)
  {
    if s != [] {
      ReversedAppend(s[1..], x);
      assert (s + [x])[1..] == s[1..] + [x];
    }
  }

  lemma PushedOneMore(l: seq<Bytes>, values: seq<Bytes>, i: nat, front: bool)
    requires i < |values|
    ensures Pushed(l, values[..i + 1], front) ==
      if front then [values[i]] + Pushed(l, values[..i], front) else Pushed(l, values[..i], front) + [values[i]]
  {
    assert values[..i + 1] == values[..i] + [values[i]];
    ReversedAppend(values[..i], values[i]);
  }

  // LPOP and RPOP, with an optional count.
  method ListPop(db: DB, now: Time, key: Bytes, more: seq<Bytes>, front: bool) returns (a: Answer)
    requires db.Valid()
    modifies db, db.shards[db.ShardOf(key)]
    ensures db.Valid()
    ensures Outcome(db.view, a) == Applied(old(db.view), key, PopEffect(Lookup(old(db.view), key, now), more, front))
  {
    if |more| > 1 {
      return Fail(WrongArity);
    }
    var count, counted := 1, |more| == 1;
    if counted {
      var n := ParseInt(more[0]);
      if n.None? {
        return Fail(NotInteger);
      }
      if n.value < 0 {
        return Fail(NegativeCount);
      }
      count := n.value;
    }
    a := PopStored(db, now, key, count, counted, front);
  }

  method PopStored(db: DB, now: Time, key: Bytes, count: nat, counted: bool, front: bool) returns (a: Answer)
    requires db.Valid()
    modifies db, db.shards[db.ShardOf(key)]
    ensures db.Valid()
    ensures Outcome(db.view, a) ==
      Applied(old(db.view), key, PopFrom(Lookup(old(db.view), key, now), count, counted, front))
  {
    var e := db.Lookup(key, now);
    if e.None? {
      return Nil;
    }
    if !e.value.value.ListV? {
      return Fail(WrongType);
    }
    var out, rest := PopSome(e.value.value.elems, count, front);
    assert db.Cells() == old(db.Cells());
    StoreOrDelete(db, now, key, ListV(rest), rest == []);
    if counted {
      return Bulks(out);
    }
    return Bulk(if out == [] then [] else out[0]);
  }

  method PopSome(l: seq<Bytes>, count: nat, front: bool) returns (out: seq<Bytes>, rest: seq<Bytes>)
    ensures (out, rest) == Popped(l, count, front)
  {
    out, rest := [], l;
    assert l[..0] == [] && l[0..] == l && l[|l|..] == [] && l[..|l|] == l;
    var i := 0;
    while i < count && rest != []
      invariant i <= count && i <= |l|
      invariant (out, rest) == Popped(l, i, front)
    {
      PoppedOneMore(l, i, front);
      if front {
        out, rest := out + [rest[0]], rest[1..];
      } else {
        out, rest := out + [rest[|rest| - 1]], rest[..|rest| - 1];
      }
      i := i + 1;
    }
  }

  lemma PoppedOneMore(l: seq<Bytes>, i: nat, front: bool)
    requires i < |l|
    ensures
      var (out, rest) := Popped(l, i, front);
      && rest != []
      && Popped(l, i + 1, front) ==
         if front then (out + [rest[0]], rest[1..]) else (out + [rest[|rest| - 1]], rest[..|rest| - 1])
  {
    if front {
      assert l[..i + 1] == l[..i] + [l[i]];
    } else {
      var k := |l| - i;
      assert l[k - 1..][1..] == l[k..];
      assert Reversed(l[k - 1..]) == Reversed(l[k..]) + [l[k - 1]];
      assert l[..k][..k - 1] == l[..k - 1];
    }
  }

  method HSet(db: DB, now: Time, key: Bytes, rest: seq<Bytes>) returns (a: Answer)
    requires db.Valid()
    modifies db, db.shards[db.ShardOf(key)]
    ensures db.Valid()
    ensures Outcome(db.view, a) == Applied(old(db.view), key, HSetEffect(Lookup(old(db.view), key, now), rest))
  {
    if |rest| % 2 != 0 {
      return Fail(WrongArity);
    }
    a := HSetPairs(db, now, key, rest);
  }

  method HSetPairs(db: DB, now: Time, key: Bytes, rest: seq<Bytes>) returns (a: Answer)
    requires db.Valid() && |rest| % 2 == 0
    modifies db, db.shards[db.ShardOf(key)]
    ensures db.Valid()
    ensures Outcome(db.view, a) == Applied(old(db.view), key, HSetEffect(Lookup(old(db.view), key, now), rest))
  {
    var e := db.Lookup(key, now);
    var h: map<Bytes, Bytes> := map[];
    if e.Some? {
      if !e.value.value.HashV? {
        return Fail(WrongType);
      }
      h := e.value.value.fields;
    }
    var h', added := SetFields(h, rest);
    assert db.Cells() == old(db.Cells());
    HSetStores(e, rest, h', added);
    Store(db, now, key, e, HashV(h'));
    a := Int(added);
  }

  lemma HSetStores(e: Option<Entry>, rest: seq<Bytes>, m: map<Bytes, Bytes>, added: int)
    requires |rest| % 2 == 0 && (e.Some? ==> e.value.value.HashV?)
    requires
      var was := if e.Some? then e.value.value.fields else map[];
      m == FieldsSet(was, rest) && added == |m| - |was|
    ensures HSetEffect(e, rest) == Effect(Stored(e, HashV(m)), Int(added))
  {
  }

  method SetFields(h: map<Bytes, Bytes>, rest: seq<Bytes>) returns (r: map<Bytes, Bytes>, added: int)
    requires |rest| % 2 == 0
    ensures r == FieldsSet(h, rest) && added == |r| - |h|
  {
    r, added := h, 0;
    var i := 0;
    while i + 1 < |rest|
      invariant 0 <= i <= |rest| && i % 2 == 0
      invariant r == FieldsSet(h, rest[..i]) && added == |r| - |h|
    {
      assert rest[..i + 2][..i] == rest[..i];
      var f := rest[i];
      if f !in r {
        added := added + 1;
      }
      SizeAfterPut(r, f, rest[i + 1]);
      r := r[f := rest[i + 1]];
      i := i + 2;
    }
    assert rest[..|rest|] == rest;
  }

  lemma SizeAfterPut<V>(m: map<Bytes, V>, k: Bytes, v: V)
    ensures |m[k := v]| == |m| + if k in m then 0 else 1
  {
    assert m[k := v].Keys == m.Keys + {k};
    assert |m.Keys| == |m| && |m[k := v].Keys| == |m[k := v]|;
  }

  method HDel(db: DB, now: Time, key: Bytes, rest: seq<Bytes>) returns (a: Answer)
    requires db.Valid()
    modifies db, db.shards[db.ShardOf(key)]
    ensures db.Valid()
    ensures Outcome(db.view, a) == Applied(old(db.view), key, HDelEffect(Lookup(old(db.view), key, now), rest))
  {
    var e := db.Lookup(key, now);
    if e.None? {
      return Int(0);
    }
    if !e.value.value.HashV? {
      return Fail(WrongType);
    }
    var h, removed := DeleteFields(e.value.value.fields, rest);
    assert db.Cells() == old(db.Cells());
    StoreOrDelete(db, now, key, HashV(h), |h| == 0);
    a := Int(removed);
  }

  method DeleteFields(h: map<Bytes, Bytes>, rest: seq<Bytes>) returns (r: map<Bytes, Bytes>, removed: int)
    ensures r == h - Elements(rest) && removed == |h| - |r|
  {
    r, removed := h, 0;
    for i := 0 to |rest|
      invariant r == h - Elements(rest[..i]) && removed == |h| - |r|
    {
      if rest[i] in r {
        removed := removed + 1;
      }
      DropOneMore(h, rest, i);
      SizeAfterDrop(r, rest[i]);
      r := r - {rest[i]};
    }
    assert rest[..|rest|] == rest;
  }

  lemma ElementsOneMore(keys: seq<Bytes>, i: nat)
    requires i < |keys|
    ensures Elements(keys[..i + 1]) == Elements(keys[..i]) + {keys[i]}
  {
    assert keys[..i + 1] == keys[..i] + [keys[i]];
  }

  lemma DropOneMore<V>(m: map<Bytes, V>, keys: seq<Bytes>, i: nat)
    requires i < |keys|
    ensures m - Elements(keys[..i + 1]) == m - Elements(keys[..i]) - {keys[i]}
  {
    ElementsOneMore(keys, i);
  }

  lemma SizeAfterDrop<V>(m: map<Bytes, V>, k: Bytes)
    ensures |m - {k}| == |m| - if k in m then 1 else 0
  {
    assert (m - {k}).Keys == m.Keys - {k};
    assert |m.Keys| == |m| && |(m - {k}).Keys| == |m - {k}|;
  }

  method SAdd(db: DB, now: Time, key: Bytes, rest: seq<Bytes>) returns (a: Answer)
    requires db.Valid()
    modifies db, db.shards[db.ShardOf(key)]
    ensures db.Valid()
    ensures Outcome(db.view, a) == Applied(old(db.view), key, SAddEffect(Lookup(old(db.view), key, now), rest))
  {
    var e := db.Lookup(key, now);
    var s: set<Bytes> := {};
    if e.Some? {
      if !e.value.value.SetV? {
        return Fail(WrongType);
      }
      s := e.value.value.members;
    }
    var s', added := AddMembers(s, rest);
    assert db.Cells() == old(db.Cells());
    assert SAddEffect(e, rest) == Effect(Stored(e, SetV(s')), Int(added));
    Store(db, now, key, e, SetV(s'));
    a := Int(added);
  }

  method AddMembers(s: set<Bytes>, rest: seq<Bytes>) returns (r: set<Bytes>, added: int)
    ensures r == s + Elements(rest) && added == |r| - |s|
  {
    r, added := s, 0;
    for i := 0 to |rest|
      invariant r == s + Elements(rest[..i]) && added == |r| - |s|
    {
      if rest[i] !in r {
        added := added + 1;
      }
      ElementsOneMore(rest, i);
      r := r + {rest[i]};
    }
    assert rest[..|rest|] == rest;
  }

  method SRem(db: DB, now: Time, key: Bytes, rest: seq<Bytes>) returns (a: Answer)
    requires db.Valid()
    modifies db, db.shards[db.ShardOf(key)]
    ensures db.Valid()
    ensures Outcome(db.view, a) == Applied(old(db.view), key, SRemEffect(Lookup(old(db.view), key, now), rest))
  {
    var e := db.Lookup(key, now);
    if e.None? {
      return Int(0);
    }
    if !e.value.value.SetV? {
      return Fail(WrongType);
    }
    var s, removed := RemoveMembers(e.value.value.members, rest);
    assert db.Cells() == old(db.Cells());
    StoreOrDelete(db, now, key, SetV(s), |s| == 0);
    a := Int(removed);
  }

  method RemoveMembers(s: set<Bytes>, rest: seq<Bytes>) returns (r: set<Bytes>, removed: int)
    ensures r == s - Elements(rest) && removed == |s| - |r|
  {
    r, removed := s, 0;
    for i := 0 to |rest|
      invariant r == s - Elements(rest[..i]) && removed == |s| - |r|
    {
      if rest[i] in r {
        removed := removed + 1;
      }
      ElementsOneMore(rest, i);
      r := r - {rest[i]};
    }
    assert rest[..|rest|] == rest;
  }

  // Every score is validated before the keyspace is touched.
  method ZAdd(db: DB, now: Time, key: Bytes, pairs: seq<ScoredMember>, odd: bool) returns (a: Answer)
    requires db.Valid()
    modifies db, db.shards[db.ShardOf(key)]
    ensures db.Valid()
    ensures Outcome(db.view, a) == Applied(old(db.view), key, ZAddEffect(Lookup(old(db.view), key, now), pairs, odd))
  {
    if odd {
      return Fail(WrongArity);
    }
    var good := Validate(pairs);
    assert db.Cells() == old(db.Cells());
    if !good {
      return Fail(NotFloat);
    }
    a := ZAddScored(db, now, key, pairs);
  }

  method ZAddScored(db: DB, now: Time, key: Bytes, pairs: seq<ScoredMember>) returns (a: Answer)
    requires db.Valid() && AllScored(pairs)
    modifies db, db.shards[db.ShardOf(key)]
    ensures db.Valid()
    ensures Outcome(db.view, a) == Applied(old(db.view), key, ZAddEffect(Lookup(old(db.view), key, now), pairs, false))
  {
    var e := db.Lookup(key, now);
    if e.Some? && !e.value.value.ZSetV? {
      return Fail(WrongType);
    }
    var z, added := ScoresWith(e, pairs);
    assert db.Cells() == old(db.Cells());
    Store(db, now, key, e, ZSetV(z));
    a := Int(added);
  }

  method ScoresWith(e: Option<Entry>, pairs: seq<ScoredMember>) returns (r: map<Bytes, int>, added: int)
    requires AllScored(pairs) && (e.Some? ==> e.value.value.ZSetV?)
    ensures ZAddEffect(e, pairs, false) == Effect(Stored(e, ZSetV(r)), Int(added))
  {
    var z: map<Bytes, int> := map[];
    if e.Some? {
      z := e.value.value.scores;
    }
    r, added := AddScores(z, pairs);
  }

  method Validate(pairs: seq<ScoredMember>) returns (good: bool)
    ensures good <==> AllScored(pairs)
  {
    for i := 0 to |pairs|
      invariant AllScored(pairs[..i])
    {
      if pairs[i].score.score.None? {
        return false;
      }
    }
    return true;
  }

  method AddScores(z: map<Bytes, int>, pairs: seq<ScoredMember>) returns (r: map<Bytes, int>, added: int)
    requires AllScored(pairs)
    ensures r == ScoresSet(z, pairs) && added == |r| - |z|
  {
    r, added := z, 0;
    for i := 0 to |pairs|
      invariant r == ScoresSet(z, pairs[..i]) && added == |r| - |z|
    {
      assert pairs[..i + 1][..i] == pairs[..i];
      var p := pairs[i];
      if p.member !in r {
        added := added + 1;
      }
      SizeAfterPut(r, p.member, p.score.score.value);
      r := r[p.member := p.score.score.value];
    }
    assert pairs[..|pairs|] == pairs;
  }

  method SInter(db: DB, now: Time, keys: seq<Bytes>) returns (a: Answer)
    requires db.Valid() && |keys| >= 1
    ensures a == SInterAnswer(db.view, keys, now)
  {
    var sets: seq<set<Bytes>> := [];
    for i := 0 to |keys|
      invariant db.Valid() && Gather(db.view, keys[..i], now) == Sets(sets)
    {
      GatherNext(db.view, keys, i, now, sets);
      var e := db.Lookup(keys[i], now);
      if e.None? {
        return Members({});
      }
      if !e.value.value.SetV? {
        return Fail(WrongType);
      }
      sets := sets + [e.value.value.members];
    }
    assert keys[..|keys|] == keys;
    var out := Intersect(sets);
    a := Members(out);
  }

  // One more key: its set is added, or the answer is decided.
  lemma GatherNext(ks: Keyspace, keys: seq<Bytes>, i: nat, now: Time, sets: seq<set<Bytes>>)
    requires i < |keys| && Gather(ks, keys[..i], now) == Sets(sets)
    ensures
      var e := Lookup(ks, keys[i], now);
      if e.None? then SInterAnswer(ks, keys, now) == Members({})
      else if !e.value.value.SetV? then SInterAnswer(ks, keys, now) == Fail(WrongType)
      else Gather(ks, keys[..i + 1], now) == Sets(sets + [e.value.value.members])
  {
    assert keys[..i + 1][..i] == keys[..i];
    if Gather(ks, keys[..i + 1], now).Stop? {
      StopStays(ks, keys, i + 1, now);
    }
  }

  lemma StopStays(ks: Keyspace, keys: seq<Bytes>, i: nat, now: Time)
    requires i <= |keys| && Gather(ks, keys[..i], now).Stop?
    ensures Gather(ks, keys, now) == Gather(ks, keys[..i], now)
    decreases |keys|
  {
    if i == |keys| {
      assert keys[..i] == keys;
    } else {
      var rest := keys[..|keys| - 1];
      assert rest[..i] == keys[..i];
      StopStays(ks, rest, i, now);
    }
  }

  method Smallest(sets: seq<set<Bytes>>) returns (smallest: nat)
    requires |sets| >= 1
    ensures smallest < |sets|
    ensures forall i :: 0 <= i < |sets| ==> |sets[smallest]| <= |sets[i]|
  {
    smallest := 0;
    for i := 0 to |sets|
      invariant smallest < |sets|
      invariant forall j :: 0 <= j < i ==> |sets[smallest]| <= |sets[j]|
    {
      if |sets[i]| < |sets[smallest]| {
        smallest := i;
      }
    }
  }

  method InAll(sets: seq<set<Bytes>>, smallest: nat, m: Bytes) returns (inAll: bool)
    requires smallest < |sets| && m in sets[smallest]
    ensures inAll <==> forall i :: 0 <= i < |sets| ==> m in sets[i]
  {
    inAll := true;
    for i := 0 to |sets|
      invariant forall j :: 0 <= j < i ==> m in sets[j]
    {
      if i == smallest {
        continue;
      }
      if m !in sets[i] {
        return false;
      }
    }
  }

  // Filter the smallest set, in any order of its members.
  method Intersect(sets: seq<set<Bytes>>) returns (out: set<Bytes>)
    requires |sets| >= 1
    ensures out == Intersection(sets)
  {
    var smallest := Smallest(sets);
    out := {};
    var rest := sets[smallest];
    while rest != {}
      invariant rest <= sets[smallest]
      invariant out == set x | x in sets[smallest] - rest && forall i :: 0 <= i < |sets| ==> x in sets[i]
      decreases |rest|
    {
      var m :| m in rest;
      var inAll := InAll(sets, smallest, m);
      if inAll {
        out := out + {m};
      }
      rest := rest - {m};
    }
    assert forall x :: x in out <==> x in Intersection(sets);
  }

  // Commands that change nothing but their key's shard, and what each does there.
  method RunSingle(db: DB, now: Time, op: Op) returns (a: Answer)
    requires db.Valid() && IsSingle(op)
    modifies db, db.shards[db.ShardOf(op.key)]
    ensures db.Valid() && Outcome(db.view, a) == Exec(now, op, old(db.view))
  {
    if op.Set? || op.IncrBy? || op.Expire? || op.PExpireAt? || op.Persist? {
      a := RunKey(db, now, op);
    } else {
      a := RunCollection(db, now, op);
    }
  }

  // Strings and deadlines.
  method RunKey(db: DB, now: Time, op: Op) returns (a: Answer)
    requires db.Valid() && (op.Set? || op.IncrBy? || op.Expire? || op.PExpireAt? || op.Persist?)
    modifies db, db.shards[db.ShardOf(op.key)]
    ensures db.Valid() && Outcome(db.view, a) == Exec(now, op, old(db.view))
  {
    if op.Set? { a := Set(db, now, op.key, op.value); }
    else if op.IncrBy? { a := IncrBy(db, now, op.key, op.delta); }
    else if op.Expire? { a := Expire(db, now, op.key, op.secs); }
    else if op.PExpireAt? { a := PExpireAt(db, now, op.key, op.ms); }
    else { a := Persist(db, now, op.key); }
  }

  // Collections, and the commands that only read.
  method RunCollection(db: DB, now: Time, op: Op) returns (a: Answer)
    requires db.Valid() && IsSingle(op)
    requires !(op.Set? || op.IncrBy? || op.Expire? || op.PExpireAt? || op.Persist?)
    modifies db, db.shards[db.ShardOf(op.key)]
    ensures db.Valid() && Outcome(db.view, a) == Exec(now, op, old(db.view))
  {
    if op.Push? { a := ListPush(db, now, op.key, op.values, op.front); }
    else if op.Pop? { a := ListPop(db, now, op.key, op.more, op.front); }
    else if op.HSet? { a := HSet(db, now, op.key, op.rest); }
    else if op.HDel? { a := HDel(db, now, op.key, op.rest); }
    else if op.SAdd? { a := SAdd(db, now, op.key, op.rest); }
    else if op.SRem? { a := SRem(db, now, op.key, op.rest); }
    else if op.ZAdd? { a := ZAdd(db, now, op.key, op.pairs, op.odd); }
    else {
      // the remaining commands only read
      a := Single(now, op, db.Lookup(op.key, now)).answer;
    }
  }

  // The shards a command may change: those of its keys, or every one for FLUSHDB.
  ghost function Locked(db: DB, op: Op): (r: set<object>)
    requires |db.shards| >= 1
  {
    if op.FlushDB? then db.Objects() else db.Covering(KeysOf(op))
  }

  // Any command, on any sharding, has the outcome it has on one keyspace.
  method Run(db: DB, now: Time, op: Op) returns (a: Answer)
    requires db.Valid() && Accepted(op)
    modifies db, Locked(db, op)
    ensures db.Valid() && Outcome(db.view, a) == Exec(now, op, old(db.view))
  {
    if op.Del? || op.Unlink? {
      a := Delete(db, now, op.keys);
    } else if op.Exists? {
      a := Exists(db, now, op.keys);
    } else if op.SInter? {
      a := SInter(db, now, op.keys);
    } else if op.FlushDB? {
      db.Flush();
      a := Done;
    } else if op.Plain? {
      a := Done;
    } else {
      assert op.key in KeysOf(op);
      a := RunSingle(db, now, op);
    }
  }
}
