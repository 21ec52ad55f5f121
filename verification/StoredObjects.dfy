// The collection commands on the objects a database stores (internal/command/lists.go,
// hashes.go, sets.go, zsets.go over internal/value): the handler's loop, run on a packed or a
// promoted collection with any thresholds and any skip-list heights, has the effect that
// Commands states on abstract values.
module StoredObjects {
  import opened ByteStrings
  import opened Varints
  import opened Options
  import opened Scores
  import opened Rankings
  import opened Commands
  import H = Handlers
  import Lists
  import Hashes
  import Sets
  import ZSets

  // A stored collection as an entry, or none.
  function EntryOf(found: bool, v: Value, at: Time): (e: Option<Entry>) {
    if found then Some(Entry(v, at)) else None
  }

  // Lists.

  // One turn of the push loop.
  method PushNext(l: Lists.List, values: seq<Blob>, i: nat, front: bool, ghost was: seq<Bytes>)
    requires l.Valid() && i < |values| && l.Elements() == Pushed(was, values[..i], front)
    modifies l.Repr()
    ensures l.Valid() && fresh(l.Repr() - old(l.Repr()))
    ensures l.Elements() == Pushed(was, values[..i + 1], front)
  {
    H.PushedOneMore(was, values, i, front);
    if front {
      l.PushFront(values[i]);
    } else {
      l.PushBack(values[i]);
    }
  }

  method PushInto(l: Lists.List, values: seq<Blob>, front: bool)
    requires l.Valid()
    modifies l.Repr()
    ensures l.Valid() && fresh(l.Repr() - old(l.Repr()))
    ensures l.Elements() == Pushed(old(l.Elements()), values, front)
  {
    ghost var was := l.Elements();
    for i := 0 to |values|
      invariant l.Valid() && fresh(l.Repr() - old(l.Repr()))
      invariant l.Elements() == Pushed(was, values[..i], front)
    {
      PushNext(l, values, i, front, was);
    }
    assert values[..|values|] == values;
  }

  lemma PushIs(found: bool, was: seq<Bytes>, at: Time, values: seq<Bytes>, front: bool)
    requires !found ==> was == [] && at == ZERO_TIME
    ensures
      var l := Pushed(was, values, front);
      PushEffect(EntryOf(found, ListV(was), at), values, front) == Effect(Put(Entry(ListV(l), at)), Int(|l|))
  {
  }

  // LPUSH and RPUSH, on the stored list or on a new one.
  method Push(l: Lists.List, ghost found: bool, ghost at: Time, values: seq<Blob>, front: bool) returns (a: Answer)
    requires l.Valid() && (!found ==> l.Elements() == [] && at == ZERO_TIME)
    modifies l.Repr()
    ensures l.Valid() && fresh(l.Repr() - old(l.Repr()))
    ensures PushEffect(EntryOf(found, ListV(old(l.Elements())), at), values, front)
      == Effect(Put(Entry(ListV(l.Elements()), at)), a)
  {
    PushIs(found, l.Elements(), at, values, front);
    PushInto(l, values, front);
    var n := l.Len();
    a := Int(n);
  }

  lemma PopsAll(was: seq<Bytes>, i: nat, count: nat, front: bool)
    requires i == count || (i == |was| && i <= count)
    ensures Popped(was, count, front) == Popped(was, i, front)
  {
  }

  lemma PopsNone(was: seq<Bytes>, front: bool)
    ensures Popped(was, 0, front).0 == [] && Popped(was, 0, front).1 == was
  {
    assert was[..0] == [] && was[0..] == was && was[|was|..] == [] && was[..|was|] == was;
  }

  lemma PopsOneMore(was: seq<Bytes>, i: nat, front: bool)
    requires i < |was|
    ensures
      var out, l := Popped(was, i, front).0, Popped(was, i, front).1;
      && l != []
      && Popped(was, i + 1, front).0 == out + [if front then l[0] else l[|l| - 1]]
      && Popped(was, i + 1, front).1 == if front then l[1..] else l[..|l| - 1]
  {
    H.PoppedOneMore(was, i, front);
  }

  // One turn of the pop loop.
  method PopNext(l: Lists.List, i: nat, front: bool, ghost was: seq<Bytes>) returns (b: Blob)
    requires l.Valid() && i < |was| && l.Elements() == Popped(was, i, front).1
    modifies l.Repr()
    ensures l.Valid() && l.Repr() <= old(l.Repr())
    ensures Popped(was, i + 1, front) == (Popped(was, i, front).0 + [b], l.Elements())
  {
    PopsOneMore(was, i, front);
    var ok;
    if front {
      b, ok := l.PopFront();
    } else {
      b, ok := l.PopBack();
    }
  }

  method PopInto(l: Lists.List, count: nat, front: bool) returns (out: seq<Bytes>)
    requires l.Valid()
    modifies l.Repr()
    ensures l.Valid() && l.Repr() <= old(l.Repr())
    ensures
      var r := Popped(old(l.Elements()), count, front);
      out == r.0 && l.Elements() == r.1
  {
    ghost var was: seq<Bytes> := l.Elements();
    var n := l.Len();
    out := [];
    PopsNone(was, front);
    var m := if count < n then count else n;
    for i := 0 to m
      invariant l.Valid() && l.Repr() <= old(l.Repr())
      invariant out == Popped(was, i, front).0 && l.Elements() == Popped(was, i, front).1
    {
      var b := PopNext(l, i, front, was);
      out := out + [b];
    }
    PopsAll(was, m, count, front);
  }

  lemma PopIs(was: seq<Bytes>, at: Time, count: nat, counted: bool, front: bool)
    ensures
      var e, r := Entry(ListV(was), at), Popped(was, count, front);
      PopFrom(Some(e), count, counted, front)
        == Effect(StoredOrDropped(e, ListV(r.1), r.1 == []),
                  if counted then Bulks(r.0) else Bulk(if r.0 == [] then [] else r.0[0]))
  {
  }

  // LPOP and RPOP on a list that is there; `empty` tells the handler to drop the key.
  method PopOff(l: Lists.List, ghost at: Time, count: nat, counted: bool, front: bool) returns (a: Answer, empty: bool)
    requires l.Valid()
    modifies l.Repr()
    ensures l.Valid() && l.Repr() <= old(l.Repr()) && empty == (l.Elements() == [])
    ensures
      var e := Entry(ListV(old(l.Elements())), at);
      PopFrom(Some(e), count, counted, front) == Effect(StoredOrDropped(e, ListV(l.Elements()), empty), a)
  {
    PopIs(l.Elements(), at, count, counted, front);
    var out := PopInto(l, count, front);
    var n := l.Len();
    empty := n == 0;
    a := if counted then Bulks(out) else Bulk(if out == [] then [] else out[0]);
  }

  // Hashes.

  lemma FieldsOneMore(m: map<Bytes, Bytes>, rest: seq<Bytes>, i: nat)
    requires i + 2 <= |rest| && i % 2 == 0
    ensures
      var was := FieldsSet(m, rest[..i]);
      && FieldsSet(m, rest[..i + 2]) == was[rest[i] := rest[i + 1]]
      && |FieldsSet(m, rest[..i + 2])| == |was| + if rest[i] in was then 0 else 1
  {
    assert rest[..i + 2][..i] == rest[..i];
    H.SizeAfterPut<Bytes>(FieldsSet(m, rest[..i]), rest[i], rest[i + 1]);
  }

  // One turn of HSET's loop.
  method SetNext(h: Hashes.Hash, rest: seq<Blob>, i: nat, ghost was: map<Bytes, Bytes>) returns (more: int)
    requires h.Valid() && i + 2 <= |rest| && i % 2 == 0 && h.contents == FieldsSet(was, rest[..i])
    modifies h
    ensures (i + 2) % 2 == 0 && h.Valid() && h.contents == FieldsSet(was, rest[..i + 2])
    ensures |FieldsSet(was, rest[..i + 2])| == |FieldsSet(was, rest[..i])| + more
  {
    FieldsOneMore(was, rest, i);
    var isNew := h.Set(rest[i], rest[i + 1]);
    more := if isNew then 1 else 0;
  }

  method SetInto(h: Hashes.Hash, rest: seq<Blob>) returns (added: int)
    requires h.Valid() && |rest| % 2 == 0
    modifies h
    ensures h.Valid() && h.contents == FieldsSet(old(h.contents), rest)
    ensures added == |h.contents| - |old(h.contents)|
  {
    ghost var was: map<Bytes, Bytes> := h.contents;
    added := 0;
    var i := 0;
    while i + 1 < |rest|
      invariant 0 <= i <= |rest| && i % 2 == 0 && h.Valid()
      invariant h.contents == FieldsSet(was, rest[..i]) && added == |FieldsSet(was, rest[..i])| - |was|
    {
      var more := SetNext(h, rest, i, was);
      added, i := added + more, i + 2;
    }
    assert rest[..|rest|] == rest;
  }

  // HSET, on the stored hash or on a new one.
  method HSet(h: Hashes.Hash, ghost found: bool, ghost at: Time, rest: seq<Blob>) returns (a: Answer)
    requires h.Valid() && |rest| % 2 == 0 && (!found ==> h.contents == map[] && at == ZERO_TIME)
    modifies h
    ensures h.Valid()
    ensures HSetEffect(EntryOf(found, HashV(old(h.contents)), at), rest) == Effect(Put(Entry(HashV(h.contents), at)), a)
  {
    var added := SetInto(h, rest);
    a := Int(added);
  }

  lemma WithoutOneMore(m: map<Bytes, Bytes>, rest: seq<Bytes>, i: nat)
    requires i < |rest|
    ensures
      var was := m - Elements(rest[..i]);
      && m - Elements(rest[..i + 1]) == was - {rest[i]}
      && |m - Elements(rest[..i + 1])| == |was| - if rest[i] in was then 1 else 0
  {
    H.DropOneMore<Bytes>(m, rest, i);
    H.SizeAfterDrop<Bytes>(m - Elements(rest[..i]), rest[i]);
  }

  method DeleteFrom(h: Hashes.Hash, rest: seq<Blob>) returns (removed: int)
    requires h.Valid()
    modifies h
    ensures h.Valid() && h.contents == old(h.contents) - Elements(rest)
    ensures removed == |old(h.contents)| - |h.contents|
  {
    ghost var was: map<Bytes, Bytes> := h.contents;
    removed := 0;
    for i := 0 to |rest|
      invariant h.Valid() && h.contents == was - Elements(rest[..i])
      invariant removed == |was| - |was - Elements(rest[..i])|
    {
      WithoutOneMore(was, rest, i);
      var gone := h.Delete(rest[i]);
      if gone {
        removed := removed + 1;
      }
    }
    assert rest[..|rest|] == rest;
  }

  // HDEL.
  method HDel(h: Hashes.Hash, ghost at: Time, rest: seq<Blob>) returns (a: Answer, empty: bool)
    requires h.Valid()
    modifies h
    ensures h.Valid() && empty == (h.contents == map[])
    ensures
      var e := Entry(HashV(old(h.contents)), at);
      HDelEffect(Some(e), rest) == Effect(StoredOrDropped(e, HashV(h.contents), empty), a)
  {
    var removed := DeleteFrom(h, rest);
    var n := h.Len();
    a, empty := Int(removed), n == 0;
  }

  // Sets.

  lemma MembersOneMore(s: set<Bytes>, rest: seq<Bytes>, i: nat)
    requires i < |rest|
    ensures
      var was := s + Elements(rest[..i]);
      && s + Elements(rest[..i + 1]) == was + {rest[i]}
      && |s + Elements(rest[..i + 1])| == |was| + if rest[i] in was then 0 else 1
  {
    H.ElementsOneMore(rest, i);
    var was := s + Elements(rest[..i]);
    assert s + Elements(rest[..i + 1]) == was + {rest[i]};
    if rest[i] in was {
      assert was + {rest[i]} == was;
    }
  }

  method AddTo(s: Sets.Set, rest: seq<Blob>) returns (added: int)
    requires s.Valid()
    modifies s
    ensures s.Valid() && s.contents == old(s.contents) + Elements(rest)
    ensures added == |s.contents| - |old(s.contents)|
  {
    ghost var was: set<Bytes> := s.contents;
    added := 0;
    for i := 0 to |rest|
      invariant s.Valid() && s.contents == was + Elements(rest[..i])
      invariant added == |was + Elements(rest[..i])| - |was|
    {
      MembersOneMore(was, rest, i);
      var isNew := s.Add(rest[i]);
      if isNew {
        added := added + 1;
      }
    }
    assert rest[..|rest|] == rest;
  }

  // SADD, on the stored set or on a new one.
  method SAdd(s: Sets.Set, ghost found: bool, ghost at: Time, rest: seq<Blob>) returns (a: Answer)
    requires s.Valid() && (!found ==> s.contents == {} && at == ZERO_TIME)
    modifies s
    ensures s.Valid()
    ensures SAddEffect(EntryOf(found, SetV(old(s.contents)), at), rest) == Effect(Put(Entry(SetV(s.contents), at)), a)
  {
    var added := AddTo(s, rest);
    a := Int(added);
  }

  method RemoveFrom(s: Sets.Set, rest: seq<Blob>) returns (removed: int)
    requires s.Valid()
    modifies s
    ensures s.Valid() && s.contents == old(s.contents) - Elements(rest)
    ensures removed == |old(s.contents)| - |s.contents|
  {
    ghost var was: set<Bytes> := s.contents;
    removed := 0;
    for i := 0 to |rest|
      invariant s.Valid() && s.contents == was - Elements(rest[..i]) && removed == |was| - |s.contents|
    {
      H.ElementsOneMore(rest, i);
      var gone := s.Remove(rest[i]);
      if gone {
        removed := removed + 1;
      }
    }
    assert rest[..|rest|] == rest;
  }

  // SREM.
  method SRem(s: Sets.Set, ghost at: Time, rest: seq<Blob>) returns (a: Answer, empty: bool)
    requires s.Valid()
    modifies s
    ensures s.Valid() && empty == (s.contents == {})
    ensures
      var e := Entry(SetV(old(s.contents)), at);
      SRemEffect(Some(e), rest) == Effect(StoredOrDropped(e, SetV(s.contents), empty), a)
  {
    var removed := RemoveFrom(s, rest);
    var n := s.Len();
    a, empty := Int(removed), n == 0;
  }

  // Sorted sets.

  // The bits that strconv.ParseFloat gave for each score argument.
  ghost predicate Parsed(args: seq<ScoredMember>, ps: seq<Pair>) {
    && |args| == |ps|
    && forall i :: 0 <= i < |ps| ==> args[i].member == ps[i].member && args[i].score.score == Some(Num(ps[i].score))
  }

  lemma {:induction false} LastScoresSet(was: map<Blob, int>, args: seq<ScoredMember>, ps: seq<Pair>)
    requires Parsed(args, ps)
    ensures AllScored(args) && ZSets.LastScores(was, ps) == ScoresSet(was, args)
    decreases |ps|
  {
    if ps != [] {
      LastScoresSet(was, args[..|ps| - 1], ps[..|ps| - 1]);
    }
  }

  lemma ZAddIs(found: bool, was: map<Bytes, int>, at: Time, args: seq<ScoredMember>, after: map<Bytes, int>, added: int)
    requires !found ==> was == map[] && at == ZERO_TIME
    requires AllScored(args) && after == ScoresSet(was, args) && added == |after| - |was|
    ensures ZAddEffect(EntryOf(found, ZSetV(was), at), args, false) == Effect(Put(Entry(ZSetV(after), at)), Int(added))
  {
  }

  // ZADD, on the stored sorted set or on a new one; scores are compared numerically.
  method ZAdd(z: ZSets.ZSet, ghost found: bool, ghost at: Time, ps: seq<Pair>, ghost args: seq<ScoredMember>)
    returns (a: Answer, ghost after: map<Bytes, int>)
    requires z.Valid() && Parsed(args, ps) && (!found ==> z.Contents() == map[] && at == ZERO_TIME)
    modifies z.Repr()
    ensures z.Valid() && fresh(z.Repr() - old(z.Repr())) && Numeric(z.Contents()) == after
    ensures ZAddEffect(EntryOf(found, ZSetV(Numeric(old(z.Contents()))), at), args, false)
      == Effect(Put(Entry(ZSetV(after), at)), a)
  {
    ghost var was := Numeric(z.Contents());
    LastScoresSet(was, args, ps);
    var added, _ := ZSets.AddAll(z, ps, was, z.Repr());
    after, a := Numeric(z.Contents()), Int(added);
    ZAddIs(found, was, at, args, after, added);
  }
}
