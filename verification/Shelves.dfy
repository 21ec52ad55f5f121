// A shard whose entries hold the collection objects themselves (internal/shard over
// internal/value): a command finds the object under its key, changes it in place, stores a
// new one or drops an emptied one, and every other object is left as it was.
module Shelves {
  import opened ByteStrings
  import opened Varints
  import opened Options
  import opened Decimals
  import opened Limits
  import opened Scores
  import opened Rankings
  import opened Commands
  import O = StoredObjects
  import Lists
  import Hashes
  import Sets
  import ZSets

  datatype Obj =
    | TextObj(text: Bytes)
    | ListObj(list: Lists.List)
    | HashObj(hash: Hashes.Hash)
    | SetObj(members: Sets.Set)
    | ZSetObj(zset: ZSets.ZSet)

  datatype Item = Item(obj: Obj, at: Time)

  // The thresholds for new collections of each kind.
  datatype AllLimits = AllLimits(list: Thresholds, hash: Thresholds, members: Thresholds, zset: Thresholds)

  // What an object that lies within r holds, when it is well formed.
  ghost function ListHeld(l: Lists.List, r: set<object>): (v: Option<Value>)
    reads r
  {
    if l in r && (l.full != null ==> l.full in r) && l.Repr() <= r && l.Valid() then Some(ListV(l.Elements())) else None
  }

  ghost function HashHeld(h: Hashes.Hash, r: set<object>): (v: Option<Value>)
    reads r
  {
    if h in r && h.Valid() then Some(HashV(h.contents)) else None
  }

  ghost function SetHeld(s: Sets.Set, r: set<object>): (v: Option<Value>)
    reads r
  {
    if s in r && s.Valid() then Some(SetV(s.contents)) else None
  }

  ghost function ZSetHeld(z: ZSets.ZSet, r: set<object>): (v: Option<Value>)
    reads r
  {
    if z in r && (z.full != null ==> z.full in r && z.full.order in r) && z.Repr() <= r && z.Valid()
    then Some(ZSetV(Numeric(z.Contents()))) else None
  }

  ghost function Held(o: Obj, r: set<object>): (v: Option<Value>)
    reads r
  {
    match o
    case TextObj(b) => Some(Str(b))
    case ListObj(l) => ListHeld(l, r)
    case HashObj(h) => HashHeld(h, r)
    case SetObj(s) => SetHeld(s, r)
    case ZSetObj(z) => ZSetHeld(z, r)
  }

  // An object's kind is the kind of what it holds.
  predicate SameKind(o: Obj, v: Value) {
    match o
    case TextObj(_) => v.Str?
    case ListObj(_) => v.ListV?
    case HashObj(_) => v.HashV?
    case SetObj(_) => v.SetV?
    case ZSetObj(_) => v.ZSetV?
  }

  // Each collection command on an object that occupies r: what it occupies and holds after.

  method PushIn(l: Lists.List, ghost r: set<object>, ghost was: Value, ghost found: bool, ghost at: Time,
        values: seq<Blob>, front: bool) returns (a: Answer, ghost grown: set<object>, ghost v: Value)
    requires Held(ListObj(l), r) == Some(was) && (!found ==> was == ListV([]) && at == ZERO_TIME)
    modifies r
    ensures r <= grown && fresh(grown - r) && Held(ListObj(l), grown) == Some(v)
    ensures PushEffect(O.EntryOf(found, was, at), values, front) == Effect(Put(Entry(v, at)), a)
  {
    a := O.Push(l, found, at, values, front);
    grown, v := r + l.Repr(), ListV(l.Elements());
  }

  method NewList(max: Thresholds, values: seq<Blob>, front: bool)
    returns (a: Answer, l: Lists.List, ghost r: set<object>, ghost v: Value)
    ensures fresh(r) && Held(ListObj(l), r) == Some(v)
    ensures PushEffect(None, values, front) == Effect(Put(Entry(v, ZERO_TIME)), a)
  {
    l := new Lists.List(max);
    a, r, v := PushIn(l, {l}, ListV([]), false, ZERO_TIME, values, front);
  }

  method PopIn(l: Lists.List, ghost r: set<object>, ghost was: Value, ghost at: Time, count: nat, counted: bool,
        front: bool) returns (a: Answer, empty: bool, ghost v: Value)
    requires Held(ListObj(l), r) == Some(was)
    modifies r
    ensures Held(ListObj(l), r) == Some(v)
    ensures var e := Entry(was, at); PopFrom(Some(e), count, counted, front) == Effect(StoredOrDropped(e, v, empty), a)
  {
    a, empty := O.PopOff(l, at, count, counted, front);
    v := ListV(l.Elements());
  }

  method LenIn(l: Lists.List, ghost r: set<object>, ghost was: Value) returns (n: nat)
    requires Held(ListObj(l), r) == Some(was)
    ensures was.ListV? && n == |was.elems|
  {
    n := l.Len();
  }

  method RangeIn(l: Lists.List, ghost r: set<object>, ghost was: Value, lo: int, hi: int) returns (out: seq<Bytes>)
    requires Held(ListObj(l), r) == Some(was)
    ensures was.ListV? && out == Selected(was.elems, lo, hi)
  {
    out := l.Range(lo, hi);
  }

  method HSetIn(h: Hashes.Hash, ghost r: set<object>, ghost was: Value, ghost found: bool, ghost at: Time,
        rest: seq<Blob>) returns (a: Answer, ghost v: Value)
    requires Held(HashObj(h), r) == Some(was) && |rest| % 2 == 0 && (!found ==> was == HashV(map[]) && at == ZERO_TIME)
    modifies r
    ensures Held(HashObj(h), r) == Some(v)
    ensures HSetEffect(O.EntryOf(found, was, at), rest) == Effect(Put(Entry(v, at)), a)
  {
    a := O.HSet(h, found, at, rest);
    v := HashV(h.contents);
  }

  method NewHash(max: Thresholds, rest: seq<Blob>)
    returns (a: Answer, h: Hashes.Hash, ghost r: set<object>, ghost v: Value)
    requires |rest| % 2 == 0
    ensures fresh(r) && Held(HashObj(h), r) == Some(v)
    ensures HSetEffect(None, rest) == Effect(Put(Entry(v, ZERO_TIME)), a)
  {
    h := new Hashes.Hash(max);
    r := {h};
    a, v := HSetIn(h, r, HashV(map[]), false, ZERO_TIME, rest);
  }

  method HDelIn(h: Hashes.Hash, ghost r: set<object>, ghost was: Value, ghost at: Time, rest: seq<Blob>)
    returns (a: Answer, empty: bool, ghost v: Value)
    requires Held(HashObj(h), r) == Some(was)
    modifies r
    ensures Held(HashObj(h), r) == Some(v)
    ensures var e := Entry(was, at); HDelEffect(Some(e), rest) == Effect(StoredOrDropped(e, v, empty), a)
  {
    a, empty := O.HDel(h, at, rest);
    v := HashV(h.contents);
  }

  method GetIn(h: Hashes.Hash, ghost r: set<object>, ghost was: Value, field: Blob) returns (v: Bytes, ok: bool)
    requires Held(HashObj(h), r) == Some(was)
    ensures was.HashV? && ok == (field in was.fields) && (ok ==> v == was.fields[field])
  {
    v, ok := h.Get(field);
  }

  method SAddIn(s: Sets.Set, ghost r: set<object>, ghost was: Value, ghost found: bool, ghost at: Time,
        rest: seq<Blob>) returns (a: Answer, ghost v: Value)
    requires Held(SetObj(s), r) == Some(was) && (!found ==> was == SetV({}) && at == ZERO_TIME)
    modifies r
    ensures Held(SetObj(s), r) == Some(v)
    ensures SAddEffect(O.EntryOf(found, was, at), rest) == Effect(Put(Entry(v, at)), a)
  {
    a := O.SAdd(s, found, at, rest);
    v := SetV(s.contents);
  }

  method NewSet(max: Thresholds, rest: seq<Blob>)
    returns (a: Answer, s: Sets.Set, ghost r: set<object>, ghost v: Value)
    ensures fresh(r) && Held(SetObj(s), r) == Some(v)
    ensures SAddEffect(None, rest) == Effect(Put(Entry(v, ZERO_TIME)), a)
  {
    s := new Sets.Set(max);
    r := {s};
    a, v := SAddIn(s, r, SetV({}), false, ZERO_TIME, rest);
  }

  method SRemIn(s: Sets.Set, ghost r: set<object>, ghost was: Value, ghost at: Time, rest: seq<Blob>)
    returns (a: Answer, empty: bool, ghost v: Value)
    requires Held(SetObj(s), r) == Some(was)
    modifies r
    ensures Held(SetObj(s), r) == Some(v)
    ensures var e := Entry(was, at); SRemEffect(Some(e), rest) == Effect(StoredOrDropped(e, v, empty), a)
  {
    a, empty := O.SRem(s, at, rest);
    v := SetV(s.contents);
  }

  method ZAddIn(z: ZSets.ZSet, ghost r: set<object>, ghost was: Value, ghost found: bool, ghost at: Time,
        ps: seq<Pair>, ghost args: seq<ScoredMember>) returns (a: Answer, ghost grown: set<object>, ghost v: Value)
    requires Held(ZSetObj(z), r) == Some(was) && O.Parsed(args, ps)
    requires !found ==> was == ZSetV(map[]) && at == ZERO_TIME
    modifies r
    ensures r <= grown && fresh(grown - r) && Held(ZSetObj(z), grown) == Some(v)
    ensures ZAddEffect(O.EntryOf(found, was, at), args, false) == Effect(Put(Entry(v, at)), a)
  {
    ghost var after;
    a, after := O.ZAdd(z, found, at, ps, args);
    grown, v := r + z.Repr(), ZSetV(after);
  }

  method BlankZSet(max: Thresholds) returns (z: ZSets.ZSet)
    ensures fresh(z) && Held(ZSetObj(z), {z}) == Some(ZSetV(map[]))
  {
    z := new ZSets.ZSet(max);
  }

  method NewZSet(max: Thresholds, ps: seq<Pair>, ghost args: seq<ScoredMember>)
    returns (a: Answer, z: ZSets.ZSet, ghost r: set<object>, ghost v: Value)
    requires O.Parsed(args, ps)
    ensures fresh(r) && Held(ZSetObj(z), r) == Some(v)
    ensures ZAddEffect(None, args, false) == Effect(Put(Entry(v, ZERO_TIME)), a)
  {
    z := BlankZSet(max);
    a, r, v := ZAddIn(z, {z}, ZSetV(map[]), false, ZERO_TIME, ps, args);
  }

  method ScoreIn(z: ZSets.ZSet, ghost r: set<object>, ghost was: Value, member: Blob) returns (n: int, ok: bool)
    requires Held(ZSetObj(z), r) == Some(was)
    ensures was.ZSetV? && ok == (member in was.scores) && (ok ==> n == was.scores[member])
  {
    var score;
    score, ok := z.Score(member);
    n := Num(score);
  }

  method RankedIn(z: ZSets.ZSet, ghost r: set<object>, ghost was: Value, lo: int, hi: int)
    returns (out: seq<Pair>)
    requires Held(ZSetObj(z), r) == Some(was)
    ensures was.ZSetV? && ZSets.ListsRanks(was.scores, lo, hi, ZSets.Numbered(out))
  {
    out := z.Range(lo, hi);
    ZSets.RangeByNumbers(z.Contents(), lo, hi, out);
  }

  // The entries, the objects of each, all of these objects, and what they hold.
  ghost predicate Hold(items: map<Bytes, Item>, parts: map<Bytes, set<object>>, region: set<object>, view: Keyspace)
    reads region
  {
    && parts.Keys == items.Keys == view.Keys
    && (forall k :: k in parts ==> parts[k] <= region)
    && (forall j, k :: j in parts && k in parts && j != k ==> parts[j] !! parts[k])
    && (forall k :: k in items ==> items[k].at == view[k].expireAt)
    && (forall k :: k in items ==> Held(items[k].obj, parts[k]) == Some(view[k].value))
  }

  // Apart from one entry, the others hold without its objects.
  lemma HoldOthers(items: map<Bytes, Item>, parts: map<Bytes, set<object>>, region: set<object>, view: Keyspace,
        key: Bytes)
    requires Hold(items, parts, region, view)
    ensures Hold(items - {key}, parts - {key}, if key in parts then region - parts[key] else region, view - {key})
  {
    var rest := if key in parts then region - parts[key] else region;
    forall k | k in parts - {key} ensures parts[k] <= rest {}
  }

  lemma HoldOneMore(items: map<Bytes, Item>, parts: map<Bytes, set<object>>, region: set<object>, view: Keyspace,
        key: Bytes, item: Item, r: set<object>, v: Value)
    requires Hold(items, parts, region, view) && key !in items && r !! region && Held(item.obj, r) == Some(v)
    ensures Hold(items[key := item], parts[key := r], region + r, view[key := Entry(v, item.at)])
  {
  }

  lemma Replaced<T>(m: map<Bytes, T>, key: Bytes, x: T)
    ensures (m - {key})[key := x] == m[key := x]
  {
  }

  // The collection commands, with arguments no longer than a slice can be.
  predicate Served(op: Op) {
    match op
    case Push(_, values, _) => AllBlobs(values)
    case Pop(_, _, _) => true
    case LRange(_, _, _) => true
    case LLen(_) => true
    case HSet(_, rest) => AllBlobs(rest)
    case HGet(_, field) => |field| < TWO63
    case HDel(_, rest) => AllBlobs(rest)
    case SAdd(_, rest) => AllBlobs(rest)
    case SRem(_, rest) => AllBlobs(rest)
    case ZAdd(_, _, _) => true
    case ZScore(_, member) => |member| < TWO63
    case _ => false
  }

  // The bits that the scores of a ZADD parse to come with it.
  ghost predicate Runnable(op: Op, ps: seq<Pair>) {
    Served(op) && (op.ZAdd? && !op.odd && AllScored(op.pairs) ==> O.Parsed(op.pairs, ps))
  }

  predicate AllBlobs(bs: seq<Bytes>) {
    forall i :: 0 <= i < |bs| ==> |bs[i]| < TWO63
  }

  class Shelf {
    var items: map<Bytes, Item>
    const limits: AllLimits
    ghost var parts: map<Bytes, set<object>>
    ghost var region: set<object>
    // The shard as Commands sees it.
    ghost var view: Keyspace

    ghost predicate Valid()
      reads this, region
    {
      this !in region && Hold(items, parts, region, view)
    }

    // The objects that stay as they are while the entry under `key` changes.
    ghost function Others(key: Bytes): (r: set<object>)
      reads this
    {
      if key in parts then region - parts[key] else region
    }

    ghost predicate ValidBut(key: Bytes)
      reads this, Others(key)
    {
      this !in region && Hold(items - {key}, parts - {key}, Others(key), view - {key})
    }

    constructor (limits: AllLimits)
      ensures Valid() && view == map[] && region == {}
    {
      this.limits := limits;
      items, parts, region, view := map[], map[], {}, map[];
    }

    method Find(key: Bytes, now: Time) returns (found: Option<Item>)
      requires Valid()
      ensures found.Some? <==> Lookup(view, key, now).Some?
      ensures found.Some? ==> key in items && found.value == items[key]
      ensures found.Some? ==> Lookup(view, key, now) == Some(view[key]) && SameKind(found.value.obj, view[key].value)
    {
      found := if key in items && !Gone(items[key].at, now) then Some(items[key]) else None;
    }

    lemma Parted(key: Bytes)
      requires Valid()
      ensures ValidBut(key) && parts.Keys == items.Keys == view.Keys
      ensures key in items ==> parts[key] <= region && items[key].at == view[key].expireAt
      ensures key in items ==> Held(items[key].obj, parts[key]) == Some(view[key].value)
    {
      HoldOthers(items, parts, region, view, key);
    }

    // Stores an object that occupies r and holds v.
    method Put(key: Bytes, item: Item, ghost r: set<object>, ghost v: Value)
      requires ValidBut(key) && Held(item.obj, r) == Some(v) && r !! Others(key) && this !in r
      modifies this
      ensures Valid() && region == old(Others(key)) + r && view == old(view)[key := Entry(v, item.at)]
    {
      HoldOneMore(items - {key}, parts - {key}, Others(key), view - {key}, key, item, r, v);
      Replaced(items, key, item);
      Replaced(parts, key, r);
      Replaced(view, key, Entry(v, item.at));
      region := Others(key) + r;
      items, parts, view := items[key := item], parts[key := r], view[key := Entry(v, item.at)];
      ghost var kept := Hold(items, parts, region, view);
      assert kept;
    }

    // Stores a new object, without a deadline.
    method PutNew(key: Bytes, o: Obj, ghost r: set<object>, ghost v: Value)
      requires Valid() && Held(o, r) == Some(v) && r !! region && this !in r
      modifies this
      ensures Valid() && region <= old(region) + r && view == old(view)[key := Entry(v, ZERO_TIME)]
    {
      Parted(key);
      Put(key, Item(o, ZERO_TIME), r, v);
    }

    method Drop(key: Bytes)
      requires ValidBut(key)
      modifies this
      ensures Valid() && region == old(Others(key)) && view == old(view) - {key}
    {
      region := Others(key);
      items, parts, view := items - {key}, parts - {key}, view - {key};
    }

    // An emptied collection is removed.
    method PutOrDrop(key: Bytes, item: Item, ghost v: Value, empty: bool)
      requires ValidBut(key) && key in parts && key in view && parts[key] <= region
      requires item.at == view[key].expireAt && Held(item.obj, parts[key]) == Some(v)
      modifies this
      ensures Valid() && region <= old(region)
      ensures view == Updated(old(view), key, StoredOrDropped(old(view)[key], v, empty))
    {
      if empty {
        Drop(key);
      } else {
        Put(key, item, parts[key], v);
      }
    }

    method PushNew(key: Bytes, values: seq<Blob>, front: bool) returns (a: Answer)
      requires Valid()
      modifies this
      ensures Valid() && fresh(region - old(region))
      ensures Outcome(view, a) == Applied(old(view), key, PushEffect(None, values, front))
    {
      var l;
      ghost var r, v;
      a, l, r, v := NewList(limits.list, values, front);
      PutNew(key, ListObj(l), r, v);
    }

    method PushStored(key: Bytes, l: Lists.List, values: seq<Blob>, front: bool) returns (a: Answer)
      requires Valid() && key in items && items[key].obj == ListObj(l)
      modifies this, region
      ensures Valid() && fresh(region - old(region))
      ensures Outcome(view, a) == Applied(old(view), key, PushEffect(Some(old(view)[key]), values, front))
    {
      Parted(key);
      ghost var r, v;
      a, r, v := PushIn(l, parts[key], view[key].value, true, items[key].at, values, front);
      Put(key, items[key], r, v);
    }

    // LPUSH and RPUSH.
    method Push(now: Time, key: Bytes, values: seq<Blob>, front: bool) returns (a: Answer)
      requires Valid()
      modifies this, region
      ensures Valid() && fresh(region - old(region))
      ensures Outcome(view, a) == Applied(old(view), key, PushEffect(Lookup(old(view), key, now), values, front))
    {
      var found := Find(key, now);
      if found.None? {
        a := PushNew(key, values, front);
      } else if found.value.obj.ListObj? {
        a := PushStored(key, found.value.obj.list, values, front);
      } else {
        a := Fail(WrongType);
      }
    }

    method PopStored(key: Bytes, l: Lists.List, count: nat, counted: bool, front: bool) returns (a: Answer)
      requires Valid() && key in items && items[key].obj == ListObj(l)
      modifies this, region
      ensures Valid() && fresh(region - old(region))
      ensures Outcome(view, a) == Applied(old(view), key, PopFrom(Some(old(view)[key]), count, counted, front))
    {
      Parted(key);
      var empty;
      ghost var v;
      a, empty, v := PopIn(l, parts[key], view[key].value, items[key].at, count, counted, front);
      PutOrDrop(key, items[key], v, empty);
    }

    method PopCounted(now: Time, key: Bytes, count: nat, counted: bool, front: bool) returns (a: Answer)
      requires Valid()
      modifies this, region
      ensures Valid() && fresh(region - old(region))
      ensures Outcome(view, a) == Applied(old(view), key, PopFrom(Lookup(old(view), key, now), count, counted, front))
    {
      var found := Find(key, now);
      if found.None? {
        a := Nil;
      } else if found.value.obj.ListObj? {
        a := PopStored(key, found.value.obj.list, count, counted, front);
      } else {
        a := Fail(WrongType);
      }
    }

    // LPOP and RPOP, with an optional count.
    method Pop(now: Time, key: Bytes, more: seq<Bytes>, front: bool) returns (a: Answer)
      requires Valid()
      modifies this, region
      ensures Valid() && fresh(region - old(region))
      ensures Outcome(view, a) == Applied(old(view), key, PopEffect(Lookup(old(view), key, now), more, front))
    {
      var count := if |more| == 1 then ParseInt(more[0]) else Some(1);
      if |more| > 1 {
        a := Fail(WrongArity);
      } else if count.None? {
        a := Fail(NotInteger);
      } else if count.value < 0 {
        a := Fail(NegativeCount);
      } else {
        a := PopCounted(now, key, count.value, |more| == 1, front);
      }
    }

    method HSetNew(key: Bytes, rest: seq<Blob>) returns (a: Answer)
      requires Valid() && |rest| % 2 == 0
      modifies this
      ensures Valid() && fresh(region - old(region))
      ensures Outcome(view, a) == Applied(old(view), key, HSetEffect(None, rest))
    {
      var h;
      ghost var r, v;
      a, h, r, v := NewHash(limits.hash, rest);
      PutNew(key, HashObj(h), r, v);
    }

    method HSetStored(key: Bytes, h: Hashes.Hash, rest: seq<Blob>) returns (a: Answer)
      requires Valid() && key in items && items[key].obj == HashObj(h) && |rest| % 2 == 0
      modifies this, region
      ensures Valid() && fresh(region - old(region))
      ensures Outcome(view, a) == Applied(old(view), key, HSetEffect(Some(old(view)[key]), rest))
    {
      Parted(key);
      ghost var v;
      a, v := HSetIn(h, parts[key], view[key].value, true, items[key].at, rest);
      Put(key, items[key], parts[key], v);
    }

    // HSET.
    method HSet(now: Time, key: Bytes, rest: seq<Blob>) returns (a: Answer)
      requires Valid()
      modifies this, region
      ensures Valid() && fresh(region - old(region))
      ensures Outcome(view, a) == Applied(old(view), key, HSetEffect(Lookup(old(view), key, now), rest))
    {
      if |rest| % 2 != 0 {
        return Fail(WrongArity);
      }
      var found := Find(key, now);
      if found.None? {
        a := HSetNew(key, rest);
      } else if found.value.obj.HashObj? {
        a := HSetStored(key, found.value.obj.hash, rest);
      } else {
        a := Fail(WrongType);
      }
    }

    method HDelStored(key: Bytes, h: Hashes.Hash, rest: seq<Blob>) returns (a: Answer)
      requires Valid() && key in items && items[key].obj == HashObj(h)
      modifies this, region
      ensures Valid() && fresh(region - old(region))
      ensures Outcome(view, a) == Applied(old(view), key, HDelEffect(Some(old(view)[key]), rest))
    {
      Parted(key);
      var empty;
      ghost var v;
      a, empty, v := HDelIn(h, parts[key], view[key].value, items[key].at, rest);
      PutOrDrop(key, items[key], v, empty);
    }

    // HDEL.
    method HDel(now: Time, key: Bytes, rest: seq<Blob>) returns (a: Answer)
      requires Valid()
      modifies this, region
      ensures Valid() && fresh(region - old(region))
      ensures Outcome(view, a) == Applied(old(view), key, HDelEffect(Lookup(old(view), key, now), rest))
    {
      var found := Find(key, now);
      if found.None? {
        a := Int(0);
      } else if found.value.obj.HashObj? {
        a := HDelStored(key, found.value.obj.hash, rest);
      } else {
        a := Fail(WrongType);
      }
    }

    method SAddNew(key: Bytes, rest: seq<Blob>) returns (a: Answer)
      requires Valid()
      modifies this
      ensures Valid() && fresh(region - old(region))
      ensures Outcome(view, a) == Applied(old(view), key, SAddEffect(None, rest))
    {
      var s;
      ghost var r, v;
      a, s, r, v := NewSet(limits.members, rest);
      PutNew(key, SetObj(s), r, v);
    }

    method SAddStored(key: Bytes, s: Sets.Set, rest: seq<Blob>) returns (a: Answer)
      requires Valid() && key in items && items[key].obj == SetObj(s)
      modifies this, region
      ensures Valid() && fresh(region - old(region))
      ensures Outcome(view, a) == Applied(old(view), key, SAddEffect(Some(old(view)[key]), rest))
    {
      Parted(key);
      ghost var v;
      a, v := SAddIn(s, parts[key], view[key].value, true, items[key].at, rest);
      Put(key, items[key], parts[key], v);
    }

    // SADD.
    method SAdd(now: Time, key: Bytes, rest: seq<Blob>) returns (a: Answer)
      requires Valid()
      modifies this, region
      ensures Valid() && fresh(region - old(region))
      ensures Outcome(view, a) == Applied(old(view), key, SAddEffect(Lookup(old(view), key, now), rest))
    {
      var found := Find(key, now);
      if found.None? {
        a := SAddNew(key, rest);
      } else if found.value.obj.SetObj? {
        a := SAddStored(key, found.value.obj.members, rest);
      } else {
        a := Fail(WrongType);
      }
    }

    method SRemStored(key: Bytes, s: Sets.Set, rest: seq<Blob>) returns (a: Answer)
      requires Valid() && key in items && items[key].obj == SetObj(s)
      modifies this, region
      ensures Valid() && fresh(region - old(region))
      ensures Outcome(view, a) == Applied(old(view), key, SRemEffect(Some(old(view)[key]), rest))
    {
      Parted(key);
      var empty;
      ghost var v;
      a, empty, v := SRemIn(s, parts[key], view[key].value, items[key].at, rest);
      PutOrDrop(key, items[key], v, empty);
    }

    // SREM.
    method SRem(now: Time, key: Bytes, rest: seq<Blob>) returns (a: Answer)
      requires Valid()
      modifies this, region
      ensures Valid() && fresh(region - old(region))
      ensures Outcome(view, a) == Applied(old(view), key, SRemEffect(Lookup(old(view), key, now), rest))
    {
      var found := Find(key, now);
      if found.None? {
        a := Int(0);
      } else if found.value.obj.SetObj? {
        a := SRemStored(key, found.value.obj.members, rest);
      } else {
        a := Fail(WrongType);
      }
    }

    method ZAddNew(key: Bytes, ps: seq<Pair>, ghost args: seq<ScoredMember>) returns (a: Answer)
      requires Valid() && O.Parsed(args, ps)
      modifies this
      ensures Valid() && fresh(region - old(region))
      ensures Outcome(view, a) == Applied(old(view), key, ZAddEffect(None, args, false))
    {
      var z;
      ghost var r, v;
      a, z, r, v := NewZSet(limits.zset, ps, args);
      PutNew(key, ZSetObj(z), r, v);
    }

    method ZAddStored(key: Bytes, z: ZSets.ZSet, ps: seq<Pair>, ghost args: seq<ScoredMember>) returns (a: Answer)
      requires Valid() && key in items && items[key].obj == ZSetObj(z) && O.Parsed(args, ps)
      modifies this, region
      ensures Valid() && fresh(region - old(region))
      ensures Outcome(view, a) == Applied(old(view), key, ZAddEffect(Some(old(view)[key]), args, false))
    {
      Parted(key);
      ghost var r, v;
      a, r, v := ZAddIn(z, parts[key], view[key].value, true, items[key].at, ps, args);
      Put(key, items[key], r, v);
    }

    // ZADD, once its scores are parsed.
    method ZAdd(now: Time, key: Bytes, ps: seq<Pair>, ghost args: seq<ScoredMember>) returns (a: Answer)
      requires Valid() && AllScored(args) && O.Parsed(args, ps)
      modifies this, region
      ensures Valid() && fresh(region - old(region))
      ensures Outcome(view, a) == Applied(old(view), key, ZAddEffect(Lookup(old(view), key, now), args, false))
    {
      var found := Find(key, now);
      if found.None? {
        a := ZAddNew(key, ps, args);
      } else if found.value.obj.ZSetObj? {
        a := ZAddStored(key, found.value.obj.zset, ps, args);
      } else {
        a := Fail(WrongType);
      }
    }

    method LLen(now: Time, key: Bytes) returns (a: Answer)
      requires Valid()
      ensures a == Single(now, Commands.LLen(key), Lookup(view, key, now)).answer
    {
      var found := Find(key, now);
      if found.None? {
        a := Int(0);
      } else if found.value.obj.ListObj? {
        Parted(key);
        var n := LenIn(found.value.obj.list, parts[key], view[key].value);
        a := Int(n);
      } else {
        a := Fail(WrongType);
      }
    }

    method LRange(now: Time, key: Bytes, start: Bytes, stop: Bytes) returns (a: Answer)
      requires Valid()
      ensures a == LRangeAnswer(Lookup(view, key, now), start, stop)
    {
      var lo, hi := ParseInt(start), ParseInt(stop);
      if lo.None? || hi.None? {
        return Fail(NotInteger);
      }
      var found := Find(key, now);
      if found.None? {
        a := Bulks([]);
      } else if found.value.obj.ListObj? {
        Parted(key);
        var out := RangeIn(found.value.obj.list, parts[key], view[key].value, lo.value, hi.value);
        a := Bulks(out);
      } else {
        a := Fail(WrongType);
      }
    }

    method HGet(now: Time, key: Bytes, field: Blob) returns (a: Answer)
      requires Valid()
      ensures a == Single(now, Commands.HGet(key, field), Lookup(view, key, now)).answer
    {
      var found := Find(key, now);
      if found.None? {
        a := Nil;
      } else if found.value.obj.HashObj? {
        Parted(key);
        var v, ok := GetIn(found.value.obj.hash, parts[key], view[key].value, field);
        a := if ok then Bulk(v) else Nil;
      } else {
        a := Fail(WrongType);
      }
    }

    method ZScore(now: Time, key: Bytes, member: Blob) returns (a: Answer)
      requires Valid()
      ensures a == Single(now, Commands.ZScore(key, member), Lookup(view, key, now)).answer
    {
      var found := Find(key, now);
      if found.None? {
        a := Nil;
      } else if found.value.obj.ZSetObj? {
        Parted(key);
        var n, ok := ScoreIn(found.value.obj.zset, parts[key], view[key].value, member);
        a := if ok then Score(n) else Nil;
      } else {
        a := Fail(WrongType);
      }
    }

    // ZRANGE, with the pairs to list when there is a sorted set.
    method ZRange(now: Time, key: Bytes, start: Bytes, stop: Bytes, withScores: Option<bool>)
      returns (error: Option<Answer>, out: seq<Pair>)
      requires Valid()
      ensures var a := ZRangeAnswer(Lookup(view, key, now), start, stop, withScores);
        if a.Ranked? then error == None && ZSets.ListsRanks(a.scores, a.start, a.stop, ZSets.Numbered(out))
        else error == Some(a)
    {
      error, out := None, [];
      var lo, hi := ParseInt(start), ParseInt(stop);
      if withScores.None? {
        return Some(Fail(Syntax)), [];
      } else if lo.None? || hi.None? {
        return Some(Fail(NotInteger)), [];
      }
      var found := Find(key, now);
      if found.None? {
        error := Some(Bulks([]));
      } else if found.value.obj.ZSetObj? {
        Parted(key);
        out := RankedIn(found.value.obj.zset, parts[key], view[key].value, lo.value, hi.value);
      } else {
        error := Some(Fail(WrongType));
      }
    }

    method Run(now: Time, op: Op, ps: seq<Pair>) returns (a: Answer)
      requires Valid() && Runnable(op, ps)
      modifies this, region
      ensures Valid() && fresh(region - old(region))
      ensures Outcome(view, a) == Exec(now, op, old(view))
    {
      match op
      case Push(key, values, front) => a := Push(now, key, values, front);
      case Pop(key, more, front) => a := Pop(now, key, more, front);
      case LRange(key, start, stop) => a := LRange(now, key, start, stop);
      case LLen(key) => a := LLen(now, key);
      case HSet(key, rest) => a := HSet(now, key, rest);
      case HGet(key, field) => a := HGet(now, key, field);
      case HDel(key, rest) => a := HDel(now, key, rest);
      case SAdd(key, rest) => a := SAdd(now, key, rest);
      case SRem(key, rest) => a := SRem(now, key, rest);
      case ZAdd(key, pairs, odd) =>
        if odd {
          a := Fail(WrongArity);
        } else if !AllScored(pairs) {
          a := Fail(NotFloat);
        } else {
          a := ZAdd(now, key, ps, pairs);
        }
      case ZScore(key, member) => a := ZScore(now, key, member);
    }
  }
}
