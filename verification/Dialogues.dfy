// Conversations with the server: a request, anything that other keys' commands and expiry
// sweeps do meanwhile, and the reply to a later request on the same key. Requests are
// argument lists as they arrive.
module Dialogues {
  import opened ByteStrings
  import opened Options
  import opened Decimals
  import opened Limits
  import opened Commands
  import opened Expiry
  import opened Registry
  import opened Scores
  import opened Verbs
  import Laws
  import ZSets
  import N = Names

  // A stretch of the run in which nothing names the key, up to a later clock reading.
  ghost predicate Meanwhile(ks: Keyspace, run: seq<Event>, key: Bytes, later: Time) {
    SweepsExpired(ks, run) && Past(run, later) && forall i :: 0 <= i < |run| ==> Laws.Spares(run[i], key)
  }

  lemma {:induction false} Stays(ks: Keyspace, run: seq<Event>, key: Bytes, later: Time)
    requires Meanwhile(ks, run, key, later)
    ensures Live(State(ks, run), key, later) <==> Live(ks, key, later)
    ensures Live(ks, key, later) ==> State(ks, run)[key] == ks[key]
  {
    Laws.Untouched(ks, run, key, later);
    LookupIs(ks, key, later);
    LookupIs(State(ks, run), key, later);
  }

  // Strings.

  lemma {:induction false} SetThenGet(t: Registry.Text, now: Time, set': Bytes, get: Bytes, k: Bytes, v: Bytes,
        ks: Keyspace, run: seq<Event>, later: Time)
    requires Meanwhile(Ask(t, now, N.Set, [set', k, v], ks).keyspace, run, k, later)
    ensures Ask(t, later, N.Get, [get, k], State(Ask(t, now, N.Set, [set', k, v], ks).keyspace, run)).answer == Bulk(v)
  {
    var after := Ask(t, now, N.Set, [set', k, v], ks).keyspace;
    SetReplies(t, now, set', k, v, ks);
    Stays(after, run, k, later);
    GetReplies(t, later, get, k, State(after, run));
  }

  // INCR answers one more than what was there, nothing counting as zero, and GET then answers
  // that number in decimal until the deadline the key had.
  lemma {:induction false} IncrThenGet(t: Registry.Text, now: Time, incr: Bytes, get: Bytes, k: Bytes, n: int,
        ks: Keyspace, run: seq<Event>, later: Time)
    requires Counts(ks, k, now, n) && n < 0x7FFF_FFFF_FFFF_FFFF
    requires Meanwhile(Ask(t, now, N.Incr, [incr, k], ks).keyspace, run, k, later)
    ensures var r, at := Ask(t, now, N.Incr, [incr, k], ks), Deadline(ks, k, now);
      && r.answer == Int(n + 1)
      && Ask(t, later, N.Get, [get, k], State(r.keyspace, run)).answer
        == if at == ZERO_TIME || later < at then Bulk(FormatInt(n + 1)) else Nil
  {
    var after := Ask(t, now, N.Incr, [incr, k], ks).keyspace;
    IncrReplies(t, now, incr, k, ks, n);
    Stays(after, run, k, later);
    GetReplies(t, later, get, k, State(after, run));
  }

  lemma {:induction false} DecrThenGet(t: Registry.Text, now: Time, decr: Bytes, get: Bytes, k: Bytes, n: int,
        ks: Keyspace, run: seq<Event>, later: Time)
    requires Counts(ks, k, now, n) && n > -0x8000_0000_0000_0000
    requires Meanwhile(Ask(t, now, N.Decr, [decr, k], ks).keyspace, run, k, later)
    ensures var r, at := Ask(t, now, N.Decr, [decr, k], ks), Deadline(ks, k, now);
      && r.answer == Int(n - 1)
      && Ask(t, later, N.Get, [get, k], State(r.keyspace, run)).answer
        == if at == ZERO_TIME || later < at then Bulk(FormatInt(n - 1)) else Nil
  {
    var after := Ask(t, now, N.Decr, [decr, k], ks).keyspace;
    IncrReplies(t, now, decr, k, ks, n);
    Stays(after, run, k, later);
    GetReplies(t, later, get, k, State(after, run));
  }

  // Deadlines.

  // EXPIRE on a live key: it can be read until the seconds are over, and from then on it is
  // gone. Only an instant in the year 1, which the program takes for no deadline, lasts.
  lemma {:induction false} ExpireThenGet(t: Registry.Text, now: Time, expire: Bytes, get: Bytes, k: Bytes, secs: Bytes,
        n: int, v: Bytes, ks: Keyspace, run: seq<Event>, later: Time)
    requires Live(ks, k, now) && ks[k].value == Str(v) && ParseInt(secs) == Some(n)
    requires -0x8000_0000_0000_0000 <= n * 1_000_000_000 < 0x8000_0000_0000_0000
    requires Meanwhile(Ask(t, now, N.Expire, [expire, k, secs], ks).keyspace, run, k, later)
    ensures var r, at := Ask(t, now, N.Expire, [expire, k, secs], ks), now + n * 1_000_000_000;
      && r.answer == Int(1)
      && Ask(t, later, N.Get, [get, k], State(r.keyspace, run)).answer
        == if later < at || at == ZERO_TIME then Bulk(v) else Nil
  {
    var after := Ask(t, now, N.Expire, [expire, k, secs], ks).keyspace;
    ExpireReplies(t, now, expire, k, secs, ks);
    Stays(after, run, k, later);
    GetReplies(t, later, get, k, State(after, run));
  }

  // PEXPIREAT gives the deadline itself, in milliseconds since the epoch.
  lemma {:induction false} PExpireAtThenGet(t: Registry.Text, now: Time, expire: Bytes, get: Bytes, k: Bytes, ms: Bytes,
        n: int, v: Bytes, ks: Keyspace, run: seq<Event>, later: Time)
    requires Live(ks, k, now) && ks[k].value == Str(v) && ParseInt(ms) == Some(n)
    requires Meanwhile(Ask(t, now, N.PExpireAt, [expire, k, ms], ks).keyspace, run, k, later)
    ensures var r, at := Ask(t, now, N.PExpireAt, [expire, k, ms], ks), n * 1_000_000;
      && r.answer == Int(1)
      && Ask(t, later, N.Get, [get, k], State(r.keyspace, run)).answer
        == if later < at || at == ZERO_TIME then Bulk(v) else Nil
  {
    var after := Ask(t, now, N.PExpireAt, [expire, k, ms], ks).keyspace;
    PExpireAtReplies(t, now, expire, k, ms, ks);
    Stays(after, run, k, later);
    GetReplies(t, later, get, k, State(after, run));
  }

  // After PERSIST a live key is there for good.
  lemma {:induction false} PersistThenGet(t: Registry.Text, now: Time, persist: Bytes, get: Bytes, k: Bytes, v: Bytes,
        ks: Keyspace, run: seq<Event>, later: Time)
    requires Live(ks, k, now) && ks[k].value == Str(v)
    requires Meanwhile(Ask(t, now, N.Persist, [persist, k], ks).keyspace, run, k, later)
    ensures var after := State(Ask(t, now, N.Persist, [persist, k], ks).keyspace, run);
      Ask(t, later, N.Get, [get, k], after).answer == Bulk(v) && Ask(t, later, N.Ttl, [get, k], after).answer == Int(-1)
  {
    var after := Ask(t, now, N.Persist, [persist, k], ks).keyspace;
    PersistReplies(t, now, persist, k, ks);
    Stays(after, run, k, later);
    GetReplies(t, later, get, k, State(after, run));
    TtlReplies(t, later, get, k, State(after, run));
  }

  // A deleted key is gone, whatever it held.
  lemma {:induction false} DelThenAsk(t: Registry.Text, now: Time, del: Bytes, name: Bytes, keys: seq<Bytes>, k: Bytes,
        ks: Keyspace, run: seq<Event>, later: Time)
    requires k in keys && Meanwhile(Ask(t, now, N.Del, [del] + keys, ks).keyspace, run, k, later)
    ensures var after := State(Ask(t, now, N.Del, [del] + keys, ks).keyspace, run);
      && Ask(t, later, N.Get, [name, k], after).answer == Nil
      && Ask(t, later, N.Ttl, [name, k], after).answer == Int(-2)
      && Ask(t, later, N.Type, [name, k], after).answer == Commands.Text("none")
  {
    var after := Ask(t, now, N.Del, [del] + keys, ks).keyspace;
    DelReplies(t, now, del, keys, ks);
    Stays(after, run, k, later);
    GetReplies(t, later, name, k, State(after, run));
    TtlReplies(t, later, name, k, State(after, run));
    TypeReplies(t, later, name, k, State(after, run));
  }

  // Lists.

  // What a key whose list was just stored answers later, while it is live.
  ghost predicate LaterList(ks: Keyspace, k: Bytes, later: Time, l: seq<Bytes>) {
    Live(ks, k, later) && ks[k].value == ListV(l)
  }

  lemma {:induction false} PushStays(ks: Keyspace, k: Bytes, l: seq<Bytes>, at: Time, run: seq<Event>, later: Time)
    requires Meanwhile(ks[k := Entry(ListV(l), at)], run, k, later) && (at == ZERO_TIME || later < at)
    ensures LaterList(State(ks[k := Entry(ListV(l), at)], run), k, later, l)
  {
    Stays(ks[k := Entry(ListV(l), at)], run, k, later);
  }

  // LPUSH then LPOP: the last value pushed comes out; RPOP gives the oldest, the first value
  // pushed if the list was new.
  lemma {:induction false} LPushThenPop(t: Registry.Text, now: Time, push: Bytes, pop: Bytes, k: Bytes, xs: seq<Bytes>,
        ks: Keyspace, run: seq<Event>, later: Time)
    requires xs != [] && ListOrNone(ks, k, now)
    requires Meanwhile(Ask(t, now, N.LPush, [push, k] + xs, ks).keyspace, run, k, later)
    requires Deadline(ks, k, now) == ZERO_TIME || later < Deadline(ks, k, now)
    ensures var after, l := State(Ask(t, now, N.LPush, [push, k] + xs, ks).keyspace, run), ListIn(ks, k, now);
      && Ask(t, later, N.LPop, [pop, k], after).answer == Bulk(xs[|xs| - 1])
      && Ask(t, later, N.RPop, [pop, k], after).answer == Bulk(if l == [] then xs[0] else l[|l| - 1])
      && Ask(t, later, N.LLen, [pop, k], after).answer == Int(|xs| + |l|)
  {
    var l' := LPushReplies(t, now, push, k, xs, ks);
    EndsOf(ListIn(ks, k, now), xs, l');
    PushStays(ks, k, l', Deadline(ks, k, now), run, later);
    var after := State(Ask(t, now, N.LPush, [push, k] + xs, ks).keyspace, run);
    PopReplies(t, later, pop, k, after, l');
    LLenReplies(t, later, pop, k, after);
  }

  lemma EndsOf(l: seq<Bytes>, xs: seq<Bytes>, l': seq<Bytes>)
    requires xs != [] && |l'| == |xs| + |l| && (forall i :: 0 <= i < |xs| ==> l'[i] == xs[|xs| - 1 - i])
    requires forall i :: 0 <= i < |l| ==> l'[|xs| + i] == l[i]
    ensures l' != [] && l'[0] == xs[|xs| - 1] && l'[|l'| - 1] == if l == [] then xs[0] else l[|l| - 1]
  {
    if l != [] {
      assert l'[|xs| + (|l| - 1)] == l[|l| - 1];
    }
  }

  lemma NewEndsOf(l: seq<Bytes>, xs: seq<Bytes>, l': seq<Bytes>)
    requires xs != [] && |l'| == |l| + |xs| && forall i :: 0 <= i < |l| ==> l'[i] == l[i]
    requires forall i :: 0 <= i < |xs| ==> l'[|l| + i] == xs[i]
    ensures l' != [] && l'[|l'| - 1] == xs[|xs| - 1] && l'[0] == if l == [] then xs[0] else l[0]
  {
    assert l'[|l| + (|xs| - 1)] == xs[|xs| - 1];
    assert l'[|l| + 0] == xs[0];
  }

  // RPUSH then RPOP: the last value pushed comes out; LPOP gives the oldest.
  lemma {:induction false} RPushThenPop(t: Registry.Text, now: Time, push: Bytes, pop: Bytes, k: Bytes, xs: seq<Bytes>,
        ks: Keyspace, run: seq<Event>, later: Time)
    requires xs != [] && ListOrNone(ks, k, now)
    requires Meanwhile(Ask(t, now, N.RPush, [push, k] + xs, ks).keyspace, run, k, later)
    requires Deadline(ks, k, now) == ZERO_TIME || later < Deadline(ks, k, now)
    ensures var after, l := State(Ask(t, now, N.RPush, [push, k] + xs, ks).keyspace, run), ListIn(ks, k, now);
      && Ask(t, later, N.RPop, [pop, k], after).answer == Bulk(xs[|xs| - 1])
      && Ask(t, later, N.LPop, [pop, k], after).answer == Bulk(if l == [] then xs[0] else l[0])
      && Ask(t, later, N.LLen, [pop, k], after).answer == Int(|l| + |xs|)
  {
    var l' := RPushReplies(t, now, push, k, xs, ks);
    NewEndsOf(ListIn(ks, k, now), xs, l');
    PushStays(ks, k, l', Deadline(ks, k, now), run, later);
    var after := State(Ask(t, now, N.RPush, [push, k] + xs, ks).keyspace, run);
    PopReplies(t, later, pop, k, after, l');
    LLenReplies(t, later, pop, k, after);
  }

  // The digits that the following requests spell.
  lemma SmallNumbers()
    ensures ParseInt([48]) == Some(0) && ParseInt([49]) == Some(1) && ParseInt([50]) == Some(2)
    ensures ParseInt([45, 49]) == Some(-1) && ParseInt([45, 50]) == Some(-2)
  {
    IntRoundTrip(0);
    IntRoundTrip(1);
    IntRoundTrip(2);
    IntRoundTrip(-1);
    IntRoundTrip(-2);
    assert FormatInt(-1) == [45, 49] && FormatInt(-2) == [45, 50];
  }

  // Three values in a row on a new list, and stretches of it by position: RPUSH keeps their
  // order, LPUSH turns it round, and LRANGE takes the first position first.
  lemma {:induction false} PushThenRange(t: Registry.Text, now: Time, name: Bytes, k: Bytes,
        a: Bytes, b: Bytes, c: Bytes,
        ks: Keyspace)
    requires !Live(ks, k, now)
    ensures var after := Ask(t, now, N.RPush, [name, k] + [a, b, c], ks).keyspace;
      && Ask(t, now, N.LRange, [name, k, [48], [45, 49]], after).answer == Bulks([a, b, c])
      && Ask(t, now, N.LRange, [name, k, [49], [50]], after).answer == Bulks([b, c])
      && Ask(t, now, N.LRange, [name, k, [45, 50], [45, 49]], after).answer == Bulks([b, c])
      && Ask(t, now, N.LRange, [name, k, [50], [49]], after).answer == Bulks([])
    ensures var after := Ask(t, now, N.LPush, [name, k] + [a, b, c], ks).keyspace;
      && Ask(t, now, N.LRange, [name, k, [48], [45, 49]], after).answer == Bulks([c, b, a])
      && Ask(t, now, N.LRange, [name, k, [49], [50]], after).answer == Bulks([b, a])
  {
    var l := RPushReplies(t, now, name, k, [a, b, c], ks);
    var m := LPushReplies(t, now, name, k, [a, b, c], ks);
    assert l == [a, b, c] && m == [c, b, a];
    RangesOfThree(t, now, name, k, a, b, c, ks[k := Entry(ListV(l), ZERO_TIME)]);
    RangesOfThree(t, now, name, k, c, b, a, ks[k := Entry(ListV(m), ZERO_TIME)]);
  }

  lemma RangesOfThree(t: Registry.Text, now: Time, name: Bytes, k: Bytes, a: Bytes, b: Bytes, c: Bytes, ks: Keyspace)
    requires k in ks && ks[k] == Entry(ListV([a, b, c]), ZERO_TIME)
    ensures Ask(t, now, N.LRange, [name, k, [48], [45, 49]], ks).answer == Bulks([a, b, c])
    ensures Ask(t, now, N.LRange, [name, k, [49], [50]], ks).answer == Bulks([b, c])
    ensures Ask(t, now, N.LRange, [name, k, [45, 50], [45, 49]], ks).answer == Bulks([b, c])
    ensures Ask(t, now, N.LRange, [name, k, [50], [49]], ks).answer == Bulks([])
  {
    SmallNumbers();
    Window(t, now, name, k, [48], [45, 49], ks, [a, b, c], [a, b, c]);
    Window(t, now, name, k, [49], [50], ks, [a, b, c], [b, c]);
    Window(t, now, name, k, [45, 50], [45, 49], ks, [a, b, c], [b, c]);
    Window(t, now, name, k, [50], [49], ks, [a, b, c], []);
  }

  lemma Window(t: Registry.Text, now: Time, name: Bytes, k: Bytes, i: Bytes, j: Bytes, ks: Keyspace,
        l: seq<Bytes>, out: seq<Bytes>)
    requires k in ks && ks[k] == Entry(ListV(l), ZERO_TIME) && ParseInt(i).Some? && ParseInt(j).Some?
    requires IsWindow(l, ParseInt(i).value, ParseInt(j).value, out)
    ensures Ask(t, now, N.LRange, [name, k, i, j], ks).answer == Bulks(out)
  {
    LRangeReplies(t, now, name, k, i, j, ks);
    WindowUnique(l, ParseInt(i).value, ParseInt(j).value, Ask(t, now, N.LRange, [name, k, i, j], ks).answer.elems, out);
  }

  // Hashes, sets and sorted sets.

  lemma {:induction false} HSetThenGet(t: Registry.Text, now: Time, hset: Bytes, hget: Bytes, k: Bytes,
        f: Bytes, v: Bytes,
        ks: Keyspace, run: seq<Event>, later: Time)
    requires HashOrNone(ks, k, now) && Meanwhile(Ask(t, now, N.HSet, [hset, k] + [f, v], ks).keyspace, run, k, later)
    ensures var r, at := Ask(t, now, N.HSet, [hset, k] + [f, v], ks), Deadline(ks, k, now);
      && r.answer == Int(if f in HashIn(ks, k, now) then 0 else 1)
      && Ask(t, later, N.HGet, [hget, k, f], State(r.keyspace, run)).answer
        == if at == ZERO_TIME || later < at then Bulk(v) else Nil
  {
    var m' := HSetReplies(t, now, hset, k, [f, v], ks);
    var after := Ask(t, now, N.HSet, [hset, k] + [f, v], ks).keyspace;
    assert Evens([f, v]) == [f] && Odds([f, v]) == [v];
    assert LastAt([f], 0, f);
    OneNew(HashIn(ks, k, now), f);
    Stays(after, run, k, later);
    HGetReplies(t, later, hget, k, f, State(after, run));
  }

  lemma OneNew<T>(m: map<Bytes, T>, x: Bytes)
    ensures |NewAmong(m, [x])| == if x in m then 0 else 1
  {
    assert NewAmong(m, [x]) == if x in m then {} else {x};
  }

  lemma {:induction false} HDelThenGet(t: Registry.Text, now: Time, hdel: Bytes, hget: Bytes, k: Bytes, f: Bytes,
        ks: Keyspace, run: seq<Event>, later: Time)
    requires now <= later && HashOrNone(ks, k, now)
    requires Meanwhile(Ask(t, now, N.HDel, [hdel, k] + [f], ks).keyspace, run, k, later)
    ensures var r := Ask(t, now, N.HDel, [hdel, k] + [f], ks);
      && r.answer == Int(if f in HashIn(ks, k, now) then 1 else 0)
      && Ask(t, later, N.HGet, [hget, k, f], State(r.keyspace, run)).answer == Nil
  {
    var m := HashIn(ks, k, now);
    var m' := HDelReplies(t, now, hdel, k, [f], ks);
    var after := Ask(t, now, N.HDel, [hdel, k] + [f], ks).keyspace;
    assert (set x | x in [f] && x in m) == if f in m then {f} else {};
    Stays(after, run, k, later);
    HGetReplies(t, later, hget, k, f, State(after, run));
  }

  lemma {:induction false} SAddThenMembers(t: Registry.Text, now: Time, sadd: Bytes, smembers: Bytes, k: Bytes,
        xs: seq<Bytes>, ks: Keyspace, run: seq<Event>, later: Time)
    requires xs != [] && SetOrNone(ks, k, now)
    requires Meanwhile(Ask(t, now, N.SAdd, [sadd, k] + xs, ks).keyspace, run, k, later)
    requires Deadline(ks, k, now) == ZERO_TIME || later < Deadline(ks, k, now)
    ensures
      var a := Ask(t, later, N.SMembers, [smembers, k], State(Ask(t, now, N.SAdd, [sadd, k] + xs, ks).keyspace, run))
      .answer;
      a.Members? && forall x :: x in a.members <==> x in SetIn(ks, k, now) || x in xs
  {
    var s' := SAddReplies(t, now, sadd, k, xs, ks);
    var after := Ask(t, now, N.SAdd, [sadd, k] + xs, ks).keyspace;
    Stays(after, run, k, later);
    SMembersReplies(t, later, smembers, k, State(after, run));
  }

  lemma {:induction false} SRemThenMembers(t: Registry.Text, now: Time, srem: Bytes, smembers: Bytes, k: Bytes,
        xs: seq<Bytes>, ks: Keyspace, run: seq<Event>, later: Time)
    requires now <= later && xs != [] && SetOrNone(ks, k, now)
    requires Meanwhile(Ask(t, now, N.SRem, [srem, k] + xs, ks).keyspace, run, k, later)
    requires Deadline(ks, k, now) == ZERO_TIME || later < Deadline(ks, k, now)
    ensures
      var a := Ask(t, later, N.SMembers, [smembers, k], State(Ask(t, now, N.SRem, [srem, k] + xs, ks).keyspace, run))
      .answer;
      a.Members? && forall x :: x in a.members <==> x in SetIn(ks, k, now) && x !in xs
  {
    var s' := SRemReplies(t, now, srem, k, xs, ks);
    var after := Ask(t, now, N.SRem, [srem, k] + xs, ks).keyspace;
    Stays(after, run, k, later);
    SMembersReplies(t, later, smembers, k, State(after, run));
  }

  lemma {:induction false} ZAddThenScore(t: Registry.Text, now: Time, zadd: Bytes, zscore: Bytes, k: Bytes,
        score: Bytes, m: Bytes, ks: Keyspace, run: seq<Event>, later: Time)
    requires ZSetOrNone(ks, k, now) && t.float(score).Some?
    requires Meanwhile(Ask(t, now, N.ZAdd, [zadd, k] + [score, m], ks).keyspace, run, k, later)
    ensures var r, at := Ask(t, now, N.ZAdd, [zadd, k] + [score, m], ks), Deadline(ks, k, now);
      && r.answer == Int(if m in ZSetIn(ks, k, now) then 0 else 1)
      && Ask(t, later, N.ZScore, [zscore, k, m], State(r.keyspace, run)).answer
        == if at == ZERO_TIME || later < at then Score(Num(t.float(score).value)) else Nil
  {
    assert Evens([score, m]) == [score] && Odds([score, m]) == [m];
    var m' := ZAddReplies(t, now, zadd, k, [score, m], ks);
    var after := Ask(t, now, N.ZAdd, [zadd, k] + [score, m], ks).keyspace;
    assert LastAt([m], 0, m);
    OneNew(ZSetIn(ks, k, now), m);
    Stays(after, run, k, later);
    ZScoreReplies(t, later, zscore, k, m, State(after, run));
  }

  // Two members added to a new key: ZRANGE from 0 to -1 ranks them all, and what such a
  // ranking lists is the member with the smaller number, then the other.
  lemma ZAddThenRange(t: Registry.Text, now: Time, name: Bytes, k: Bytes, x: Bytes, a: Bytes, y: Bytes, b: Bytes,
        ks: Keyspace, out: seq<(Bytes, int)>)
    requires !Live(ks, k, now) && a != b && t.float(x).Some? && t.float(y).Some?
    requires Num(t.float(x).value) < Num(t.float(y).value)
    ensures var r := Ask(t, now, N.ZRange, [name, k, [48], [45, 49]] + [],
                         Ask(t, now, N.ZAdd, [name, k] + [x, a, y, b], ks).keyspace).answer;
      && r.Ranked? && !r.withScores
      && (ZSets.ListsRanks(r.scores, r.start, r.stop, out) ==>
            out == [(a, Num(t.float(x).value)), (b, Num(t.float(y).value))])
  {
    var xs := [x, a, y, b];
    assert Evens(xs) == [x, y] && Odds(xs) == [a, b];
    var m := ZAddReplies(t, now, name, k, xs, ks);
    var after := Ask(t, now, N.ZAdd, [name, k] + xs, ks).keyspace;
    TwoAdded(m, a, b, Num(t.float(x).value), Num(t.float(y).value), Numbers(t, [x, y]));
    SmallNumbers();
    ZRangeReplies(t, now, name, k, [48], [45, 49], [], after);
    if ZSets.ListsRanks(m, 0, -1, out) {
      ZSets.TwoListed(a, b, Num(t.float(x).value), Num(t.float(y).value), out);
    }
  }

  lemma TwoAdded(m: map<Bytes, int>, a: Bytes, b: Bytes, x: int, y: int, numbers: seq<int>)
    requires a != b && numbers == [x, y] && LastWins(map[], [a, b], numbers, m)
    ensures m == map[a := x, b := y]
  {
    assert LastAt([a, b], 0, a) && LastAt([a, b], 1, b);
  }

  // FLUSHDB: no key answers any more.
  lemma FlushThenAsk(t: Registry.Text, now: Time, flush: seq<Bytes>, name: Bytes, k: Bytes, ks: Keyspace, later: Time)
    requires |flush| >= 1
    ensures var after := Ask(t, now, N.FlushDB, flush, ks).keyspace;
      && Ask(t, later, N.Get, [name, k], after).answer == Nil
      && Ask(t, later, N.Type, [name, k], after).answer == Commands.Text("none")
  {
    FlushReplies(t, now, flush, ks);
    GetReplies(t, later, name, k, map[]);
    TypeReplies(t, later, name, k, map[]);
  }
}
