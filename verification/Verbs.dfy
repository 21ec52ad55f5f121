// What each command of the table answers and leaves behind, from its arguments as they
// arrive: stated on the stored data position by position, apart from the handlers' own terms.
module Verbs {
  import opened ByteStrings
  import opened Options
  import opened Decimals
  import opened Limits
  import opened Commands
  import opened Registry
  import opened Scores
  import Laws
  import N = Names

  // A command run on its arguments, or refused by their number.
  function Ask(t: Registry.Text, now: Time, v: N.Verb, args: seq<Bytes>, ks: Keyspace): (r: Outcome) {
    if Table(v).Accepts(|args|) then Exec(now, Parse(t, v, args), ks) else Outcome(ks, Fail(WrongArity))
  }

  // A key is there until its deadline, if it has one.
  predicate Live(ks: Keyspace, key: Bytes, now: Time) {
    key in ks && (ks[key].expireAt == ZERO_TIME || now < ks[key].expireAt)
  }

  // The deadline that an update of the key keeps.
  function Deadline(ks: Keyspace, key: Bytes, now: Time): (at: Time) {
    if Live(ks, key, now) then ks[key].expireAt else ZERO_TIME
  }

  lemma LookupIs(ks: Keyspace, key: Bytes, now: Time)
    ensures Lookup(ks, key, now) == if Live(ks, key, now) then Some(ks[key]) else None
  {
  }

  lemma SingleAsked(t: Registry.Text, now: Time, v: N.Verb, args: seq<Bytes>, ks: Keyspace, op: Op)
    requires Table(v).Accepts(|args|) && Parse(t, v, args) == op && IsSingle(op)
    ensures Ask(t, now, v, args, ks) == Applied(ks, op.key, Single(now, op, Lookup(ks, op.key, now)))
  {
  }

  // The handler that each name with further arguments gets.
  lemma AskLPush(t: Registry.Text, now: Time, name: Bytes, k: Bytes, xs: seq<Bytes>, ks: Keyspace)
    requires xs != []
    ensures Ask(t, now, N.LPush, [name, k] + xs, ks) == Applied(ks, k, PushEffect(Lookup(ks, k, now), xs, true))
  {
    var args, op := [name, k] + xs, Push(k, xs, true);
    assert args[2..] == xs;
    SingleAsked(t, now, N.LPush, args, ks, op);
  }

  lemma AskRPush(t: Registry.Text, now: Time, name: Bytes, k: Bytes, xs: seq<Bytes>, ks: Keyspace)
    requires xs != []
    ensures Ask(t, now, N.RPush, [name, k] + xs, ks) == Applied(ks, k, PushEffect(Lookup(ks, k, now), xs, false))
  {
    var args, op := [name, k] + xs, Push(k, xs, false);
    assert args[2..] == xs;
    SingleAsked(t, now, N.RPush, args, ks, op);
  }

  lemma AskHDel(t: Registry.Text, now: Time, name: Bytes, k: Bytes, xs: seq<Bytes>, ks: Keyspace)
    requires xs != []
    ensures Ask(t, now, N.HDel, [name, k] + xs, ks) == Applied(ks, k, HDelEffect(Lookup(ks, k, now), xs))
  {
    var args, op := [name, k] + xs, HDel(k, xs);
    assert args[2..] == xs;
    SingleAsked(t, now, N.HDel, args, ks, op);
  }

  lemma AskSAdd(t: Registry.Text, now: Time, name: Bytes, k: Bytes, xs: seq<Bytes>, ks: Keyspace)
    requires xs != []
    ensures Ask(t, now, N.SAdd, [name, k] + xs, ks) == Applied(ks, k, SAddEffect(Lookup(ks, k, now), xs))
  {
    var args, op := [name, k] + xs, SAdd(k, xs);
    assert args[2..] == xs;
    SingleAsked(t, now, N.SAdd, args, ks, op);
  }

  lemma AskSRem(t: Registry.Text, now: Time, name: Bytes, k: Bytes, xs: seq<Bytes>, ks: Keyspace)
    requires xs != []
    ensures Ask(t, now, N.SRem, [name, k] + xs, ks) == Applied(ks, k, SRemEffect(Lookup(ks, k, now), xs))
  {
    var args, op := [name, k] + xs, SRem(k, xs);
    assert args[2..] == xs;
    SingleAsked(t, now, N.SRem, args, ks, op);
  }

  lemma AskHSet(t: Registry.Text, now: Time, name: Bytes, k: Bytes, xs: seq<Bytes>, ks: Keyspace)
    requires |xs| >= 2
    ensures Ask(t, now, N.HSet, [name, k] + xs, ks) == Applied(ks, k, HSetEffect(Lookup(ks, k, now), xs))
  {
    var args, op := [name, k] + xs, HSet(k, xs);
    assert args[2..] == xs;
    SingleAsked(t, now, N.HSet, args, ks, op);
  }

  lemma AskZAdd(t: Registry.Text, now: Time, name: Bytes, k: Bytes, xs: seq<Bytes>, ks: Keyspace)
    requires |xs| >= 2
    ensures Ask(t, now, N.ZAdd, [name, k] + xs, ks) ==
      Applied(ks, k, ZAddEffect(Lookup(ks, k, now), ScorePairs(t, xs), |xs| % 2 != 0))
  {
    var args := [name, k] + xs;
    ParsedZAdd(t, args, xs);
    SingleAsked(t, now, N.ZAdd, args, ks, ZAdd(k, ScorePairs(t, xs), |xs| % 2 != 0));
  }

  lemma ParsedZAdd(t: Registry.Text, args: seq<Bytes>, xs: seq<Bytes>)
    requires |args| >= 4 && args[2..] == xs
    ensures Parse(t, N.ZAdd, args) == ZAdd(args[1], ScorePairs(t, xs), |xs| % 2 != 0)
  {
  }

  lemma AskLPop(t: Registry.Text, now: Time, name: Bytes, k: Bytes, more: seq<Bytes>, ks: Keyspace)
    ensures Ask(t, now, N.LPop, [name, k] + more, ks) == Applied(ks, k, PopEffect(Lookup(ks, k, now), more, true))
  {
    var args, op := [name, k] + more, Pop(k, more, true);
    assert args[2..] == more;
    SingleAsked(t, now, N.LPop, args, ks, op);
  }

  lemma AskRPop(t: Registry.Text, now: Time, name: Bytes, k: Bytes, more: seq<Bytes>, ks: Keyspace)
    ensures Ask(t, now, N.RPop, [name, k] + more, ks) == Applied(ks, k, PopEffect(Lookup(ks, k, now), more, false))
  {
    var args, op := [name, k] + more, Pop(k, more, false);
    assert args[2..] == more;
    SingleAsked(t, now, N.RPop, args, ks, op);
  }

  // Strings.

  lemma GetReplies(t: Registry.Text, now: Time, name: Bytes, k: Bytes, ks: Keyspace)
    ensures Ask(t, now, N.Get, [name, k], ks) == Outcome(ks,
      if !Live(ks, k, now) then Nil
      else if ks[k].value.Str? then Bulk(ks[k].value.bytes) else Fail(WrongType))
  {
    LookupIs(ks, k, now);
  }

  lemma SetReplies(t: Registry.Text, now: Time, name: Bytes, k: Bytes, v: Bytes, ks: Keyspace)
    ensures Ask(t, now, N.Set, [name, k, v], ks) == Outcome(ks[k := Entry(Str(v), ZERO_TIME)], Done)
  {
  }

  // The number INCR and DECR start from.
  predicate Counts(ks: Keyspace, k: Bytes, now: Time, n: int) {
    if Live(ks, k, now) then ks[k].value.Str? && ParseInt(ks[k].value.bytes) == Some(n) else n == 0
  }

  lemma IncrReplies(t: Registry.Text, now: Time, name: Bytes, k: Bytes, ks: Keyspace, n: int)
    requires Counts(ks, k, now, n)
    ensures Ask(t, now, N.Incr, [name, k], ks) ==
      if n == 0x7FFF_FFFF_FFFF_FFFF then Outcome(ks, Fail(Overflow))
      else Outcome(ks[k := Entry(Str(FormatInt(n + 1)), Deadline(ks, k, now))], Int(n + 1))
    ensures Ask(t, now, N.Decr, [name, k], ks) ==
      if n == -0x8000_0000_0000_0000 then Outcome(ks, Fail(Overflow))
      else Outcome(ks[k := Entry(Str(FormatInt(n - 1)), Deadline(ks, k, now))], Int(n - 1))
  {
    LookupIs(ks, k, now);
    SteppedUp(Lookup(ks, k, now), n);
    SteppedDown(Lookup(ks, k, now), n);
  }

  ghost predicate CountsFrom(e: Option<Entry>, n: int) {
    if e.Some? then e.value.value.Str? && ParseInt(e.value.value.bytes) == Some(n) else n == 0
  }

  function KeptBy(e: Option<Entry>): (at: Time) {
    if e.Some? then e.value.expireAt else ZERO_TIME
  }

  lemma SteppedUp(e: Option<Entry>, n: int)
    requires CountsFrom(e, n)
    ensures IncrEffect(e, 1) ==
      if n == 0x7FFF_FFFF_FFFF_FFFF then Failed(Overflow)
      else Effect(Put(Entry(Str(FormatInt(n + 1)), KeptBy(e))), Int(n + 1))
  {
  }

  lemma SteppedDown(e: Option<Entry>, n: int)
    requires CountsFrom(e, n)
    ensures IncrEffect(e, -1) ==
      if n == -0x8000_0000_0000_0000 then Failed(Overflow)
      else Effect(Put(Entry(Str(FormatInt(n - 1)), KeptBy(e))), Int(n - 1))
  {
  }

  // A key that holds something else is refused and left alone.
  lemma IncrRefuses(t: Registry.Text, now: Time, name: Bytes, k: Bytes, ks: Keyspace)
    requires Live(ks, k, now) && (ks[k].value.Str? ==> ParseInt(ks[k].value.bytes).None?)
    ensures var a := Fail(if ks[k].value.Str? then NotInteger else WrongType);
      Ask(t, now, N.Incr, [name, k], ks) == Ask(t, now, N.Decr, [name, k], ks) == Outcome(ks, a)
  {
    LookupIs(ks, k, now);
  }

  // Keys.

  // The live keys among those named.
  ghost function LiveAmong(ks: Keyspace, keys: seq<Bytes>, now: Time): (r: set<Bytes>) {
    set k | k in keys && Live(ks, k, now)
  }

  lemma {:induction false} LiveCount(ks: Keyspace, keys: seq<Bytes>, now: Time)
    ensures CountLive(ks, keys, now) == |LiveAmong(ks, keys, now)|
    decreases |keys|
  {
    if keys == [] {
      assert LiveAmong(ks, keys, now) == {};
    } else {
      var init, k := keys[..|keys| - 1], keys[|keys| - 1];
      LiveCount(ks, init, now);
      LookupIs(ks, k, now);
      assert keys == init + [k];
      assert LiveAmong(ks, keys, now) == LiveAmong(ks, init, now) + if Live(ks, k, now) then {k} else {};
    }
  }

  // DEL and UNLINK: every live key counts once, and all that were named are gone.
  lemma DelReplies(t: Registry.Text, now: Time, name: Bytes, keys: seq<Bytes>, ks: Keyspace)
    requires keys != []
    ensures var r := Ask(t, now, N.Del, [name] + keys, ks);
      && r == Ask(t, now, N.Unlink, [name] + keys, ks)
      && r.answer == Int(|LiveAmong(ks, keys, now)|)
      && (forall k :: k in r.keyspace <==> k in ks && k !in keys)
      && (forall k :: k in r.keyspace ==> r.keyspace[k] == ks[k])
  {
    assert ([name] + keys)[1..] == keys;
    LiveCount(ks, keys, now);
  }

  // The positions at which a live key is named.
  ghost function LivePositions(ks: Keyspace, keys: seq<Bytes>, now: Time): (r: set<int>) {
    set i | 0 <= i < |keys| && Live(ks, keys[i], now)
  }

  lemma {:induction false} PositionCount(ks: Keyspace, keys: seq<Bytes>, now: Time)
    ensures CountExisting(ks, keys, now) == |LivePositions(ks, keys, now)|
    decreases |keys|
  {
    if keys == [] {
      assert LivePositions(ks, keys, now) == {};
    } else {
      var n := |keys| - 1;
      var init := keys[..n];
      PositionCount(ks, init, now);
      LookupIs(ks, keys[n], now);
      OneMorePosition(ks, keys, now);
    }
  }

  lemma OneMorePosition(ks: Keyspace, keys: seq<Bytes>, now: Time)
    requires keys != []
    ensures var n := |keys| - 1;
      |LivePositions(ks, keys, now)| == |LivePositions(ks, keys[..n], now)| + if Live(ks, keys[n], now) then 1 else 0
  {
    var n := |keys| - 1;
    assert LivePositions(ks, keys, now) ==
      LivePositions(ks, keys[..n], now) + if Live(ks, keys[n], now) then {n} else {};
  }

  // EXISTS: every mention of a live key counts.
  lemma ExistsReplies(t: Registry.Text, now: Time, name: Bytes, keys: seq<Bytes>, ks: Keyspace)
    requires keys != []
    ensures Ask(t, now, N.Exists, [name] + keys, ks) == Outcome(ks, Int(|LivePositions(ks, keys, now)|))
  {
    assert ([name] + keys)[1..] == keys;
    PositionCount(ks, keys, now);
  }

  // EXPIRE, with Go's multiplication of 64-bit durations.
  lemma ExpireReplies(t: Registry.Text, now: Time, name: Bytes, k: Bytes, secs: Bytes, ks: Keyspace)
    ensures Ask(t, now, N.Expire, [name, k, secs], ks) ==
      if ParseInt(secs).None? then Outcome(ks, Fail(NotInteger))
      else if !Live(ks, k, now) then Outcome(ks, Int(0))
      else
        var at := now + Wrap64(ParseInt(secs).value * 1_000_000_000);
        Outcome(ks[k := Entry(ks[k].value, at)], Int(1))
  {
    LookupIs(ks, k, now);
  }

  lemma PExpireAtReplies(t: Registry.Text, now: Time, name: Bytes, k: Bytes, ms: Bytes, ks: Keyspace)
    ensures Ask(t, now, N.PExpireAt, [name, k, ms], ks) ==
      if ParseInt(ms).None? then Outcome(ks, Fail(NotInteger))
      else if !Live(ks, k, now) then Outcome(ks, Int(0))
      else Outcome(ks[k := Entry(ks[k].value, ParseInt(ms).value * 1_000_000)], Int(1))
  {
    LookupIs(ks, k, now);
  }

  // The whole second nearest to a time left, a half rounding up; milliseconds are cut first.
  predicate NearestSecond(left: int, s: int) {
    1_000 * s - 500 <= left / 1_000_000 < 1_000 * s + 500
  }

  // TTL. A time left beyond the range of a duration counts as the longest duration.
  lemma TtlReplies(t: Registry.Text, now: Time, name: Bytes, k: Bytes, ks: Keyspace)
    ensures var r := Ask(t, now, N.Ttl, [name, k], ks);
      && r.keyspace == ks && r.answer.Int?
      && (!Live(ks, k, now) ==> r.answer.n == -2)
      && (Live(ks, k, now) && ks[k].expireAt == ZERO_TIME ==> r.answer.n == -1)
      && (Live(ks, k, now) && ks[k].expireAt != ZERO_TIME ==>
            var left := ks[k].expireAt - now;
            NearestSecond(if left < 0x8000_0000_0000_0000 then left else 0x7FFF_FFFF_FFFF_FFFF, r.answer.n))
  {
    LookupIs(ks, k, now);
  }

  lemma PersistReplies(t: Registry.Text, now: Time, name: Bytes, k: Bytes, ks: Keyspace)
    ensures Ask(t, now, N.Persist, [name, k], ks) ==
      if Live(ks, k, now) && ks[k].expireAt != ZERO_TIME
      then Outcome(ks[k := Entry(ks[k].value, ZERO_TIME)], Int(1)) else Outcome(ks, Int(0))
  {
    LookupIs(ks, k, now);
  }

  lemma TypeReplies(t: Registry.Text, now: Time, name: Bytes, k: Bytes, ks: Keyspace)
    ensures Ask(t, now, N.Type, [name, k], ks) == Outcome(ks, Commands.Text(
      if !Live(ks, k, now) then "none"
      else if ks[k].value.Str? then "string"
      else if ks[k].value.ListV? then "list"
      else if ks[k].value.HashV? then "hash"
      else if ks[k].value.SetV? then "set" else "zset"))
  {
    LookupIs(ks, k, now);
  }

  // Lists.

  // The list a push adds to.
  ghost predicate ListOrNone(ks: Keyspace, k: Bytes, now: Time) {
    Live(ks, k, now) ==> ks[k].value.ListV?
  }

  function ListIn(ks: Keyspace, k: Bytes, now: Time): (l: seq<Bytes>) {
    if Live(ks, k, now) && ks[k].value.ListV? then ks[k].value.elems else []
  }

  lemma {:induction false} ReversedAt(s: seq<Bytes>, i: nat)
    requires i < |s|
    ensures Reversed(s)[i] == s[|s| - 1 - i]
    decreases |s|
  {
    if i < |s| - 1 {
      ReversedAt(s[1..], i);
    }
  }

  // LPUSH: each value goes in front of the ones before it.
  lemma LPushReplies(t: Registry.Text, now: Time, name: Bytes, k: Bytes, xs: seq<Bytes>, ks: Keyspace)
    returns (l': seq<Bytes>)
    requires xs != [] && ListOrNone(ks, k, now)
    ensures var l := ListIn(ks, k, now);
      && |l'| == |xs| + |l| && (forall i :: 0 <= i < |xs| ==> l'[i] == xs[|xs| - 1 - i])
      && (forall i :: 0 <= i < |l| ==> l'[|xs| + i] == l[i])
    ensures Ask(t, now, N.LPush, [name, k] + xs, ks) ==
      Outcome(ks[k := Entry(ListV(l'), Deadline(ks, k, now))], Int(|l'|))
  {
    AskLPush(t, now, name, k, xs, ks);
    LookupIs(ks, k, now);
    l' := Pushed(ListIn(ks, k, now), xs, true);
    forall i | 0 <= i < |xs| ensures l'[i] == xs[|xs| - 1 - i] {
      ReversedAt(xs, i);
    }
  }

  // RPUSH: the values follow the list in order.
  lemma RPushReplies(t: Registry.Text, now: Time, name: Bytes, k: Bytes, xs: seq<Bytes>, ks: Keyspace)
    returns (l': seq<Bytes>)
    requires xs != [] && ListOrNone(ks, k, now)
    ensures var l := ListIn(ks, k, now);
      && |l'| == |l| + |xs| && (forall i :: 0 <= i < |l| ==> l'[i] == l[i])
      && (forall i :: 0 <= i < |xs| ==> l'[|l| + i] == xs[i])
    ensures Ask(t, now, N.RPush, [name, k] + xs, ks) ==
      Outcome(ks[k := Entry(ListV(l'), Deadline(ks, k, now))], Int(|l'|))
  {
    AskRPush(t, now, name, k, xs, ks);
    LookupIs(ks, k, now);
    l' := Pushed(ListIn(ks, k, now), xs, false);
  }

  lemma PushRefuses(t: Registry.Text, now: Time, name: Bytes, k: Bytes, xs: seq<Bytes>, ks: Keyspace)
    requires xs != [] && !ListOrNone(ks, k, now)
    ensures Ask(t, now, N.LPush, [name, k] + xs, ks) == Outcome(ks, Fail(WrongType))
    ensures Ask(t, now, N.RPush, [name, k] + xs, ks) == Outcome(ks, Fail(WrongType))
  {
    AskLPush(t, now, name, k, xs, ks);
    AskRPush(t, now, name, k, xs, ks);
    LookupIs(ks, k, now);
  }

  // The key once its list is l; an empty list is no key.
  function Left(ks: Keyspace, k: Bytes, l: seq<Bytes>): (r: Keyspace)
    requires k in ks
  {
    if l == [] then ks - {k} else ks[k := Entry(ListV(l), ks[k].expireAt)]
  }

  // LPOP and RPOP of one element.
  lemma PopReplies(t: Registry.Text, now: Time, name: Bytes, k: Bytes, ks: Keyspace, l: seq<Bytes>)
    requires Live(ks, k, now) && ks[k].value == ListV(l) && l != []
    ensures Ask(t, now, N.LPop, [name, k], ks) == Outcome(Left(ks, k, l[1..]), Bulk(l[0]))
    ensures Ask(t, now, N.RPop, [name, k], ks) == Outcome(Left(ks, k, l[..|l| - 1]), Bulk(l[|l| - 1]))
  {
    LookupIs(ks, k, now);
    ReversedAt(l[|l| - 1..], 0);
    assert [name, k] + [] == [name, k];
    AskLPop(t, now, name, k, [], ks);
    AskRPop(t, now, name, k, [], ks);
  }

  // With a count, as many as there are up to it, from that end.
  lemma LPopCountReplies(t: Registry.Text, now: Time, name: Bytes, k: Bytes, count: Bytes, ks: Keyspace, l: seq<Bytes>)
    returns (out: seq<Bytes>, l': seq<Bytes>)
    requires Live(ks, k, now) && ks[k].value == ListV(l) && ParseInt(count).Some? && ParseInt(count).value >= 0
    ensures |out| == if ParseInt(count).value < |l| then ParseInt(count).value else |l|
    ensures |out| + |l'| == |l| && (forall i :: 0 <= i < |out| ==> out[i] == l[i])
    ensures forall i :: 0 <= i < |l'| ==> l'[i] == l[|out| + i]
    ensures Ask(t, now, N.LPop, [name, k, count], ks) == Outcome(Left(ks, k, l'), Bulks(out))
  {
    LookupIs(ks, k, now);
    assert [name, k] + [count] == [name, k, count];
    AskLPop(t, now, name, k, [count], ks);
    out, l' := Popped(l, ParseInt(count).value, true).0, Popped(l, ParseInt(count).value, true).1;
  }

  lemma RPopCountReplies(t: Registry.Text, now: Time, name: Bytes, k: Bytes, count: Bytes, ks: Keyspace, l: seq<Bytes>)
    returns (out: seq<Bytes>, l': seq<Bytes>)
    requires Live(ks, k, now) && ks[k].value == ListV(l) && ParseInt(count).Some? && ParseInt(count).value >= 0
    ensures |out| == if ParseInt(count).value < |l| then ParseInt(count).value else |l|
    ensures |out| + |l'| == |l| && (forall i :: 0 <= i < |out| ==> out[i] == l[|l| - 1 - i])
    ensures forall i :: 0 <= i < |l'| ==> l'[i] == l[i]
    ensures Ask(t, now, N.RPop, [name, k, count], ks) == Outcome(Left(ks, k, l'), Bulks(out))
  {
    LookupIs(ks, k, now);
    assert [name, k] + [count] == [name, k, count];
    AskRPop(t, now, name, k, [count], ks);
    out, l' := PoppedBack(l, ParseInt(count).value);
  }

  lemma PoppedBack(l: seq<Bytes>, n: nat) returns (out: seq<Bytes>, l': seq<Bytes>)
    ensures Popped(l, n, false) == (out, l') && |out| == (if n < |l| then n else |l|) && |out| + |l'| == |l|
    ensures forall i :: 0 <= i < |out| ==> out[i] == l[|l| - 1 - i]
    ensures forall i :: 0 <= i < |l'| ==> l'[i] == l[i]
  {
    out, l' := Popped(l, n, false).0, Popped(l, n, false).1;
    var back := l[|l| - |out|..];
    forall i | 0 <= i < |out| ensures out[i] == l[|l| - 1 - i] {
      ReversedAt(back, i);
    }
  }

  // What LPOP and RPOP answer instead: too many arguments, a bad count, no key, another kind.
  lemma PopRefuses(t: Registry.Text, now: Time, name: Bytes, k: Bytes, more: seq<Bytes>, ks: Keyspace, a: Answer)
    requires
      || (|more| > 1 && a == Fail(WrongArity))
      || (|more| == 1 && ParseInt(more[0]).None? && a == Fail(NotInteger))
      || (|more| == 1 && ParseInt(more[0]).Some? && ParseInt(more[0]).value < 0 && a == Fail(NegativeCount))
      || ((|more| == 1 ==> ParseInt(more[0]).Some? && ParseInt(more[0]).value >= 0) && |more| <= 1
          && (!Live(ks, k, now) || !ks[k].value.ListV?) && a == if Live(ks, k, now) then Fail(WrongType) else Nil)
    ensures Ask(t, now, N.LPop, [name, k] + more, ks) == Outcome(ks, a)
    ensures Ask(t, now, N.RPop, [name, k] + more, ks) == Outcome(ks, a)
  {
    LookupIs(ks, k, now);
    AskLPop(t, now, name, k, more, ks);
    AskRPop(t, now, name, k, more, ks);
  }

  lemma LRangeReplies(t: Registry.Text, now: Time, name: Bytes, k: Bytes, start: Bytes, stop: Bytes, ks: Keyspace)
    ensures var r := Ask(t, now, N.LRange, [name, k, start, stop], ks);
      && r.keyspace == ks
      && if ParseInt(start).None? || ParseInt(stop).None? then r.answer == Fail(NotInteger)
         else if !ListOrNone(ks, k, now) then r.answer == Fail(WrongType)
         else
           && r.answer.Bulks?
           && IsWindow(ListIn(ks, k, now), ParseInt(start).value, ParseInt(stop).value, r.answer.elems)
  {
    LookupIs(ks, k, now);
    if ParseInt(start).Some? && ParseInt(stop).Some? {
      SelectedIsWindow(ListIn(ks, k, now), ParseInt(start).value, ParseInt(stop).value);
    }
  }

  lemma LLenReplies(t: Registry.Text, now: Time, name: Bytes, k: Bytes, ks: Keyspace)
    ensures Ask(t, now, N.LLen, [name, k], ks) ==
      Outcome(ks, if ListOrNone(ks, k, now) then Int(|ListIn(ks, k, now)|) else Fail(WrongType))
  {
    LookupIs(ks, k, now);
  }

  // Hashes.

  ghost predicate HashOrNone(ks: Keyspace, k: Bytes, now: Time) {
    Live(ks, k, now) ==> ks[k].value.HashV?
  }

  function HashIn(ks: Keyspace, k: Bytes, now: Time): (m: map<Bytes, Bytes>) {
    if Live(ks, k, now) && ks[k].value.HashV? then ks[k].value.fields else map[]
  }

  // Position i names x, and no later position does.
  ghost predicate LastAt(xs: seq<Bytes>, i: nat, x: Bytes) {
    i < |xs| && xs[i] == x && forall j :: i < j < |xs| ==> xs[j] != x
  }

  // The arguments at even positions and those at odd positions.
  function Evens(xs: seq<Bytes>): (r: seq<Bytes>)
    ensures |r| == |xs| / 2 && forall i :: 0 <= i < |r| ==> r[i] == xs[2 * i]
  {
    seq(|xs| / 2, i requires 0 <= i < |xs| / 2 => xs[2 * i])
  }

  function Odds(xs: seq<Bytes>): (r: seq<Bytes>)
    ensures |r| == |xs| / 2 && forall i :: 0 <= i < |r| ==> r[i] == xs[2 * i + 1]
  {
    seq(|xs| / 2, i requires 0 <= i < |xs| / 2 => xs[2 * i + 1])
  }

  // Each key of m that xs does not name is kept, and each that it names has the value given
  // with its last mention.
  ghost predicate LastWins<T(!new)>(m: map<Bytes, T>, xs: seq<Bytes>, vs: seq<T>, m': map<Bytes, T>) {
    && |xs| == |vs|
    && (forall x :: x in m' <==> x in m || x in xs)
    && (forall x :: x in m && x !in xs ==> m'[x] == m[x])
    && (forall i: nat, x :: LastAt(xs, i, x) ==> m'[x] == vs[i])
  }

  lemma LastWinsMore<T(!new)>(m: map<Bytes, T>, xs: seq<Bytes>, vs: seq<T>, m': map<Bytes, T>, x: Bytes, v: T)
    requires LastWins(m, xs, vs, m')
    ensures LastWins(m, xs + [x], vs + [v], m'[x := v])
  {
    forall i: nat, y | LastAt(xs + [x], i, y) ensures m'[x := v][y] == (vs + [v])[i] {
      if i < |xs| {
        assert (xs + [x])[|xs|] == x;
        assert LastAt(xs, i, y) by {
          forall j | i < j < |xs| ensures xs[j] != y {
            assert (xs + [x])[j] == xs[j];
          }
        }
      }
    }
  }

  // The keys that are new.
  ghost function NewAmong<T>(m: map<Bytes, T>, xs: seq<Bytes>): (r: set<Bytes>) {
    set x | x in xs && x !in m
  }

  lemma GrownSize<T(!new)>(m: map<Bytes, T>, xs: seq<Bytes>, vs: seq<T>, m': map<Bytes, T>)
    requires LastWins(m, xs, vs, m')
    ensures |m'| - |m| == |NewAmong(m, xs)|
  {
    assert m'.Keys == m.Keys + NewAmong(m, xs);
    assert |m| == |m.Keys| && |m'| == |m'.Keys|;
  }

  lemma {:induction false} FieldsSetIs(m: map<Bytes, Bytes>, rest: seq<Bytes>)
    requires |rest| % 2 == 0
    ensures LastWins(m, Evens(rest), Odds(rest), FieldsSet(m, rest))
    decreases |rest|
  {
    if rest == [] {
      assert Evens(rest) == [] && Odds(rest) == [];
    } else {
      var k := |rest| - 2;
      FieldsSetIs(m, rest[..k]);
      assert Evens(rest) == Evens(rest[..k]) + [rest[k]] && Odds(rest) == Odds(rest[..k]) + [rest[k + 1]];
      LastWinsMore(m, Evens(rest[..k]), Odds(rest[..k]), FieldsSet(m, rest[..k]), rest[k], rest[k + 1]);
    }
  }

  lemma HSetReplies(t: Registry.Text, now: Time, name: Bytes, k: Bytes, xs: seq<Bytes>, ks: Keyspace)
    returns (m': map<Bytes, Bytes>)
    requires |xs| >= 2 && |xs| % 2 == 0 && HashOrNone(ks, k, now)
    ensures LastWins(HashIn(ks, k, now), Evens(xs), Odds(xs), m')
    ensures Ask(t, now, N.HSet, [name, k] + xs, ks) == Outcome(ks[k := Entry(HashV(m'), Deadline(ks, k, now))],
      Int(|NewAmong(HashIn(ks, k, now), Evens(xs))|))
  {
    AskHSet(t, now, name, k, xs, ks);
    LookupIs(ks, k, now);
    var m := HashIn(ks, k, now);
    m' := FieldsApplied(m, xs);
    HSetStores(Lookup(ks, k, now), xs, m, m', |NewAmong(m, Evens(xs))|);
  }

  lemma HSetStores(e: Option<Entry>, xs: seq<Bytes>, m: map<Bytes, Bytes>, m': map<Bytes, Bytes>, n: int)
    requires |xs| % 2 == 0 && m' == FieldsSet(m, xs) && n == |m'| - |m|
    requires if e.Some? then e.value.value == HashV(m) else m == map[]
    ensures HSetEffect(e, xs) == Effect(Put(Entry(HashV(m'), KeptBy(e))), Int(n))
  {
  }

  lemma FieldsApplied(m: map<Bytes, Bytes>, xs: seq<Bytes>) returns (m': map<Bytes, Bytes>)
    requires |xs| % 2 == 0
    ensures m' == FieldsSet(m, xs)
    ensures LastWins(m, Evens(xs), Odds(xs), m') && |m'| - |m| == |NewAmong(m, Evens(xs))|
  {
    FieldsSetIs(m, xs);
    m' := FieldsSet(m, xs);
    GrownSize(m, Evens(xs), Odds(xs), m');
  }

  lemma HSetRefuses(t: Registry.Text, now: Time, name: Bytes, k: Bytes, xs: seq<Bytes>, ks: Keyspace)
    requires |xs| >= 2 && (|xs| % 2 == 0 ==> !HashOrNone(ks, k, now))
    ensures Ask(t, now, N.HSet, [name, k] + xs, ks) ==
      Outcome(ks, Fail(if |xs| % 2 == 0 then WrongType else WrongArity))
  {
    AskHSet(t, now, name, k, xs, ks);
    LookupIs(ks, k, now);
  }

  lemma HGetReplies(t: Registry.Text, now: Time, name: Bytes, k: Bytes, f: Bytes, ks: Keyspace)
    ensures var m := HashIn(ks, k, now);
      Ask(t, now, N.HGet, [name, k, f], ks) == Outcome(ks,
        if !HashOrNone(ks, k, now) then Fail(WrongType) else if f in m then Bulk(m[f]) else Nil)
  {
    LookupIs(ks, k, now);
  }

  lemma HGetAllReplies(t: Registry.Text, now: Time, name: Bytes, k: Bytes, ks: Keyspace)
    ensures Ask(t, now, N.HGetAll, [name, k], ks) ==
      Outcome(ks, if HashOrNone(ks, k, now) then Fields(HashIn(ks, k, now)) else Fail(WrongType))
  {
    LookupIs(ks, k, now);
  }

  lemma ShrunkSize<T>(m: map<Bytes, T>, xs: seq<Bytes>)
    ensures |m| - |m - Elements(xs)| == |set x | x in xs && x in m|
  {
    var gone := set x | x in xs && x in m;
    assert (m - Elements(xs)).Keys == m.Keys - gone;
    assert |m| == |m.Keys| && |m - Elements(xs)| == |(m - Elements(xs)).Keys|;
    assert |m.Keys - gone| == |m.Keys| - |gone|;
  }

  // HDEL: the named fields that were there count, and an emptied hash is no key.
  lemma HDelReplies(t: Registry.Text, now: Time, name: Bytes, k: Bytes, xs: seq<Bytes>, ks: Keyspace)
    returns (m': map<Bytes, Bytes>)
    requires xs != [] && HashOrNone(ks, k, now)
    ensures var m := HashIn(ks, k, now);
      (forall f :: f in m' <==> f in m && f !in xs) && (forall f :: f in m' ==> m'[f] == m[f])
    ensures Ask(t, now, N.HDel, [name, k] + xs, ks) ==
      if !Live(ks, k, now) then Outcome(ks, Int(0))
      else Outcome(if m' == map[] then ks - {k} else ks[k := Entry(HashV(m'), ks[k].expireAt)],
                   Int(|set f | f in xs && f in HashIn(ks, k, now)|))
  {
    AskHDel(t, now, name, k, xs, ks);
    LookupIs(ks, k, now);
    m' := HashIn(ks, k, now) - Elements(xs);
    ShrunkSize(HashIn(ks, k, now), xs);
  }

  lemma HDelRefuses(t: Registry.Text, now: Time, name: Bytes, k: Bytes, xs: seq<Bytes>, ks: Keyspace)
    requires xs != [] && !HashOrNone(ks, k, now)
    ensures Ask(t, now, N.HDel, [name, k] + xs, ks) == Outcome(ks, Fail(WrongType))
  {
    AskHDel(t, now, name, k, xs, ks);
    LookupIs(ks, k, now);
  }

  // Sets.

  ghost predicate SetOrNone(ks: Keyspace, k: Bytes, now: Time) {
    Live(ks, k, now) ==> ks[k].value.SetV?
  }

  function SetIn(ks: Keyspace, k: Bytes, now: Time): (s: set<Bytes>) {
    if Live(ks, k, now) && ks[k].value.SetV? then ks[k].value.members else {}
  }

  lemma SAddReplies(t: Registry.Text, now: Time, name: Bytes, k: Bytes, xs: seq<Bytes>, ks: Keyspace)
    returns (s': set<Bytes>)
    requires xs != [] && SetOrNone(ks, k, now)
    ensures forall x :: x in s' <==> x in SetIn(ks, k, now) || x in xs
    ensures Ask(t, now, N.SAdd, [name, k] + xs, ks) == Outcome(ks[k := Entry(SetV(s'), Deadline(ks, k, now))],
      Int(|set x | x in xs && x !in SetIn(ks, k, now)|))
  {
    AskSAdd(t, now, name, k, xs, ks);
    LookupIs(ks, k, now);
    s' := SetIn(ks, k, now) + Elements(xs);
    JoinedSize(SetIn(ks, k, now), xs);
  }

  lemma JoinedSize(s: set<Bytes>, xs: seq<Bytes>)
    ensures |s + Elements(xs)| - |s| == |set x | x in xs && x !in s|
  {
    var fresh' := set x | x in xs && x !in s;
    assert s + Elements(xs) == s + fresh';
  }

  lemma ParedSize(s: set<Bytes>, xs: seq<Bytes>)
    ensures |s| - |s - Elements(xs)| == |set x | x in xs && x in s|
  {
    var gone := set x | x in xs && x in s;
    assert s - Elements(xs) == s - gone;
  }

  // SREM: the named members that were there count, and an emptied set is no key.
  lemma SRemReplies(t: Registry.Text, now: Time, name: Bytes, k: Bytes, xs: seq<Bytes>, ks: Keyspace)
    returns (s': set<Bytes>)
    requires xs != [] && SetOrNone(ks, k, now)
    ensures forall x :: x in s' <==> x in SetIn(ks, k, now) && x !in xs
    ensures Ask(t, now, N.SRem, [name, k] + xs, ks) ==
      if !Live(ks, k, now) then Outcome(ks, Int(0))
      else Outcome(if s' == {} then ks - {k} else ks[k := Entry(SetV(s'), ks[k].expireAt)],
                   Int(|set x | x in xs && x in SetIn(ks, k, now)|))
  {
    AskSRem(t, now, name, k, xs, ks);
    LookupIs(ks, k, now);
    s' := SetIn(ks, k, now) - Elements(xs);
    ParedSize(SetIn(ks, k, now), xs);
  }

  lemma SetRefuses(t: Registry.Text, now: Time, name: Bytes, k: Bytes, xs: seq<Bytes>, ks: Keyspace)
    requires xs != [] && !SetOrNone(ks, k, now)
    ensures Ask(t, now, N.SAdd, [name, k] + xs, ks) == Outcome(ks, Fail(WrongType))
    ensures Ask(t, now, N.SRem, [name, k] + xs, ks) == Outcome(ks, Fail(WrongType))
  {
    AskSAdd(t, now, name, k, xs, ks);
    AskSRem(t, now, name, k, xs, ks);
    LookupIs(ks, k, now);
  }

  lemma SMembersReplies(t: Registry.Text, now: Time, name: Bytes, k: Bytes, ks: Keyspace)
    ensures Ask(t, now, N.SMembers, [name, k], ks) ==
      Outcome(ks, if SetOrNone(ks, k, now) then Members(SetIn(ks, k, now)) else Fail(WrongType))
  {
    LookupIs(ks, k, now);
  }

  // SINTER of keys that all hold sets: the members that every one of them has.
  lemma SInterReplies(t: Registry.Text, now: Time, name: Bytes, keys: seq<Bytes>, ks: Keyspace)
    requires keys != [] && forall i :: 0 <= i < |keys| ==> Live(ks, keys[i], now) && ks[keys[i]].value.SetV?
    ensures var r := Ask(t, now, N.SInter, [name] + keys, ks);
      && r.keyspace == ks && r.answer.Members?
      && forall x :: x in r.answer.members <==> (forall i :: 0 <= i < |keys| ==> x in SetIn(ks, keys[i], now))
  {
    assert ([name] + keys)[1..] == keys;
    forall i | 0 <= i < |keys| ensures Laws.IsSetAt(ks, keys[i], now) {
      LookupIs(ks, keys[i], now);
    }
    Laws.GatherIs(ks, keys, now);
    var sets := Gather(ks, keys, now).sets;
    forall i | 0 <= i < |keys| ensures sets[i] == SetIn(ks, keys[i], now) {
      LookupIs(ks, keys[i], now);
    }
  }

  // The first key without a set decides: no key means no members, another kind an error.
  lemma SInterStops(t: Registry.Text, now: Time, name: Bytes, keys: seq<Bytes>, ks: Keyspace, i: nat)
    requires i < |keys| && (forall j :: 0 <= j < i ==> Live(ks, keys[j], now) && ks[keys[j]].value.SetV?)
    requires Live(ks, keys[i], now) ==> !ks[keys[i]].value.SetV?
    ensures Ask(t, now, N.SInter, [name] + keys, ks) ==
      Outcome(ks, if Live(ks, keys[i], now) then Fail(WrongType) else Members({}))
  {
    assert ([name] + keys)[1..] == keys;
    LookupIs(ks, keys[i], now);
    forall j | 0 <= j < i ensures Laws.IsSetAt(ks, keys[..i][j], now) {
      LookupIs(ks, keys[j], now);
    }
    Laws.GatherStops(ks, keys, now, i);
  }

  // Sorted sets.

  ghost predicate ZSetOrNone(ks: Keyspace, k: Bytes, now: Time) {
    Live(ks, k, now) ==> ks[k].value.ZSetV?
  }

  function ZSetIn(ks: Keyspace, k: Bytes, now: Time): (m: map<Bytes, int>) {
    if Live(ks, k, now) && ks[k].value.ZSetV? then ks[k].value.scores else map[]
  }

  // The numbers that the score arguments parse to.
  ghost predicate AllFloats(t: Registry.Text, scores: seq<Bytes>) {
    forall i :: 0 <= i < |scores| ==> t.float(scores[i]).Some?
  }

  ghost function Numbers(t: Registry.Text, scores: seq<Bytes>): (r: seq<int>)
    requires AllFloats(t, scores)
    ensures |r| == |scores| && forall i :: 0 <= i < |r| ==> r[i] == Num(t.float(scores[i]).value)
  {
    seq(|scores|, i requires 0 <= i < |scores| => Num(t.float(scores[i]).value))
  }

  lemma {:induction false} ScorePairAt(t: Registry.Text, rest: seq<Bytes>, i: nat)
    requires i < |rest| / 2
    ensures ScorePairs(t, rest)[i] == ScoredMember(ScoreArg(rest[2 * i], ScoreOf(t, rest[2 * i])), rest[2 * i + 1])
    decreases i
  {
    if i > 0 {
      ScorePairAt(t, rest[2..], i - 1);
    }
  }

  // The pairs spelled by members and numbers.
  ghost predicate Spell(ps: seq<ScoredMember>, members: seq<Bytes>, numbers: seq<int>) {
    && |ps| == |members| == |numbers|
    && forall i :: 0 <= i < |ps| ==> ps[i].member == members[i] && ps[i].score.score == Some(numbers[i])
  }

  lemma {:induction false} ScoresSetIs(
        m: map<Bytes, int>, ps: seq<ScoredMember>, members: seq<Bytes>, numbers: seq<int>)
    requires Spell(ps, members, numbers)
    ensures AllScored(ps) && LastWins(m, members, numbers, ScoresSet(m, ps))
    decreases |ps|
  {
    if ps == [] {
      assert members == [] && numbers == [];
    } else {
      var k := |ps| - 1;
      ScoresSetIs(m, ps[..k], members[..k], numbers[..k]);
      assert members == members[..k] + [members[k]] && numbers == numbers[..k] + [numbers[k]];
      LastWinsMore(m, members[..k], numbers[..k], ScoresSet(m, ps[..k]), members[k], numbers[k]);
    }
  }

  // ZADD: scores come before their members.
  lemma ZAddReplies(t: Registry.Text, now: Time, name: Bytes, k: Bytes, xs: seq<Bytes>, ks: Keyspace)
    returns (m': map<Bytes, int>)
    requires |xs| >= 2 && |xs| % 2 == 0 && AllFloats(t, Evens(xs)) && ZSetOrNone(ks, k, now)
    ensures LastWins(ZSetIn(ks, k, now), Odds(xs), Numbers(t, Evens(xs)), m')
    ensures Ask(t, now, N.ZAdd, [name, k] + xs, ks) == Outcome(ks[k := Entry(ZSetV(m'), Deadline(ks, k, now))],
      Int(|NewAmong(ZSetIn(ks, k, now), Odds(xs))|))
  {
    AskZAdd(t, now, name, k, xs, ks);
    LookupIs(ks, k, now);
    PairsSpell(t, xs);
    var m := ZSetIn(ks, k, now);
    m' := ScoresApplied(m, ScorePairs(t, xs), Odds(xs), Numbers(t, Evens(xs)));
    ZAddStores(Lookup(ks, k, now), ScorePairs(t, xs), m, m', |NewAmong(m, Odds(xs))|);
  }

  lemma ZAddStores(e: Option<Entry>, ps: seq<ScoredMember>, m: map<Bytes, int>, m': map<Bytes, int>, n: int)
    requires AllScored(ps) && m' == ScoresSet(m, ps) && n == |m'| - |m|
    requires if e.Some? then e.value.value == ZSetV(m) else m == map[]
    ensures ZAddEffect(e, ps, false) == Effect(Put(Entry(ZSetV(m'), KeptBy(e))), Int(n))
  {
  }

  lemma PairsSpell(t: Registry.Text, xs: seq<Bytes>)
    requires AllFloats(t, Evens(xs))
    ensures Spell(ScorePairs(t, xs), Odds(xs), Numbers(t, Evens(xs)))
  {
    var ps := ScorePairs(t, xs);
    forall i | 0 <= i < |ps|
      ensures ps[i].member == Odds(xs)[i] && ps[i].score.score == Some(Numbers(t, Evens(xs))[i])
    {
      ScorePairAt(t, xs, i);
      assert t.float(Evens(xs)[i]).Some?;
    }
  }

  lemma ScoresApplied(m: map<Bytes, int>, ps: seq<ScoredMember>, members: seq<Bytes>, numbers: seq<int>)
    returns (m': map<Bytes, int>)
    requires Spell(ps, members, numbers)
    ensures AllScored(ps) && m' == ScoresSet(m, ps)
    ensures LastWins(m, members, numbers, m') && |m'| - |m| == |NewAmong(m, members)|
  {
    ScoresSetIs(m, ps, members, numbers);
    m' := ScoresSet(m, ps);
    GrownSize(m, members, numbers, m');
  }

  // Any bad score refuses the whole command.
  lemma ZAddRefuses(t: Registry.Text, now: Time, name: Bytes, k: Bytes, xs: seq<Bytes>, ks: Keyspace)
    requires |xs| >= 2 && (|xs| % 2 == 0 && AllFloats(t, Evens(xs)) ==> !ZSetOrNone(ks, k, now))
    ensures Ask(t, now, N.ZAdd, [name, k] + xs, ks) == Outcome(ks,
      Fail(if |xs| % 2 != 0 then WrongArity else if !AllFloats(t, Evens(xs)) then NotFloat else WrongType))
  {
    AskZAdd(t, now, name, k, xs, ks);
    LookupIs(ks, k, now);
    var ps := ScorePairs(t, xs);
    forall i | 0 <= i < |ps| ensures ps[i].score.score.Some? <==> t.float(Evens(xs)[i]).Some? {
      ScorePairAt(t, xs, i);
    }
  }

  // ZRANGE: the first index is where the listing starts; ZSets says what is listed.
  lemma ZRangeReplies(t: Registry.Text, now: Time, name: Bytes, k: Bytes, start: Bytes, stop: Bytes,
        more: seq<Bytes>, ks: Keyspace)
    ensures Ask(t, now, N.ZRange, [name, k, start, stop] + more, ks) == Outcome(ks,
      if |more| > 1 || (|more| == 1 && !t.isWithScores(more[0])) then Fail(Syntax)
      else if ParseInt(start).None? || ParseInt(stop).None? then Fail(NotInteger)
      else if !Live(ks, k, now) then Bulks([])
      else if !ks[k].value.ZSetV? then Fail(WrongType)
      else Ranked(ks[k].value.scores, ParseInt(start).value, ParseInt(stop).value, |more| == 1))
  {
    assert ([name, k, start, stop] + more)[4..] == more;
    LookupIs(ks, k, now);
  }

  lemma ZScoreReplies(t: Registry.Text, now: Time, name: Bytes, k: Bytes, member: Bytes, ks: Keyspace)
    ensures var m := ZSetIn(ks, k, now);
      Ask(t, now, N.ZScore, [name, k, member], ks) == Outcome(ks,
        if !ZSetOrNone(ks, k, now) then Fail(WrongType) else if member in m then Score(m[member]) else Nil)
  {
    LookupIs(ks, k, now);
  }

  // FLUSHDB leaves nothing, and the other server commands touch no key.
  lemma FlushReplies(t: Registry.Text, now: Time, args: seq<Bytes>, ks: Keyspace)
    requires |args| >= 1
    ensures Ask(t, now, N.FlushDB, args, ks) == Outcome(map[], Done)
  {
  }

  lemma PlainReplies(t: Registry.Text, now: Time, v: N.Verb, args: seq<Bytes>, ks: Keyspace)
    requires (v.Ping? || v.Select? || v.Config?) && Table(v).Accepts(|args|)
    ensures Ask(t, now, v, args, ks).keyspace == ks
  {
    ParsedPlain(t, v, args);
    PlainKeeps(now, ks);
  }

  lemma ParsedPlain(t: Registry.Text, v: N.Verb, args: seq<Bytes>)
    requires (v.Ping? || v.Select? || v.Config?) && Table(v).Accepts(|args|)
    ensures Parse(t, v, args) == Commands.Plain
  {
  }

  lemma PlainKeeps(now: Time, ks: Keyspace)
    ensures Exec(now, Commands.Plain, ks) == Outcome(ks, Done)
  {
  }

  // The commands that only read, and so share their locks and stay out of the log.
  predicate OnlyReads(v: N.Verb) {
    v in {N.Get, N.Exists, N.Ttl, N.Type, N.LRange, N.LLen, N.HGet, N.HGetAll, N.SMembers, N.SInter, N.ZRange, N.ZScore}
  }

  lemma ReadersAre(v: N.Verb)
    ensures Table(v).readOnly <==> OnlyReads(v)
    ensures Table(v).wholeDB <==> v == N.FlushDB
  {
  }

  lemma CountRefused(t: Registry.Text, now: Time, v: N.Verb, args: seq<Bytes>, ks: Keyspace)
    requires !Table(v).Accepts(|args|)
    ensures Ask(t, now, v, args, ks) == Outcome(ks, Fail(WrongArity))
  {
  }

  // How many arguments each command takes, its name included; others are refused.
  lemma ArgumentCounts(v: N.Verb, n: nat)
    ensures Table(v).Accepts(n) <==>
      match v
      case Get | Incr | Decr | Ttl | Persist | Type | LLen | HGetAll | SMembers | Select => n == 2
      case Set | Expire | PExpireAt | HGet | ZScore => n == 3
      case LRange => n == 4
      case Ping | FlushDB => n >= 1
      case Del | Unlink | Exists | LPop | RPop | SInter | Config => n >= 2
      case LPush | RPush | HDel | SAdd | SRem => n >= 3
      case HSet | ZAdd | ZRange => n >= 4
  {
  }
}
