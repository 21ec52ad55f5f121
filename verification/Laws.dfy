// What the commands owe each other: a write and the command that undoes it or reads it back.
module Laws {
  import opened Options
  import opened ByteStrings
  import opened Decimals
  import opened Commands
  import opened Keyspaces
  import opened Expiry

  // The list a command may grow: none yet, or the list stored under the key.
  ghost predicate ListOrNone(e: Option<Entry>) {
    e.None? || e.value.value.ListV?
  }

  function ListAt(e: Option<Entry>): (l: seq<Bytes>)
    requires e.Some? ==> e.value.value.ListV?
  {
    if e.Some? then e.value.value.elems else []
  }

  lemma PoppedPushed(l: seq<Bytes>, values: seq<Bytes>, front: bool)
    ensures Popped(Pushed(l, values, front), |values|, front) == (Reversed(values), l)
  {
    var r := Pushed(l, values, front);
    if front {
      assert r[..|values|] == Reversed(values) && r[|values|..] == l;
    } else {
      assert r[|l|..] == values && r[..|l|] == l;
    }
  }

  // Two single-key commands in a row: the second finds what the first stored.
  lemma Then(now: Time, first: Op, second: Op, ks: Keyspace, e: Entry)
    requires IsSingle(first) && IsSingle(second) && first.key == second.key && !e.Expired(now)
    requires Single(now, first, Lookup(ks, first.key, now)).update == Put(e)
    ensures Exec(now, second, Exec(now, first, ks).keyspace) ==
      Applied(ks[first.key := e], first.key, Single(now, second, Some(e)))
  {
    PutStores(now, first, ks, e);
    FoundAtOnce(now, second, ks[first.key := e], e);
  }

  lemma PutStores(now: Time, op: Op, ks: Keyspace, e: Entry)
    requires IsSingle(op) && Single(now, op, Lookup(ks, op.key, now)).update == Put(e)
    ensures Exec(now, op, ks).keyspace == ks[op.key := e]
  {
  }

  lemma FoundAtOnce(now: Time, op: Op, ks: Keyspace, e: Entry)
    requires IsSingle(op) && op.key in ks && ks[op.key] == e && !e.Expired(now)
    ensures Exec(now, op, ks) == Applied(ks, op.key, Single(now, op, Some(e)))
  {
  }

  // What puts the old entry back, or drops the key when there was none.
  function Undo(e: Option<Entry>): (u: Update) {
    if e.Some? then Put(e.value) else Drop
  }

  lemma UndoneAlike(now: Time, key: Bytes, ks: Keyspace, e: Entry)
    ensures Alike(Updated(ks[key := e], key, Undo(Lookup(ks, key, now))), ks, now)
  {
  }

  // A second command whose effect is to undo the first.
  lemma Undone(now: Time, first: Op, second: Op, ks: Keyspace, e: Entry, a: Answer)
    requires IsSingle(first) && IsSingle(second) && first.key == second.key && !e.Expired(now)
    requires Single(now, first, Lookup(ks, first.key, now)).update == Put(e)
    requires Single(now, second, Some(e)) == Effect(Undo(Lookup(ks, first.key, now)), a)
    ensures
      var r := Exec(now, second, Exec(now, first, ks).keyspace);
      r.answer == a && Alike(r.keyspace, ks, now)
  {
    Then(now, first, second, ks, e);
    UndoneAlike(now, first.key, ks, e);
  }

  lemma PushEntry(e: Option<Entry>, values: seq<Bytes>, front: bool) returns (stored: Entry)
    requires ListOrNone(e)
    ensures PushEffect(e, values, front).update == Put(stored)
    ensures stored.value == ListV(Pushed(ListAt(e), values, front))
    ensures stored.expireAt == if e.Some? then e.value.expireAt else ZERO_TIME
  {
    stored := PushEffect(e, values, front).update.entry;
  }

  lemma PopEffectUndoes(e: Option<Entry>, stored: Entry, values: seq<Bytes>, count: Bytes, front: bool)
    requires ListOrNone(e) && ParseInt(count) == Some(|values|) && (e.Some? ==> ListAt(e) != [])
    requires stored.value == ListV(Pushed(ListAt(e), values, front))
    requires stored.expireAt == if e.Some? then e.value.expireAt else ZERO_TIME
    ensures PopEffect(Some(stored), [count], front) == Effect(Undo(e), Bulks(Reversed(values)))
  {
    PoppedPushed(ListAt(e), values, front);
  }

  lemma PushPopEffects(now: Time, key: Bytes, e: Option<Entry>, values: seq<Bytes>, count: Bytes,
        front: bool) returns (stored: Entry)
    requires ListOrNone(e) && ParseInt(count) == Some(|values|) && (e.Some? ==> ListAt(e) != [])
    ensures Single(now, Push(key, values, front), e).update == Put(stored)
    ensures stored.expireAt == if e.Some? then e.value.expireAt else ZERO_TIME
    ensures Single(now, Pop(key, [count], front), Some(stored)) == Effect(Undo(e), Bulks(Reversed(values)))
  {
    stored := PushEntry(e, values, front);
    PopEffectUndoes(e, stored, values, count, front);
    SingleIsPush(now, key, values, front, e);
    SingleIsPop(now, key, [count], front, Some(stored));
  }

  lemma SingleIsPush(now: Time, key: Bytes, values: seq<Bytes>, front: bool, e: Option<Entry>)
    ensures Single(now, Push(key, values, front), e) == PushEffect(e, values, front)
  {
  }

  lemma SingleIsPop(now: Time, key: Bytes, more: seq<Bytes>, front: bool, e: Option<Entry>)
    ensures Single(now, Pop(key, more, front), e) == PopEffect(e, more, front)
  {
  }

  // Pop as many values as were just pushed, at the same end: they come out last first, and
  // the keyspace looks as it did before.
  lemma PopUndoesPush(now: Time, key: Bytes, values: seq<Bytes>, count: Bytes, front: bool, ks: Keyspace)
    requires ListOrNone(Lookup(ks, key, now)) && ParseInt(count) == Some(|values|)
    requires Lookup(ks, key, now).Some? ==> ListAt(Lookup(ks, key, now)) != []
    ensures
      var pushed := Exec(now, Push(key, values, front), ks);
      var popped := Exec(now, Pop(key, [count], front), pushed.keyspace);
      popped.answer == Bulks(Reversed(values)) && Alike(popped.keyspace, ks, now)
  {
    var stored := PushPopEffects(now, key, Lookup(ks, key, now), values, count, front);
    Undone(now, Push(key, values, front), Pop(key, [count], front), ks, stored, Bulks(Reversed(values)));
  }

  lemma IncrStores(e: Option<Entry>, delta: int) returns (stored: Entry)
    requires !IncrEffect(e, delta).answer.Fail?
    ensures
      var r := IncrEffect(e, delta);
      && r.answer.Int? && r.update == Put(stored) && stored.value == Str(FormatInt(r.answer.n))
      && stored.expireAt == if e.Some? then e.value.expireAt else ZERO_TIME
    ensures delta == 1 || delta == -1 ==> MIN_INT64 <= IncrEffect(e, delta).answer.n <= MAX_INT64
    ensures MIN_INT64 <= IncrEffect(e, delta).answer.n - delta <= MAX_INT64
  {
    stored := IncrEffect(e, delta).update.entry;
  }

  // INCR then DECR leaves the number that was there.
  lemma DecrUndoesIncr(now: Time, key: Bytes, delta: int, ks: Keyspace)
    requires delta == 1 || delta == -1
    requires !IncrEffect(Lookup(ks, key, now), delta).answer.Fail?
    ensures
      var up := Exec(now, IncrBy(key, delta), ks);
      var down := Exec(now, IncrBy(key, -delta), up.keyspace);
      up.answer.Int? && down.answer == Int(up.answer.n - delta)
  {
    var e := Lookup(ks, key, now);
    var stored := IncrStores(e, delta);
    var n := IncrEffect(e, delta).answer.n;
    IntRoundTrip(n);
    Then(now, IncrBy(key, delta), IncrBy(key, -delta), ks, stored);
    SteppedBack(stored, n, delta);
  }

  lemma SteppedBack(stored: Entry, n: int, delta: int)
    requires stored.value == Str(FormatInt(n)) && ParseInt(FormatInt(n)) == Some(n)
    requires MIN_INT64 <= n - delta <= MAX_INT64
    ensures IncrEffect(Some(stored), -delta).answer == Int(n - delta)
  {
  }

  // A set that holds none of the members yet.
  ghost predicate Lacks(e: Option<Entry>, members: seq<Bytes>) {
    e.None? || (e.value.value.SetV? && e.value.value.members != {} && e.value.value.members !! Elements(members))
  }

  lemma AddRemEffects(e: Option<Entry>, members: seq<Bytes>) returns (stored: Entry)
    requires Lacks(e, members)
    ensures SAddEffect(e, members).update == Put(stored)
    ensures stored.expireAt == if e.Some? then e.value.expireAt else ZERO_TIME
    ensures SRemEffect(Some(stored), members) == Effect(Undo(e), SAddEffect(e, members).answer)
  {
    var s := if e.Some? then e.value.value.members else {};
    stored := SAddEffect(e, members).update.entry;
    assert s + Elements(members) - Elements(members) == s;
  }

  // Removing exactly the members that were new leaves the set that was there.
  lemma RemUndoesAdd(now: Time, key: Bytes, members: seq<Bytes>, ks: Keyspace)
    requires Lacks(Lookup(ks, key, now), members)
    ensures
      var added := Exec(now, SAdd(key, members), ks);
      var removed := Exec(now, SRem(key, members), added.keyspace);
      removed.answer == added.answer && Alike(removed.keyspace, ks, now)
  {
    var stored := AddRemEffects(Lookup(ks, key, now), members);
    Undone(now, SAdd(key, members), SRem(key, members), ks, stored, SAddEffect(Lookup(ks, key, now), members).answer);
  }

  // TTL right after EXPIRE answers the seconds given, and PERSIST takes the deadline away.
  lemma TtlAfterExpire(now: Time, key: Bytes, secs: int, ks: Keyspace)
    requires 0 < secs && secs * SECOND <= MAX_INT64 && Lookup(ks, key, now).Some?
    requires now + secs * SECOND != ZERO_TIME
    ensures
      var timed := Exec(now, Expire(key, FormatInt(secs)), ks).keyspace;
      && Exec(now, Ttl(key), timed).answer == Int(secs)
      && Exec(now, Persist(key), timed).answer == Int(1)
      && Exec(now, Ttl(key), Exec(now, Persist(key), timed).keyspace).answer == Int(-1)
  {
    IntRoundTrip(secs);
    var e := Lookup(ks, key, now).value;
    assert ExpireDeadline(now, secs) == now + secs * SECOND;
    var timed := Exec(now, Expire(key, FormatInt(secs)), ks).keyspace;
    var dated := e.(expireAt := now + secs * SECOND);
    assert Lookup(timed, key, now) == Some(dated);
    RoundsBack(secs);
    assert TtlAnswer(now, Some(dated)) == Int(secs);
    assert Lookup(Exec(now, Persist(key), timed).keyspace, key, now) == Some(e.(expireAt := ZERO_TIME));
  }

  lemma RoundsBack(secs: int)
    requires 0 < secs
    ensures (secs * SECOND / MILLISECOND + 500) / 1000 == secs
  {
    assert secs * SECOND / MILLISECOND == secs * 1000;
  }

  ghost predicate AllSets(ks: Keyspace, keys: seq<Bytes>, now: Time) {
    forall i :: 0 <= i < |keys| ==> IsSetAt(ks, keys[i], now)
  }

  ghost predicate IsSetAt(ks: Keyspace, key: Bytes, now: Time) {
    Lookup(ks, key, now).Some? && Lookup(ks, key, now).value.value.SetV?
  }

  ghost predicate HeldBy(ks: Keyspace, key: Bytes, now: Time, x: Bytes)
    requires IsSetAt(ks, key, now)
  {
    x in Lookup(ks, key, now).value.value.members
  }

  lemma {:induction false} GatherIs(ks: Keyspace, keys: seq<Bytes>, now: Time)
    requires AllSets(ks, keys, now)
    ensures Gather(ks, keys, now).Sets?
    ensures forall i :: 0 <= i < |keys| ==>
      Gather(ks, keys, now).sets[i] == Lookup(ks, keys[i], now).value.value.members
    decreases |keys|
  {
    if keys != [] {
      var k := |keys| - 1;
      assert IsSetAt(ks, keys[k], now);
      assert AllSets(ks, keys[..k], now);
      GatherIs(ks, keys[..k], now);
    }
  }

  // SINTER stops at the first key that holds no set, whatever the later keys hold: a missing
  // key answers no members, any other value an error.
  lemma {:induction false} GatherStops(ks: Keyspace, keys: seq<Bytes>, now: Time, i: nat)
    requires i < |keys| && AllSets(ks, keys[..i], now) && !IsSetAt(ks, keys[i], now)
    ensures Gather(ks, keys, now) ==
      Stop(if Lookup(ks, keys[i], now).None? then Members({}) else Fail(WrongType))
    decreases |keys|
  {
    var k := |keys| - 1;
    if i == k {
      GatherIs(ks, keys[..k], now);
    } else {
      assert keys[..k][..i] == keys[..i];
      GatherStops(ks, keys[..k], now, i);
    }
  }

  // SINTER of stored sets answers exactly the members that every one of them holds.
  lemma SInterIsCommon(now: Time, keys: seq<Bytes>, ks: Keyspace, x: Bytes)
    requires keys != [] && AllSets(ks, keys, now)
    ensures
      var a := Exec(now, SInter(keys), ks).answer;
      a.Members? && (x in a.members <==> forall i :: 0 <= i < |keys| ==> HeldBy(ks, keys[i], now, x))
  {
    GatherIs(ks, keys, now);
    var sets := Gather(ks, keys, now).sets;
    assert forall i :: 0 <= i < |keys| ==> (x in sets[i] <==> HeldBy(ks, keys[i], now, x));
  }

  // DEL counts what EXISTS counted just before, when no key is named twice.
  lemma {:induction false} DelCountsExisting(ks: Keyspace, keys: seq<Bytes>, now: Time)
    requires forall i, j :: 0 <= i < j < |keys| ==> keys[i] != keys[j]
    ensures CountLive(ks, keys, now) == CountExisting(ks, keys, now)
    decreases |keys|
  {
    if keys != [] {
      DelCountsExisting(ks, keys[..|keys| - 1], now);
    }
  }

  // What other keys' commands do to a key: nothing.

  ghost predicate Spares(e: Event, key: Bytes) {
    e.Command? ==> key !in KeysOf(e.op) && !e.op.FlushDB?
  }

  lemma CommandSpares(ks: Keyspace, now: Time, op: Op, key: Bytes)
    requires key !in KeysOf(op) && !op.FlushDB?
    ensures
      var r := Exec(now, op, ks).keyspace;
      (key in r <==> key in ks) && (key in ks ==> r[key] == ks[key])
  {
    if IsSingle(op) {
      assert op.key in KeysOf(op);
      UpdateSpares(ks, op.key, Single(now, op, Lookup(ks, op.key, now)).update, key);
    }
  }

  lemma UpdateSpares(ks: Keyspace, other: Bytes, u: Update, key: Bytes)
    requires other != key
    ensures
      var r := Updated(ks, other, u);
      (key in r <==> key in ks) && (key in ks ==> r[key] == ks[key])
  {
  }

  lemma SparedKey(ks: Keyspace, e: Event, key: Bytes, t: Time)
    requires Spares(e, key) && e.now <= t
    requires e.Sweeping? ==> Sweep(ks, ks - e.gone, e.gone, e.now)
    ensures Lookup(After(ks, e), key, t) == Lookup(ks, key, t)
  {
    if e.Command? {
      CommandSpares(ks, e.now, e.op, key);
    }
  }

  // Over any run of commands on other keys, sweeps included, a key reads as before.
  lemma {:induction false} Untouched(ks: Keyspace, run: seq<Event>, key: Bytes, t: Time)
    requires SweepsExpired(ks, run) && Past(run, t) && forall i :: 0 <= i < |run| ==> Spares(run[i], key)
    ensures Lookup(State(ks, run), key, t) == Lookup(ks, key, t)
    decreases |run|
  {
    if run != [] {
      var k := |run| - 1;
      SweptInit(ks, run);
      Untouched(ks, run[..k], key, t);
      assert SweepsAt(ks, run, k);
      SparedKey(State(ks, run[..k]), run[k], key, t);
    }
  }

  lemma SweptInit(ks: Keyspace, run: seq<Event>)
    requires run != [] && SweepsExpired(ks, run)
    ensures SweepsExpired(ks, run[..|run| - 1])
  {
    var init := run[..|run| - 1];
    forall i | 0 <= i < |init| ensures SweepsAt(ks, init, i) {
      assert SweepsAt(ks, run, i) && init[..i] == run[..i];
    }
  }

  // A command stores an entry; after any such run, a later command finds it if it is not dead.
  lemma {:induction false} FoundLater(now: Time, first: Op, ks: Keyspace, e: Entry, run: seq<Event>, later: Time)
    requires IsSingle(first) && Single(now, first, Lookup(ks, first.key, now)).update == Put(e)
    requires SweepsExpired(Exec(now, first, ks).keyspace, run) && Past(run, later)
    requires forall i :: 0 <= i < |run| ==> Spares(run[i], first.key)
    ensures Lookup(State(Exec(now, first, ks).keyspace, run), first.key, later)
      == if e.Expired(later) then None else Some(e)
  {
    Untouched(Exec(now, first, ks).keyspace, run, first.key, later);
  }

  // A command that stores e and, after such a run, a later one on the same key.
  lemma {:induction false} AnsweredLater(now: Time, first: Op, ks: Keyspace, e: Entry,
        run: seq<Event>, second: Op, later: Time)
    requires IsSingle(first) && Single(now, first, Lookup(ks, first.key, now)).update == Put(e)
    requires IsSingle(second) && second.key == first.key
    requires SweepsExpired(Exec(now, first, ks).keyspace, run) && Past(run, later)
    requires forall i :: 0 <= i < |run| ==> Spares(run[i], first.key)
    ensures Exec(later, second, State(Exec(now, first, ks).keyspace, run)).answer
      == Single(later, second, if e.Expired(later) then None else Some(e)).answer
  {
    FoundLater(now, first, ks, e, run, later);
  }

  // The deadline an updated entry keeps.
  function Kept(e: Option<Entry>): (at: Time) {
    if e.Some? then e.value.expireAt else ZERO_TIME
  }

  // GET answers what SET stored, however many commands on other keys and sweeps come in
  // between, and SET clears any deadline.
  lemma {:induction false} GetAfterSet(now: Time, key: Bytes, v: Bytes, ks: Keyspace, run: seq<Event>, later: Time)
    requires SweepsExpired(Exec(now, Set(key, v), ks).keyspace, run) && Past(run, later)
    requires forall i :: 0 <= i < |run| ==> Spares(run[i], key)
    ensures
      var after := State(Exec(now, Set(key, v), ks).keyspace, run);
      Exec(later, Get(key), after).answer == Bulk(v) && Exec(later, Ttl(key), after).answer == Int(-1)
  {
    AnsweredLater(now, Set(key, v), ks, Entry(Str(v), ZERO_TIME), run, Get(key), later);
    AnsweredLater(now, Set(key, v), ks, Entry(Str(v), ZERO_TIME), run, Ttl(key), later);
  }

  lemma HSetStores(e: Option<Entry>, rest: seq<Bytes>, f: Bytes, v: Bytes) returns (stored: Entry)
    requires |rest| % 2 == 0 && (e.Some? ==> e.value.value.HashV?)
    ensures HSetEffect(e, rest + [f, v]).update == Put(stored) && stored.expireAt == Kept(e)
    ensures stored.value.HashV? && f in stored.value.fields && stored.value.fields[f] == v
  {
    var all := rest + [f, v];
    assert all[|all| - 2] == f && all[|all| - 1] == v;
    stored := HSetEffect(e, all).update.entry;
  }

  lemma HGetAnswers(now: Time, key: Bytes, f: Bytes, e: Entry)
    requires e.value.HashV? && f in e.value.fields
    ensures Single(now, HGet(key, f), None).answer == Nil
    ensures Single(now, HGet(key, f), Some(e)).answer == Bulk(e.value.fields[f])
  {
  }

  lemma ZScoreAnswers(now: Time, key: Bytes, m: Bytes, e: Entry)
    requires e.value.ZSetV? && m in e.value.scores
    ensures Single(now, ZScore(key, m), None).answer == Nil
    ensures Single(now, ZScore(key, m), Some(e)).answer == Score(e.value.scores[m])
  {
  }

  // The value last given to a field is the one HGET answers until the key's deadline.
  lemma {:induction false} LastFieldWins(now: Time, key: Bytes, rest: seq<Bytes>, f: Bytes, v: Bytes,
        ks: Keyspace, run: seq<Event>, later: Time)
    requires |rest| % 2 == 0
    requires Lookup(ks, key, now).Some? ==> Lookup(ks, key, now).value.value.HashV?
    requires SweepsExpired(Exec(now, HSet(key, rest + [f, v]), ks).keyspace, run) && Past(run, later)
    requires forall i :: 0 <= i < |run| ==> Spares(run[i], key)
    ensures Exec(later, HGet(key, f), State(Exec(now, HSet(key, rest + [f, v]), ks).keyspace, run)).answer
      == if Gone(Kept(Lookup(ks, key, now)), later) then Nil else Bulk(v)
  {
    var stored := HSetStores(Lookup(ks, key, now), rest, f, v);
    AnsweredLater(now, HSet(key, rest + [f, v]), ks, stored, run, HGet(key, f), later);
    HGetAnswers(later, key, f, stored);
  }

  lemma ZAddStores(e: Option<Entry>, pairs: seq<ScoredMember>, p: ScoredMember) returns (stored: Entry)
    requires AllScored(pairs + [p]) && (e.Some? ==> e.value.value.ZSetV?)
    ensures p.score.score.Some?
    ensures ZAddEffect(e, pairs + [p], false).update == Put(stored) && stored.expireAt == Kept(e)
    ensures stored.value.ZSetV? && p.member in stored.value.scores
    ensures stored.value.scores[p.member] == p.score.score.value
  {
    var all := pairs + [p];
    assert all[|pairs|] == p;
    stored := ZAddEffect(e, all, false).update.entry;
  }

  // The score last given to a member is the one ZSCORE answers until the key's deadline.
  lemma {:induction false} LastScoreWins(now: Time, key: Bytes, pairs: seq<ScoredMember>, p: ScoredMember,
        ks: Keyspace, run: seq<Event>, later: Time)
    requires AllScored(pairs + [p])
    requires Lookup(ks, key, now).Some? ==> Lookup(ks, key, now).value.value.ZSetV?
    requires SweepsExpired(Exec(now, ZAdd(key, pairs + [p], false), ks).keyspace, run) && Past(run, later)
    requires forall i :: 0 <= i < |run| ==> Spares(run[i], key)
    ensures p.score.score.Some?
    ensures Exec(later, ZScore(key, p.member), State(Exec(now, ZAdd(key, pairs + [p], false), ks).keyspace, run)).answer
      == if Gone(Kept(Lookup(ks, key, now)), later) then Nil else Score(p.score.score.value)
  {
    var stored := ZAddStores(Lookup(ks, key, now), pairs, p);
    AnsweredLater(now, ZAdd(key, pairs + [p], false), ks, stored, run, ZScore(key, p.member), later);
    ZScoreAnswers(later, key, p.member, stored);
  }

  // A list used as a queue, pushed at the back and popped at the front.

  // From t on, the key holds exactly these elements, without a deadline; none is no key.
  ghost predicate Queued(ks: Keyspace, key: Bytes, t: Time, l: seq<Bytes>) {
    forall u :: t <= u ==> Lookup(ks, key, u) == QueueEntry(l)
  }

  function QueueEntry(l: seq<Bytes>): (e: Option<Entry>) {
    if l == [] then None else Some(Entry(ListV(l), ZERO_TIME))
  }

  // Commands on the key only push at the back and pop at the front; others may do anything
  // but flush.
  ghost predicate QueueEvent(e: Event, key: Bytes, t: Time) {
    || Spares(e, key)
    || (e.Command? && e.now >= t && e.op.Push? && e.op.key == key && e.op.values != [] && !e.op.front)
    || (e.Command? && e.now >= t && e.op.Pop? && e.op.key == key && e.op.front)
  }

  function Entering(e: Event, key: Bytes): (r: seq<Bytes>) {
    if e.Command? && e.op.Push? && e.op.key == key then e.op.values else []
  }

  // What a pop of the key answered.
  function Leaving(e: Event, key: Bytes, ks: Keyspace): (r: seq<Bytes>) {
    if e.Command? && e.op.Pop? && e.op.key == key then
      match Exec(e.now, e.op, ks).answer
      case Bulk(b) => [b]
      case Bulks(bs) => bs
      case _ => []
    else []
  }

  function Entered(run: seq<Event>, key: Bytes): (r: seq<Bytes>) {
    if run == [] then [] else Entered(run[..|run| - 1], key) + Entering(run[|run| - 1], key)
  }

  function Left(ks: Keyspace, run: seq<Event>, key: Bytes): (r: seq<Bytes>) {
    if run == [] then []
    else Left(ks, run[..|run| - 1], key) + Leaving(run[|run| - 1], key, State(ks, run[..|run| - 1]))
  }

  lemma QueueUpdated(ks: Keyspace, key: Bytes, t: Time, l: seq<Bytes>, u: Update, l': seq<Bytes>)
    requires Queued(ks, key, t, l)
    requires u == (if l' == [] then Drop else Put(Entry(ListV(l'), ZERO_TIME))) || (u == Keep && l' == l)
    ensures Queued(Updated(ks, key, u), key, t, l')
  {
    forall v | t <= v ensures Lookup(Updated(ks, key, u), key, v) == QueueEntry(l') {
      assert Lookup(ks, key, v) == QueueEntry(l);
    }
  }

  lemma PushQueues(e: Event, key: Bytes, ks: Keyspace, t: Time, l: seq<Bytes>)
    requires Queued(ks, key, t, l) && e.Command? && e.now >= t
    requires e.op.Push? && e.op.key == key && e.op.values != [] && !e.op.front
    ensures Queued(After(ks, e), key, t, l + e.op.values)
  {
    assert Lookup(ks, key, e.now) == QueueEntry(l);
    QueueUpdated(ks, key, t, l, Single(e.now, e.op, QueueEntry(l)).update, l + e.op.values);
  }

  // What a pop takes from the front and what it leaves.
  lemma PopTakes(now: Time, op: Op, l: seq<Bytes>) returns (out: seq<Bytes>, l': seq<Bytes>)
    requires op.Pop? && op.front
    ensures l == out + l'
    ensures
      var u := Single(now, op, QueueEntry(l)).update;
      u == (if l' == [] then Drop else Put(Entry(ListV(l'), ZERO_TIME))) || (u == Keep && l' == l)
    ensures out == match Single(now, op, QueueEntry(l)).answer
                   case Bulk(b) => [b]
                   case Bulks(bs) => bs
                   case _ => []
  {
    var r := PopEffect(QueueEntry(l), op.more, true);
    if l == [] || r.answer.Fail? {
      out, l' := [], l;
    } else {
      var count := if |op.more| == 1 then ParseInt(op.more[0]).value else 1;
      out, l' := Popped(l, count, true).0, Popped(l, count, true).1;
    }
  }

  lemma PopQueues(e: Event, key: Bytes, ks: Keyspace, t: Time, l: seq<Bytes>) returns (l': seq<Bytes>)
    requires Queued(ks, key, t, l) && e.Command? && e.now >= t && e.op.Pop? && e.op.key == key && e.op.front
    ensures Queued(After(ks, e), key, t, l') && l == Leaving(e, key, ks) + l'
  {
    assert Lookup(ks, key, e.now) == QueueEntry(l);
    var out;
    out, l' := PopTakes(e.now, e.op, l);
    QueueUpdated(ks, key, t, l, Single(e.now, e.op, QueueEntry(l)).update, l');
  }

  lemma SpareQueues(e: Event, key: Bytes, ks: Keyspace, t: Time, l: seq<Bytes>)
    requires Queued(ks, key, t, l) && Spares(e, key)
    requires e.Sweeping? ==> Sweep(ks, ks - e.gone, e.gone, e.now)
    ensures Queued(After(ks, e), key, t, l) && Entering(e, key) == [] == Leaving(e, key, ks)
  {
    if e.Command? {
      CommandSpares(ks, e.now, e.op, key);
      if IsSingle(e.op) {
        assert e.op.key in KeysOf(e.op);
      }
    }
    forall u | t <= u ensures Lookup(After(ks, e), key, u) == QueueEntry(l) {
      assert Lookup(ks, key, u) == QueueEntry(l);
    }
  }

  // What a command on the key, or anything else, makes of the queue.
  lemma QueueStep(e: Event, key: Bytes, ks: Keyspace, t: Time, l: seq<Bytes>) returns (l': seq<Bytes>)
    requires Queued(ks, key, t, l) && QueueEvent(e, key, t)
    requires e.Sweeping? ==> Sweep(ks, ks - e.gone, e.gone, e.now)
    ensures Queued(After(ks, e), key, t, l') && l + Entering(e, key) == Leaving(e, key, ks) + l'
  {
    if Spares(e, key) {
      SpareQueues(e, key, ks, t, l);
      l' := l;
    } else if e.op.Push? {
      PushQueues(e, key, ks, t, l);
      l' := l + e.op.values;
    } else {
      l' := PopQueues(e, key, ks, t, l);
    }
  }

  // First in, first out, and nothing lost: over any run in which the key is only pushed at
  // the back and popped at the front, amid any other commands and sweeps, what was in the
  // list and then entered it is, in order, what came out and then what is left.
  lemma {:induction false} FirstInFirstOut(ks: Keyspace, run: seq<Event>, key: Bytes, t: Time, l: seq<Bytes>)
    returns (l': seq<Bytes>)
    requires Queued(ks, key, t, l) && SweepsExpired(ks, run)
    requires forall i :: 0 <= i < |run| ==> QueueEvent(run[i], key, t)
    ensures Queued(State(ks, run), key, t, l') && l + Entered(run, key) == Left(ks, run, key) + l'
    decreases |run|
  {
    if run == [] {
      l' := l;
    } else {
      var k := |run| - 1;
      SweptInit(ks, run);
      var mid := FirstInFirstOut(ks, run[..k], key, t, l);
      assert SweepsAt(ks, run, k);
      l' := QueueStep(run[k], key, State(ks, run[..k]), t, mid);
      Reassociate(l, Entered(run[..k], key), Entering(run[k], key), Left(ks, run[..k], key), mid,
        Leaving(run[k], key, State(ks, run[..k])), l');
    }
  }

  lemma Reassociate(l: seq<Bytes>, a: seq<Bytes>, b: seq<Bytes>, c: seq<Bytes>, mid: seq<Bytes>, d: seq<Bytes>,
        l': seq<Bytes>)
    requires l + a == c + mid && mid + b == d + l'
    ensures l + (a + b) == (c + d) + l'
  {
    assert l + (a + b) == (l + a) + b == c + (mid + b) == c + (d + l') == (c + d) + l';
  }
}
