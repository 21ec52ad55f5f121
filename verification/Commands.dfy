// What the commands mean: each handler (internal/command) as a function of the clock,
// the arguments and the keyspace. Stored collections appear as the abstract values that
// the collection types are proved to refine.
module Commands {
  import opened ByteStrings
  import opened Options
  import opened Decimals
  import opened Limits

  // Times are nanoseconds since the Unix epoch. The zero time.Time, which marks an entry
  // without a deadline, is 1 January of year 1.
  type Time = int
  const ZERO_TIME: Time := -62135596800 * 1_000_000_000
  const SECOND: int := 1_000_000_000
  const MILLISECOND: int := 1_000_000

  datatype Value =
    | Str(bytes: Bytes)
    | ListV(elems: seq<Bytes>)
    | HashV(fields: map<Bytes, Bytes>)
    | SetV(members: set<Bytes>)
    | ZSetV(scores: map<Bytes, int>)

  function KindName(v: Value): (name: string) {
    match v
    case Str(_) => "string"
    case ListV(_) => "list"
    case HashV(_) => "hash"
    case SetV(_) => "set"
    case ZSetV(_) => "zset"
  }

  // Expiry includes the deadline itself.
  predicate Gone(deadline: Time, now: Time) {
    deadline != ZERO_TIME && now >= deadline
  }

  datatype Entry = Entry(value: Value, expireAt: Time) {
    predicate HasExpiry() {
      expireAt != ZERO_TIME
    }

    predicate Expired(now: Time) {
      Gone(expireAt, now)
    }
  }

  type Keyspace = map<Bytes, Entry>

  // Keyspace.peek.
  function Lookup(ks: Keyspace, key: Bytes, now: Time): (e: Option<Entry>) {
    if key in ks && !ks[key].Expired(now) then Some(ks[key]) else None
  }

  // A score argument, with what strconv.ParseFloat makes of it; NaN counts as unparsable.
  datatype ScoreArg = ScoreArg(text: Bytes, score: Option<int>)

  datatype ScoredMember = ScoredMember(score: ScoreArg, member: Bytes)

  datatype Op =
    | Get(key: Bytes)
    | Set(key: Bytes, value: Bytes)
    | IncrBy(key: Bytes, delta: int)
    | Del(keys: seq<Bytes>)
    | Unlink(keys: seq<Bytes>)
    | Exists(keys: seq<Bytes>)
    | Expire(key: Bytes, secs: Bytes)
    | PExpireAt(key: Bytes, ms: Bytes)
    | Ttl(key: Bytes)
    | Persist(key: Bytes)
    | Type(key: Bytes)
    | Push(key: Bytes, values: seq<Bytes>, front: bool)
    | Pop(key: Bytes, more: seq<Bytes>, front: bool)
    | LRange(key: Bytes, start: Bytes, stop: Bytes)
    | LLen(key: Bytes)
    | HSet(key: Bytes, rest: seq<Bytes>)
    | HGet(key: Bytes, field: Bytes)
    | HDel(key: Bytes, rest: seq<Bytes>)
    | HGetAll(key: Bytes)
    | SAdd(key: Bytes, rest: seq<Bytes>)
    | SRem(key: Bytes, rest: seq<Bytes>)
    | SMembers(key: Bytes)
    | SInter(keys: seq<Bytes>)
    | ZAdd(key: Bytes, pairs: seq<ScoredMember>, odd: bool)
    | ZRange(key: Bytes, start: Bytes, stop: Bytes, withScores: Option<bool>)   // None is a syntax error
    | ZScore(key: Bytes, member: Bytes)
    | FlushDB
    | Plain   // PING, SELECT and CONFIG touch no keyspace

  datatype Err = Syntax | WrongType | NotInteger | NotFloat | Overflow | WrongArity | NegativeCount

  // Replies; collections whose listing order is unspecified are given as sets and maps.
  datatype Answer =
    | Done
    | Nil
    | Int(n: int)
    | Bulk(bytes: Bytes)
    | Bulks(elems: seq<Bytes>)
    | Fields(fields: map<Bytes, Bytes>)
    | Members(members: set<Bytes>)
    | Ranked(scores: map<Bytes, int>, start: int, stop: int, withScores: bool)
    | Score(score: int)
    | Text(text: string)
    | Fail(err: Err)

  // What a handler does to the entry under its key. Keep leaves whatever is stored there,
  // including an entry that has expired.
  datatype Update = Keep | Put(entry: Entry) | Drop

  datatype Effect = Effect(update: Update, answer: Answer)

  function Failed(e: Err): (r: Effect) {
    Effect(Keep, Fail(e))
  }

  // The stored entry with a new value, or a new entry without a deadline.
  function Stored(e: Option<Entry>, v: Value): (u: Update) {
    Put(if e.Some? then e.value.(value := v) else Entry(v, ZERO_TIME))
  }

  // An emptied collection is removed.
  function StoredOrDropped(e: Entry, v: Value, empty: bool): (u: Update) {
    if empty then Drop else Put(e.(value := v))
  }

  function IncrEffect(e: Option<Entry>, delta: int): (r: Effect) {
    if e.Some? && !e.value.value.Str? then Failed(WrongType)
    else
      var cur := if e.Some? then ParseInt(e.value.value.bytes) else Some(0);
      if cur.None? then Failed(NotInteger)
      else if (delta > 0 && cur.value > MAX_INT64 - delta) || (delta < 0 && cur.value < MIN_INT64 - delta) then
        Failed(Overflow)
      else Effect(Stored(e, Str(FormatInt(cur.value + delta))), Int(cur.value + delta))
  }

  function DeadlineEffect(e: Option<Entry>, at: Time): (r: Effect) {
    if e.Some? then Effect(Put(e.value.(expireAt := at)), Int(1)) else Effect(Keep, Int(0))
  }

  // time.Duration(secs) * time.Second wraps around at 64 bits.
  function ExpireDeadline(now: Time, secs: int): (at: Time) {
    now + Wrap64(secs * SECOND)
  }

  function ExpireEffect(now: Time, e: Option<Entry>, secs: Bytes): (r: Effect) {
    var n := ParseInt(secs);
    if n.None? then Failed(NotInteger) else DeadlineEffect(e, ExpireDeadline(now, n.value))
  }

  function PExpireAtEffect(e: Option<Entry>, ms: Bytes): (r: Effect) {
    var n := ParseInt(ms);
    if n.None? then Failed(NotInteger) else DeadlineEffect(e, n.value * MILLISECOND)
  }

  function PersistEffect(e: Option<Entry>): (r: Effect) {
    if e.Some? && e.value.HasExpiry() then Effect(Put(e.value.(expireAt := ZERO_TIME)), Int(1))
    else Effect(Keep, Int(0))
  }

  // e.ExpireAt.Sub(now) saturates; the rest rounds to the nearest second.
  function TtlAnswer(now: Time, e: Option<Entry>): (a: Answer) {
    if e.None? then Int(-2)
    else if !e.value.HasExpiry() then Int(-1)
    else
      var left := e.value.expireAt - now;
      var d := if left > MAX_INT64 then MAX_INT64 else left;
      var ms := if d < 0 then 0 else d / MILLISECOND;
      Int((ms + 500) / 1000)
  }

  function Elements(s: seq<Bytes>): (r: set<Bytes>) {
    set x | x in s
  }

  function Reversed(s: seq<Bytes>): (r: seq<Bytes>)
    ensures |r| == |s|
  {
    if s == [] then [] else Reversed(s[1..]) + [s[0]]
  }

  // Pushing at the front one value at a time leaves them in reverse.
  function Pushed(l: seq<Bytes>, values: seq<Bytes>, front: bool): (r: seq<Bytes>) {
    if front then Reversed(values) + l else l + values
  }

  function PushEffect(e: Option<Entry>, values: seq<Bytes>, front: bool): (r: Effect) {
    if e.Some? && !e.value.value.ListV? then Failed(WrongType)
    else
      var l := Pushed(if e.Some? then e.value.value.elems else [], values, front);
      Effect(Stored(e, ListV(l)), Int(|l|))
  }

  // The first n elements from one end, in the order they are popped, and what remains.
  function Popped(l: seq<Bytes>, n: nat, front: bool): (r: (seq<Bytes>, seq<Bytes>)) {
    var k := if n > |l| then |l| else n;
    if front then (l[..k], l[k..]) else (Reversed(l[|l| - k..]), l[..|l| - k])
  }

  function PopFrom(e: Option<Entry>, count: nat, counted: bool, front: bool): (r: Effect) {
    if e.None? then Effect(Keep, Nil)
    else if !e.value.value.ListV? then Failed(WrongType)
    else
      var (out, rest) := Popped(e.value.value.elems, count, front);
      var answer := if counted then Bulks(out) else Bulk(if out == [] then [] else out[0]);
      Effect(StoredOrDropped(e.value, ListV(rest), rest == []), answer)
  }

  function PopEffect(e: Option<Entry>, more: seq<Bytes>, front: bool): (r: Effect) {
    if |more| > 1 then Failed(WrongArity)
    else
      var count := if |more| == 1 then ParseInt(more[0]) else Some(1);
      if count.None? then Failed(NotInteger)
      else if count.value < 0 then Failed(NegativeCount)
      else PopFrom(e, count.value, |more| == 1, front)
  }

  // field, value, field, value, ... into a map; a later value for a field wins.
  function FieldsSet(m: map<Bytes, Bytes>, rest: seq<Bytes>): (r: map<Bytes, Bytes>)
    requires |rest| % 2 == 0
  {
    if rest == [] then m
    else
      var k := |rest| - 2;
      FieldsSet(m, rest[..k])[rest[k] := rest[k + 1]]
  }

  function HSetEffect(e: Option<Entry>, rest: seq<Bytes>): (r: Effect) {
    if |rest| % 2 != 0 then Failed(WrongArity)
    else if e.Some? && !e.value.value.HashV? then Failed(WrongType)
    else
      var m := if e.Some? then e.value.value.fields else map[];
      var m' := FieldsSet(m, rest);
      Effect(Stored(e, HashV(m')), Int(|m'| - |m|))
  }

  function HDelEffect(e: Option<Entry>, rest: seq<Bytes>): (r: Effect) {
    if e.None? then Effect(Keep, Int(0))
    else if !e.value.value.HashV? then Failed(WrongType)
    else
      var m := e.value.value.fields;
      var m' := m - Elements(rest);
      Effect(StoredOrDropped(e.value, HashV(m'), m' == map[]), Int(|m| - |m'|))
  }

  function SAddEffect(e: Option<Entry>, rest: seq<Bytes>): (r: Effect) {
    if e.Some? && !e.value.value.SetV? then Failed(WrongType)
    else
      var s := if e.Some? then e.value.value.members else {};
      var s' := s + Elements(rest);
      Effect(Stored(e, SetV(s')), Int(|s'| - |s|))
  }

  function SRemEffect(e: Option<Entry>, rest: seq<Bytes>): (r: Effect) {
    if e.None? then Effect(Keep, Int(0))
    else if !e.value.value.SetV? then Failed(WrongType)
    else
      var s := e.value.value.members;
      var s' := s - Elements(rest);
      Effect(StoredOrDropped(e.value, SetV(s'), s' == {}), Int(|s| - |s'|))
  }

  predicate AllScored(pairs: seq<ScoredMember>) {
    forall i :: 0 <= i < |pairs| ==> pairs[i].score.score.Some?
  }

  function ScoresSet(m: map<Bytes, int>, pairs: seq<ScoredMember>): (r: map<Bytes, int>)
    requires AllScored(pairs)
  {
    if pairs == [] then m
    else
      var k := |pairs| - 1;
      ScoresSet(m, pairs[..k])[pairs[k].member := pairs[k].score.score.value]
  }

  function ZAddEffect(e: Option<Entry>, pairs: seq<ScoredMember>, odd: bool): (r: Effect) {
    if odd then Failed(WrongArity)
    else if !AllScored(pairs) then Failed(NotFloat)
    else if e.Some? && !e.value.value.ZSetV? then Failed(WrongType)
    else
      var m := if e.Some? then e.value.value.scores else map[];
      var m' := ScoresSet(m, pairs);
      Effect(Stored(e, ZSetV(m')), Int(|m'| - |m|))
  }

  function LRangeAnswer(e: Option<Entry>, start: Bytes, stop: Bytes): (a: Answer) {
    var lo, hi := ParseInt(start), ParseInt(stop);
    if lo.None? || hi.None? then Fail(NotInteger)
    else if e.None? then Bulks([])
    else if !e.value.value.ListV? then Fail(WrongType)
    else Bulks(Selected(e.value.value.elems, lo.value, hi.value))
  }

  function ZRangeAnswer(e: Option<Entry>, start: Bytes, stop: Bytes, withScores: Option<bool>): (a: Answer) {
    var lo, hi := ParseInt(start), ParseInt(stop);
    if withScores.None? then Fail(Syntax)
    else if lo.None? || hi.None? then Fail(NotInteger)
    else if e.None? then Bulks([])
    else if !e.value.value.ZSetV? then Fail(WrongType)
    else Ranked(e.value.value.scores, lo.value, hi.value, withScores.value)
  }

  predicate IsSingle(op: Op) {
    !op.Del? && !op.Unlink? && !op.Exists? && !op.SInter? && !op.FlushDB? && !op.Plain?
  }

  // The keys a command names.
  function KeysOf(op: Op): (r: seq<Bytes>) {
    if IsSingle(op) then [op.key]
    else if op.Del? || op.Unlink? || op.Exists? || op.SInter? then op.keys
    else []
  }

  // A single-key handler, as a function of the live entry under its key.
  function Single(now: Time, op: Op, e: Option<Entry>): (r: Effect)
    requires IsSingle(op)
  {
    match op
    case Get(_) =>
      Effect(Keep,
        if e.None? then Nil
        else if e.value.value.Str? then Bulk(e.value.value.bytes) else Fail(WrongType))
    case Set(_, v) => Effect(Put(Entry(Str(v), ZERO_TIME)), Done)
    case IncrBy(_, delta) => IncrEffect(e, delta)
    case Expire(_, secs) => ExpireEffect(now, e, secs)
    case PExpireAt(_, ms) => PExpireAtEffect(e, ms)
    case Ttl(_) => Effect(Keep, TtlAnswer(now, e))
    case Persist(_) => PersistEffect(e)
    case Type(_) => Effect(Keep, Text(if e.None? then "none" else KindName(e.value.value)))
    case Push(_, values, front) => PushEffect(e, values, front)
    case Pop(_, more, front) => PopEffect(e, more, front)
    case LRange(_, start, stop) => Effect(Keep, LRangeAnswer(e, start, stop))
    case LLen(_) =>
      Effect(Keep,
        if e.None? then Int(0)
        else if e.value.value.ListV? then Int(|e.value.value.elems|) else Fail(WrongType))
    case HSet(_, rest) => HSetEffect(e, rest)
    case HGet(_, f) =>
      Effect(Keep,
        if e.None? then Nil
        else if !e.value.value.HashV? then Fail(WrongType)
        else if f in e.value.value.fields then Bulk(e.value.value.fields[f]) else Nil)
    case HDel(_, rest) => HDelEffect(e, rest)
    case HGetAll(_) =>
      Effect(Keep,
        if e.None? then Fields(map[])
        else if e.value.value.HashV? then Fields(e.value.value.fields) else Fail(WrongType))
    case SAdd(_, rest) => SAddEffect(e, rest)
    case SRem(_, rest) => SRemEffect(e, rest)
    case SMembers(_) =>
      Effect(Keep,
        if e.None? then Members({})
        else if e.value.value.SetV? then Members(e.value.value.members) else Fail(WrongType))
    case ZAdd(_, pairs, odd) => ZAddEffect(e, pairs, odd)
    case ZRange(_, start, stop, withScores) => Effect(Keep, ZRangeAnswer(e, start, stop, withScores))
    case ZScore(_, m) =>
      Effect(Keep,
        if e.None? then Nil
        else if !e.value.value.ZSetV? then Fail(WrongType)
        else if m in e.value.value.scores then Score(e.value.value.scores[m]) else Nil)
  }

  function Updated(ks: Keyspace, key: Bytes, u: Update): (r: Keyspace) {
    match u
    case Keep => ks
    case Put(e) => ks[key := e]
    case Drop => ks - {key}
  }

  // The outcome of a single-key handler.
  function Applied(ks: Keyspace, key: Bytes, e: Effect): (r: Outcome) {
    Outcome(Updated(ks, key, e.update), e.answer)
  }

  // How many of the keys are live when their turn comes to be deleted.
  function CountLive(ks: Keyspace, keys: seq<Bytes>, now: Time): (n: nat) {
    if keys == [] then 0
    else
      var k := |keys| - 1;
      CountLive(ks, keys[..k], now) + if keys[k] !in keys[..k] && Lookup(ks, keys[k], now).Some? then 1 else 0
  }

  function CountExisting(ks: Keyspace, keys: seq<Bytes>, now: Time): (n: nat) {
    if keys == [] then 0
    else
      var k := |keys| - 1;
      CountExisting(ks, keys[..k], now) + if Lookup(ks, keys[k], now).Some? then 1 else 0
  }

  // SINTER collects its sets in order; the first key that is absent or holds something
  // else ends the command.
  datatype Gathered = Sets(sets: seq<set<Bytes>>) | Stop(answer: Answer)

  function Gather(ks: Keyspace, keys: seq<Bytes>, now: Time): (g: Gathered)
    ensures g.Sets? ==> |g.sets| == |keys|
  {
    if keys == [] then Sets([])
    else
      var k := |keys| - 1;
      var before := Gather(ks, keys[..k], now);
      var e := Lookup(ks, keys[k], now);
      if before.Stop? then before
      else if e.None? then Stop(Members({}))
      else if !e.value.value.SetV? then Stop(Fail(WrongType))
      else Sets(before.sets + [e.value.value.members])
  }

  function Intersection(sets: seq<set<Bytes>>): (r: set<Bytes>) {
    if sets == [] then {} else set x | x in sets[0] && forall i :: 0 <= i < |sets| ==> x in sets[i]
  }

  function SInterAnswer(ks: Keyspace, keys: seq<Bytes>, now: Time): (a: Answer) {
    var g := Gather(ks, keys, now);
    if g.Stop? then g.answer else Members(Intersection(g.sets))
  }

  datatype Outcome = Outcome(keyspace: Keyspace, answer: Answer)

  // Run a command that has passed its arity check.
  function Exec(now: Time, op: Op, ks: Keyspace): (r: Outcome) {
    match op
    case Del(keys) => Outcome(ks - Elements(keys), Int(CountLive(ks, keys, now)))
    case Unlink(keys) => Outcome(ks - Elements(keys), Int(CountLive(ks, keys, now)))
    case Exists(keys) => Outcome(ks, Int(CountExisting(ks, keys, now)))
    case SInter(keys) => Outcome(ks, SInterAnswer(ks, keys, now))
    case FlushDB => Outcome(map[], Done)
    case Plain => Outcome(ks, Done)
    case _ =>
      Applied(ks, op.key, Single(now, op, Lookup(ks, op.key, now)))
  }

  // The arity rules of the command table that matter to the handlers.
  predicate Accepted(op: Op) {
    match op
    case IncrBy(_, delta) => delta == 1 || delta == -1
    case Push(_, values, _) => |values| >= 1
    case HSet(_, rest) => |rest| >= 2
    case HDel(_, rest) => |rest| >= 1
    case SAdd(_, rest) => |rest| >= 1
    case SRem(_, rest) => |rest| >= 1
    case ZAdd(_, pairs, odd) => |pairs| >= 1
    case Del(keys) => |keys| >= 1
    case Unlink(keys) => |keys| >= 1
    case Exists(keys) => |keys| >= 1
    case SInter(keys) => |keys| >= 1
    case _ => true
  }
}
