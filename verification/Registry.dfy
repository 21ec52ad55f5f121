// The command table (internal/command): which keys a command declares, which lock it gets,
// and what its handler reads out of the arguments.
module Registry {
  import opened ByteStrings
  import opened Names
  import opened Options
  import opened Scores
  import C = Commands
  import Replays

  // A row of the table. firstKey 0 means no keys; a negative lastKey counts from the end.
  datatype Spec = Spec(arity: int, readOnly: bool, wholeDB: bool, firstKey: nat, lastKey: int, keyStep: nat) {
    predicate Accepts(n: nat) {
      if arity >= 0 then n == arity else n >= -arity
    }

    predicate SingleKey() {
      firstKey == 1 && lastKey == 1 && keyStep == 1 && !wholeDB
    }
  }

  function Plain(arity: int): (s: Spec) { Spec(arity, false, false, 0, 0, 0) }
  function ReadKey(arity: int): (s: Spec) { Spec(arity, true, false, 1, 1, 1) }
  function WriteKey(arity: int): (s: Spec) { Spec(arity, false, false, 1, 1, 1) }
  function ReadKeys(arity: int): (s: Spec) { Spec(arity, true, false, 1, -1, 1) }
  function WriteKeys(arity: int): (s: Spec) { Spec(arity, false, false, 1, -1, 1) }
  function WholeDB(arity: int): (s: Spec) { Spec(arity, false, true, 0, 0, 0) }

  function Table(v: Verb): (s: Spec)
    ensures !s.Accepts(0)
  {
    match v
    case Get => ReadKey(2)
    case Set => WriteKey(3)
    case Incr => WriteKey(2)
    case Decr => WriteKey(2)
    case Del => WriteKeys(-2)
    case Unlink => WriteKeys(-2)
    case Exists => ReadKeys(-2)
    case Expire => WriteKey(3)
    case PExpireAt => WriteKey(3)
    case Ttl => ReadKey(2)
    case Persist => WriteKey(2)
    case Type => ReadKey(2)
    case LPush => WriteKey(-3)
    case RPush => WriteKey(-3)
    case LPop => WriteKey(-2)
    case RPop => WriteKey(-2)
    case LRange => ReadKey(4)
    case LLen => ReadKey(2)
    case HSet => WriteKey(-4)
    case HGet => ReadKey(3)
    case HDel => WriteKey(-3)
    case HGetAll => ReadKey(2)
    case SAdd => WriteKey(-3)
    case SRem => WriteKey(-3)
    case SMembers => ReadKey(2)
    case SInter => ReadKeys(-2)
    case ZAdd => WriteKey(-4)
    case ZRange => ReadKey(-4)
    case ZScore => ReadKey(3)
    case Ping => Plain(-1)
    case Select => Plain(2)
    case Config => Plain(-2)
    case FlushDB => WholeDB(-1)
  }

  // What lies outside this model: float parsing and Unicode case folding.
  datatype Text = Text(float: Bytes -> Option<Score>, isWithScores: Bytes -> bool)

  // Scores matter by their numeric value.
  function ScoreOf(t: Text, b: Bytes): (r: Option<int>) {
    if t.float(b).Some? then Some(Num(t.float(b).value)) else None
  }

  function ScorePairs(t: Text, rest: seq<Bytes>): (r: seq<C.ScoredMember>)
    ensures |r| == |rest| / 2
  {
    if |rest| < 2 then []
    else [C.ScoredMember(C.ScoreArg(rest[0], ScoreOf(t, rest[0])), rest[1])] + ScorePairs(t, rest[2..])
  }

  function ScoresWanted(t: Text, rest: seq<Bytes>): (r: Option<bool>) {
    if rest == [] then Some(false)
    else if |rest| == 1 && t.isWithScores(rest[0]) then Some(true)
    else None
  }

  // The operation a handler performs on its arguments.
  function Parse(t: Text, v: Verb, args: seq<Bytes>): (op: C.Op)
    requires Table(v).Accepts(|args|)
  {
    match v
    case Get => C.Get(args[1])
    case Set => C.Set(args[1], args[2])
    case Incr => C.IncrBy(args[1], 1)
    case Decr => C.IncrBy(args[1], -1)
    case Del => C.Del(args[1..])
    case Unlink => C.Unlink(args[1..])
    case Exists => C.Exists(args[1..])
    case Expire => C.Expire(args[1], args[2])
    case PExpireAt => C.PExpireAt(args[1], args[2])
    case Ttl => C.Ttl(args[1])
    case Persist => C.Persist(args[1])
    case Type => C.Type(args[1])
    case LPush => C.Push(args[1], args[2..], true)
    case RPush => C.Push(args[1], args[2..], false)
    case LPop => C.Pop(args[1], args[2..], true)
    case RPop => C.Pop(args[1], args[2..], false)
    case LRange => C.LRange(args[1], args[2], args[3])
    case LLen => C.LLen(args[1])
    case HSet => C.HSet(args[1], args[2..])
    case HGet => C.HGet(args[1], args[2])
    case HDel => C.HDel(args[1], args[2..])
    case HGetAll => C.HGetAll(args[1])
    case SAdd => C.SAdd(args[1], args[2..])
    case SRem => C.SRem(args[1], args[2..])
    case SMembers => C.SMembers(args[1])
    case SInter => C.SInter(args[1..])
    case ZAdd => C.ZAdd(args[1], ScorePairs(t, args[2..]), |args| % 2 != 0)
    case ZRange => C.ZRange(args[1], args[2], args[3], ScoresWanted(t, args[4..]))
    case ZScore => C.ZScore(args[1], args[2])
    case Ping => C.Plain
    case Select => C.Plain
    case Config => C.Plain
    case FlushDB => C.FlushDB
  }

  // Every step-th argument from first to last.
  function Strided(args: seq<Bytes>, first: nat, last: int, step: nat): (r: seq<Bytes>)
    requires last < |args| && step >= 1
    decreases last - first
  {
    if first > last then [] else [args[first]] + Strided(args, first + step, last, step)
  }

  function LastKey(s: Spec, n: nat): (last: int)
    ensures last < n
  {
    var last := if s.lastKey < 0 then n + s.lastKey else s.lastKey;
    if last >= n then n - 1 else last
  }

  function DeclaredKeys(s: Spec, args: seq<Bytes>): (r: seq<Bytes>)
    requires s.firstKey > 0 ==> s.keyStep >= 1
  {
    if s.firstKey == 0 || s.wholeDB then [] else Strided(args, s.firstKey, LastKey(s, |args|), s.keyStep)
  }

  // Command.Keys.
  method Keys(s: Spec, args: seq<Bytes>) returns (keys: seq<Bytes>)
    requires s.firstKey > 0 ==> s.keyStep >= 1
    ensures keys == DeclaredKeys(s, args)
  {
    if s.firstKey == 0 || s.wholeDB {
      return [];
    }
    var last := s.lastKey;
    if last < 0 {
      last := |args| + last;
    }
    if last >= |args| {
      last := |args| - 1;
    }
    keys := [];
    var i := s.firstKey;
    while i <= last
      invariant keys + Strided(args, i, last, s.keyStep) == DeclaredKeys(s, args)
      decreases last - i
    {
      keys := keys + [args[i]];
      i := i + s.keyStep;
    }
  }

  lemma {:induction false} StridedByOne(args: seq<Bytes>, first: nat, last: int)
    requires first <= last + 1 <= |args|
    ensures Strided(args, first, last, 1) == args[first..last + 1]
    decreases last - first
  {
    if first <= last {
      StridedByOne(args, first + 1, last);
      assert args[first..last + 1] == [args[first]] + args[first + 1..last + 1];
    }
  }

  // The keys the executor hashes to find the shards to lock are the keys the handler names.
  lemma DeclaredKeysAreTouched(t: Text, v: Verb, args: seq<Bytes>)
    requires Table(v).Accepts(|args|)
    ensures DeclaredKeys(Table(v), args) == C.KeysOf(Parse(t, v, args))
  {
    var s := Table(v);
    if s.firstKey == 1 {
      StridedByOne(args, 1, LastKey(s, |args|));
    }
    KeysByShape(t, v, args);
  }

  // One key, all arguments, or none.
  lemma KeysByShape(t: Text, v: Verb, args: seq<Bytes>)
    requires Table(v).Accepts(|args|)
    ensures
      var s := Table(v);
      C.KeysOf(Parse(t, v, args)) ==
        if s.firstKey == 0 then [] else if s.lastKey == 1 then [args[1]] else args[1..]
  {
  }

  // A shared lock is taken exactly for commands that never change the keyspace, one lock
  // for those that name one key, and every lock for the one that names none but changes all.
  lemma LockModeIsRight(t: Text, v: Verb, args: seq<Bytes>)
    requires Table(v).Accepts(|args|)
    ensures Table(v).readOnly <==> !Replays.IsWrite(Parse(t, v, args))
    ensures Table(v).wholeDB <==> Parse(t, v, args).FlushDB?
    ensures Table(v).SingleKey() <==> C.IsSingle(Parse(t, v, args))
  {
    match v
    case Get => case Set => case Incr => case Decr => case Del => case Unlink => case Exists =>
    case Expire => case PExpireAt => case Ttl => case Persist => case Type => case LPush =>
    case RPush => case LPop => case RPop => case LRange => case LLen => case HSet => case HGet =>
    case HDel => case HGetAll => case SAdd => case SRem => case SMembers => case SInter =>
    case ZAdd => case ZRange => case ZScore => case Ping => case Select => case Config =>
    case FlushDB =>
  }

  lemma AritySuffices(t: Text, v: Verb, args: seq<Bytes>)
    requires Table(v).Accepts(|args|)
    ensures C.Accepted(Parse(t, v, args))
  {
    if v.ZAdd? {
      assert |ScorePairs(t, args[2..])| == (|args| - 2) / 2;
    }
  }
}
