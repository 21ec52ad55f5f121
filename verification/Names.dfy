// Command names (internal/command/registry.go): found in any ASCII case.
module Names {
  import opened ByteStrings
  import opened Options

  datatype Verb =
    | Get | Set | Incr | Decr
    | Del | Unlink | Exists | Expire | PExpireAt | Ttl | Persist | Type
    | LPush | RPush | LPop | RPop | LRange | LLen
    | HSet | HGet | HDel | HGetAll
    | SAdd | SRem | SMembers | SInter
    | ZAdd | ZRange | ZScore
    | Ping | Select | Config | FlushDB

  const MAX_NAME := 32

  // Text in the ASCII range, as bytes.
  function Ascii(s: string): (b: Bytes)
    ensures |b| == |s|
    ensures forall i :: 0 <= i < |s| ==> b[i] == s[i] as int % 256
  {
    seq(|s|, i requires 0 <= i < |s| => s[i] as int % 256)
  }

  // The name each command is registered under.
  function NameOf(v: Verb): (s: string) {
    match v
    case Get => "get"
    case Set => "set"
    case Incr => "incr"
    case Decr => "decr"
    case Del => "del"
    case Unlink => "unlink"
    case Exists => "exists"
    case Expire => "expire"
    case PExpireAt => "pexpireat"
    case Ttl => "ttl"
    case Persist => "persist"
    case Type => "type"
    case LPush => "lpush"
    case RPush => "rpush"
    case LPop => "lpop"
    case RPop => "rpop"
    case LRange => "lrange"
    case LLen => "llen"
    case HSet => "hset"
    case HGet => "hget"
    case HDel => "hdel"
    case HGetAll => "hgetall"
    case SAdd => "sadd"
    case SRem => "srem"
    case SMembers => "smembers"
    case SInter => "sinter"
    case ZAdd => "zadd"
    case ZRange => "zrange"
    case ZScore => "zscore"
    case Ping => "ping"
    case Select => "select"
    case Config => "config"
    case FlushDB => "flushdb"
  }

  const VERBS: seq<Verb> := [
    Get, Set, Incr, Decr, Del, Unlink, Exists, Expire, PExpireAt, Ttl, Persist, Type,
    LPush, RPush, LPop, RPop, LRange, LLen, HSet, HGet, HDel, HGetAll,
    SAdd, SRem, SMembers, SInter, ZAdd, ZRange, ZScore, Ping, Select, Config, FlushDB]

  function Lower(b: Byte): (r: Byte) {
    if 65 <= b <= 90 then b + 32 else b
  }

  function Folded(name: Bytes): (r: Bytes)
    ensures |r| == |name|
    ensures forall i :: 0 <= i < |name| ==> r[i] == Lower(name[i])
  {
    seq(|name|, i requires 0 <= i < |name| => Lower(name[i]))
  }

  function Find(vs: seq<Verb>, name: Bytes): (r: Option<Verb>)
    ensures r.Some? ==> r.value in vs && Ascii(NameOf(r.value)) == name
    ensures r.None? ==> forall v :: v in vs ==> Ascii(NameOf(v)) != name
  {
    if vs == [] then None
    else if Ascii(NameOf(vs[0])) == name then Some(vs[0])
    else Find(vs[1..], name)
  }

  function Named(name: Bytes): (r: Option<Verb>) {
    if |name| > MAX_NAME then None else Find(VERBS, Folded(name))
  }

  // lookupFold: fold into a buffer, then look the name up.
  method LookupFold(name: Bytes) returns (r: Option<Verb>)
    ensures r == Named(name)
  {
    if |name| == 0 || |name| > MAX_NAME {
      if |name| == 0 {
        NoEmptyName();
      }
      return None;
    }
    var buf: Bytes := [];
    for i := 0 to |name|
      invariant |buf| == i && forall j :: 0 <= j < i ==> buf[j] == Lower(name[j])
    {
      var b := name[i];
      if b >= 65 && b <= 90 {
        b := b + 32;
      }
      buf := buf + [b];
    }
    assert buf == Folded(name);
    r := Find(VERBS, buf);
  }

  lemma NoEmptyName()
    ensures Find(VERBS, []) == None
  {
    forall v: Verb ensures |Ascii(NameOf(v))| >= 3 {
      Shape(v);
    }
  }

  // Length, first, second and last letter tell the names apart: as a number in base 128.
  function LettersOf(s: string): (r: int)
    requires |s| >= 3
  {
    |s| * 0x20_0000 + s[0] as int * 0x4000 + s[1] as int * 0x80 + s[|s| - 1] as int
  }

  function Known(v: Verb): (r: int) {
    match v
    case Get => 7992052
    case Set => 8188660
    case Incr => 10123122
    case Decr => 10040050
    case Del => 7942892
    case Unlink => 14514027
    case Exists => 14253171
    case Expire => 14253157
    case PExpireAt => 20722420
    case Ttl => 8206956
    case Persist => 16528116
    case Type => 10304741
    case LPush => 12269672
    case RPush => 12367976
    case LPop => 10172528
    case RPop => 10270832
    case LRange => 14367077
    case LLen => 10172014
    case HSet => 10107380
    case HGet => 10105844
    case HDel => 10105452
    case HGetAll => 16397292
    case SAdd => 10285284
    case SRem => 10287469
    case SMembers => 18675443
    case SInter => 14480626
    case ZAdd => 10399972
    case ZRange => 14596453
    case ZScore => 14596581
    case Ping => 10237159
    case Select => 14480116
    case Config => 14219239
    case FlushDB => 16365154
  }

  predicate Plain(s: string) {
    3 <= |s| <= MAX_NAME && forall i :: 0 <= i < |s| ==> 'a' <= s[i] <= 'z'
  }

  lemma Shape(v: Verb)
    ensures Plain(NameOf(v)) && LettersOf(NameOf(v)) == Known(v)
  {
    Lengths(v);
    forall i | 0 <= i < |NameOf(v)| ensures 'a' <= NameOf(v)[i] <= 'z' {
      AllLower(v, i);
    }
    Letter(v);
  }

  lemma Lengths(v: Verb)
    ensures 3 <= |NameOf(v)| <= MAX_NAME
  {
  }

  lemma AllLower(v: Verb, i: nat)
    requires i < |NameOf(v)|
    ensures 'a' <= NameOf(v)[i] <= 'z'
  {
  }

  lemma Letter(v: Verb)
    ensures |NameOf(v)| >= 3 && LettersOf(NameOf(v)) == Known(v)
  {
  }

  lemma SameText(a: string, b: string)
    requires Plain(a) && Plain(b) && Ascii(a) == Ascii(b)
    ensures LettersOf(a) == LettersOf(b)
  {
    forall i | 0 <= i < |a| ensures a[i] == b[i] {
      assert Ascii(a)[i] == Ascii(b)[i];
    }
    assert a == b;
  }

  lemma AlreadyLower(a: string)
    requires Plain(a)
    ensures Folded(Ascii(a)) == Ascii(a)
  {
  }

  lemma KnownApart(v: Verb, w: Verb)
    requires Known(v) == Known(w)
    ensures v == w
  {
  }

  lemma SameName(v: Verb, w: Verb)
    requires Ascii(NameOf(v)) == Ascii(NameOf(w))
    ensures v == w
  {
    Shape(v);
    Shape(w);
    SameText(NameOf(v), NameOf(w));
    KnownApart(v, w);
  }

  lemma EveryVerb(v: Verb)
    ensures v in VERBS
  {
  }

  lemma FoundIff(vs: seq<Verb>, name: Bytes, v: Verb)
    requires v in vs
    ensures Find(vs, name) == Some(v) <==> name == Ascii(NameOf(v))
  {
    var r := Find(vs, name);
    if name == Ascii(NameOf(v)) {
      SameName(v, r.value);
    }
  }

  // A name in any mixture of cases finds its command, and nothing else does.
  lemma NamedIff(name: Bytes, v: Verb)
    ensures Named(name) == Some(v) <==> Folded(name) == Ascii(NameOf(v))
  {
    Shape(v);
    EveryVerb(v);
    FoundIff(VERBS, Folded(name), v);
  }

  // The names as the table has them are found.
  lemma OwnName(v: Verb)
    ensures Named(Ascii(NameOf(v))) == Some(v)
  {
    Shape(v);
    AlreadyLower(NameOf(v));
    NamedIff(Ascii(NameOf(v)), v);
  }
}
