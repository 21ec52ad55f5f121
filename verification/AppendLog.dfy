// The append log's record format and segment replay (internal/persistence/appendlog.go,
// recover.go).
module AppendLog {
  import opened ByteStrings
  import opened Varints
  import opened Packs
  import opened Streams

  // One logged write: the database it ran against and its arguments.
  datatype Command = Command(db: nat, args: seq<Bytes>) {
    // Database indices, argument counts and argument lengths are Go ints.
    predicate Loggable() {
      db < TWO63 && |args| < TWO63 && forall i :: 0 <= i < |args| ==> |args[i]| < TWO63
    }
  }

  type Record = c: Command | c.Loggable() witness Command(0, [])

  function Blobs(c: Record): (r: seq<Blob>)
    ensures r == c.args
  {
    c.args
  }

  // writeCommand's contribution to the segment.
  function Encode(c: Record): (r: Bytes)
    ensures |r| >= 2
  {
    Uvarint(c.db) + (Uvarint(|c.args|) + PackOf(Blobs(c)))
  }

  lemma PackOneMore(start: Bytes, args: seq<Blob>, i: nat)
    requires i < |args|
    ensures start + PackOf(args[..i + 1]) == start + PackOf(args[..i]) + Element(args[i])
  {
    assert args[..i + 1] == args[..i] + [args[i]];
    PackAppend(args[..i], args[i]);
  }

  method WriteCommand(buf: Bytes, c: Record) returns (out: Bytes)
    ensures out == buf + Encode(c)
  {
    var args := Blobs(c);
    out := buf + Uvarint(c.db) + Uvarint(|args|);
    ghost var start := out;
    for i := 0 to |args|
      invariant out == start + PackOf(args[..i])
    {
      PackOneMore(start, args, i);
      out := out + Element(args[i]);
    }
    assert args[..|args|] == args;
  }

  function ReadArgs(b: Bytes, n: nat): (r: Result<seq<Bytes>>)
    ensures r.Ok? ==> |r.value| == n && |r.rest| <= |b|
    ensures !r.Eof?
    decreases n
  {
    if n == 0 then Ok([], b)
    else
      var a := ReadBytes(b);
      if !a.Ok? then a.AsError()
      else
        var more := ReadArgs(a.rest, n - 1);
        if more.Ok? then Ok([a.value] + more.value, more.rest) else more
  }

  function ReadCommand(b: Bytes): (r: Result<Command>)
    ensures r.Ok? ==> |r.rest| < |b|
    ensures r.Eof? <==> b == []
  {
    var d := ReadNumber(b);
    if d.Eof? then Eof
    else if !d.Ok? then d.AsError()
    else
      var n := ReadNumber(d.rest);
      if !n.Ok? then n.AsError()
      else
        var args := ReadArgs(n.rest, n.value);
        if args.Ok? then Ok(Command(d.value, args.value), args.rest) else args.AsError()
  }

  lemma {:induction false} ArgsRoundTrip(args: seq<Blob>, rest: Bytes)
    ensures ReadArgs(PackOf(args) + rest, |args|) == Ok(args, rest)
  {
    if args == [] {
      assert PackOf(args) + rest == rest;
    } else {
      Reassociate(Element(args[0]), PackOf(args[1..]), rest);
      BytesRoundTrip(args[0], PackOf(args[1..]) + rest);
      ArgsRoundTrip(args[1..], rest);
      assert args == [args[0]] + args[1..];
    }
  }

  lemma {:induction false} ArgsPrefix(args: seq<Blob>, k: nat)
    requires k < |PackOf(args)|
    ensures ReadArgs(PackOf(args)[..k], |args|).UnexpectedEof?
  {
    var e := Element(args[0]);
    CutConcat(e, PackOf(args[1..]), k);
    if k < |e| {
      BytesPrefix(args[0], k);
    } else {
      BytesRoundTrip(args[0], PackOf(args[1..])[..k - |e|]);
      ArgsPrefix(args[1..], k - |e|);
    }
  }

  // A record reads back whole and leaves the bytes after it untouched.
  lemma CommandRoundTrip(c: Record, rest: Bytes)
    ensures ReadCommand(Encode(c) + rest) == Ok(c, rest)
  {
    var n, p := Uvarint(|c.args|), PackOf(Blobs(c));
    assert Encode(c) + rest == Uvarint(c.db) + (n + (p + rest));
    NumberRoundTrip(c.db, n + (p + rest));
    NumberRoundTrip(|c.args|, p + rest);
    ArgsRoundTrip(Blobs(c), rest);
  }

  // No strict prefix of a record reads as a record, or as corruption.
  lemma CommandPrefix(c: Record, k: nat)
    requires 0 < k < |Encode(c)|
    ensures ReadCommand(Encode(c)[..k]).UnexpectedEof?
  {
    var d, n, p := Uvarint(c.db), Uvarint(|c.args|), PackOf(Blobs(c));
    CutConcat(d, n + p, k);
    if k < |d| {
      NumberPrefix(c.db, k);
    } else {
      var j := k - |d|;
      NumberRoundTrip(c.db, (n + p)[..j]);
      CutConcat(n, p, j);
      if j < |n| {
        NumberPrefix(|c.args|, j);
      } else {
        NumberRoundTrip(|c.args|, p[..j - |n|]);
        ArgsPrefix(Blobs(c), j - |n|);
      }
    }
  }

  function Segment(cs: seq<Record>): (r: Bytes) {
    if cs == [] then [] else Encode(cs[0]) + Segment(cs[1..])
  }

  lemma {:induction false} SegmentConcat(cs: seq<Record>, ds: seq<Record>)
    ensures Segment(cs + ds) == Segment(cs) + Segment(ds)
  {
    if cs == [] {
      assert cs + ds == ds;
    } else {
      ConcatTail(cs, ds);
      SegmentConcat(cs[1..], ds);
      Reassociate(Encode(cs[0]), Segment(cs[1..]), Segment(ds));
    }
  }

  lemma ConcatTail(cs: seq<Record>, ds: seq<Record>)
    requires cs != []
    ensures (cs + ds)[0] == cs[0] && (cs + ds)[1..] == cs[1..] + ds
  {
  }

  lemma SegmentAppend(cs: seq<Record>, c: Record)
    ensures Segment(cs + [c]) == Segment(cs) + Encode(c)
  {
    SegmentConcat(cs, [c]);
    assert Segment([c]) == Encode(c);
  }

  // What replaySegment hands to its callback, and whether it ends without an error.
  datatype Replayed = Replayed(commands: seq<Command>, ok: bool)

  function Replay(b: Bytes): (r: Replayed)
    decreases |b|
  {
    var c := ReadCommand(b);
    if c.Ok? then
      var more := Replay(c.rest);
      Replayed([c.value] + more.commands, more.ok)
    else Replayed([], !c.Malformed?)
  }

  // replaySegment's loop.
  method ReplaySegment(file: Bytes) returns (r: Replayed)
    ensures r == Replay(file)
  {
    var br, commands: seq<Command> := file, [];
    while true
      invariant Replay(file) == Replayed(commands + Replay(br).commands, Replay(br).ok)
      decreases |br|
    {
      var c := ReadCommand(br);
      match c
      case Eof => return Replayed(commands, true);
      case UnexpectedEof => return Replayed(commands, true);
      case Malformed => return Replayed(commands, false);
      case Ok(cmd, rest) =>
        assert commands + Replay(br).commands == commands + [cmd] + Replay(rest).commands;
        commands, br := commands + [cmd], rest;
    }
  }

  lemma ReplayOne(c: Record, rest: Bytes)
    ensures Replay(Encode(c) + rest) == Replayed([c] + Replay(rest).commands, Replay(rest).ok)
  {
    CommandRoundTrip(c, rest);
  }

  lemma Prepend(c: Command, cs: seq<Command>, ds: seq<Command>)
    requires cs != [] && c == cs[0]
    ensures [c] + (cs[1..] + ds) == cs + ds
  {}

  // Whole records are replayed, whatever follows them.
  lemma {:induction false} ReplaySkips(cs: seq<Record>, rest: Bytes)
    ensures Replay(Segment(cs) + rest) == Replayed(cs + Replay(rest).commands, Replay(rest).ok)
  {
    var more := Replay(rest);
    if cs == [] {
      assert Segment(cs) + rest == rest && cs + more.commands == more.commands;
    } else {
      Reassociate(Encode(cs[0]), Segment(cs[1..]), rest);
      ReplayOne(cs[0], Segment(cs[1..]) + rest);
      ReplaySkips(cs[1..], rest);
      Prepend(cs[0], cs, more.commands);
    }
  }

  // How many records lie wholly inside the first k bytes.
  function Whole(cs: seq<Record>, k: nat): (j: nat)
    requires k <= |Segment(cs)|
    ensures j <= |cs|
  {
    if cs == [] || k < |Encode(cs[0])| then 0 else 1 + Whole(cs[1..], k - |Encode(cs[0])|)
  }

  lemma {:induction false} WholeIs(cs: seq<Record>, k: nat)
    requires k <= |Segment(cs)|
    ensures |Segment(cs[..Whole(cs, k)])| <= k
    ensures Whole(cs, k) < |cs| ==> k < |Segment(cs[..Whole(cs, k) + 1])|
  {
    if cs != [] {
      var e := |Encode(cs[0])|;
      if k < e {
        assert cs[..1] == [cs[0]];
      } else {
        WholeIs(cs[1..], k - e);
        var j := Whole(cs[1..], k - e);
        assert cs[..j + 1] == [cs[0]] + cs[1..][..j];
        if j + 1 < |cs| {
          assert cs[..j + 2] == [cs[0]] + cs[1..][..j + 1];
        }
      }
    }
  }

  lemma {:induction false} WholeMonotone(cs: seq<Record>, k: nat, m: nat)
    requires k <= m <= |Segment(cs)|
    ensures Whole(cs, k) <= Whole(cs, m)
  {
    if cs != [] && |Encode(cs[0])| <= k {
      WholeMonotone(cs[1..], k - |Encode(cs[0])|, m - |Encode(cs[0])|);
    }
  }

  // Records appended later do not change what an earlier part of the file holds.
  lemma {:induction false} WholeExtends(cs: seq<Record>, ds: seq<Record>, k: nat)
    requires k <= |Segment(cs)|
    ensures |Segment(cs)| <= |Segment(cs + ds)|
    ensures Whole(cs, k) <= Whole(cs + ds, k)
  {
    SegmentConcat(cs, ds);
    if cs != [] && |Encode(cs[0])| <= k {
      ConcatTail(cs, ds);
      WholeExtends(cs[1..], ds, k - |Encode(cs[0])|);
    }
  }

  lemma {:induction false} WholeAll(cs: seq<Record>)
    ensures Whole(cs, |Segment(cs)|) == |cs|
  {
    if cs != [] {
      WholeAll(cs[1..]);
    }
  }

  lemma TornRecord(c: Record, k: nat)
    requires k < |Encode(c)|
    ensures Replay(Encode(c)[..k]) == Replayed([], true)
  {
    if k > 0 {
      CommandPrefix(c, k);
    }
  }

  // A segment cut inside its j-th record is j whole records and a strict prefix.
  lemma CutInside(cs: seq<Record>, j: nat, k: nat)
    requires j < |cs| && k <= |Segment(cs)|
    requires |Segment(cs[..j])| <= k < |Segment(cs[..j + 1])|
    ensures k - |Segment(cs[..j])| < |Encode(cs[j])|
    ensures Segment(cs)[..k] == Segment(cs[..j]) + Encode(cs[j])[..k - |Segment(cs[..j])|]
  {
    assert cs[..j + 1] == cs[..j] + [cs[j]];
    assert cs == cs[..j + 1] + cs[j + 1..];
    SegmentAppend(cs[..j], cs[j]);
    SegmentConcat(cs[..j + 1], cs[j + 1..]);
    CutSecond(Segment(cs[..j]), Encode(cs[j]), Segment(cs[j + 1..]), k);
  }

  lemma CutSecond(a: Bytes, e: Bytes, t: Bytes, k: nat)
    requires |a| <= k < |a + e|
    ensures (a + e + t)[..k] == a + e[..k - |a|]
  {}

  // The torn tail: replaying any byte prefix of a segment yields exactly the records
  // wholly inside it, with no error and no invented record.
  lemma TornTail(cs: seq<Record>, k: nat)
    requires k <= |Segment(cs)|
    ensures Replay(Segment(cs)[..k]) == Replayed(cs[..Whole(cs, k)], true)
  {
    var j := Whole(cs, k);
    WholeIs(cs, k);
    if j < |cs| {
      var m := k - |Segment(cs[..j])|;
      CutInside(cs, j, k);
      TornRecord(cs[j], m);
      ReplaySkips(cs[..j], Encode(cs[j])[..m]);
      assert cs[..j] + [] == cs[..j];
    } else {
      assert cs[..j] == cs && Segment(cs)[..k] == Segment(cs);
      ReplayWhole(cs);
    }
  }

  lemma ReplayWhole(cs: seq<Record>)
    ensures Replay(Segment(cs)) == Replayed(cs, true)
  {
    ReplaySkips(cs, []);
    assert Segment(cs) + [] == Segment(cs) && cs + [] == cs;
  }

  // A number read keeps the low bits of its first byte.
  lemma FirstByte(b: Bytes)
    requires b != [] && ReadUvarint(b).Value?
    ensures ReadUvarint(b).value % 128 == b[0] % 128
  {}

  // Reopening appends after whatever a crash left behind.

  // What the server logs: a command name and its arguments, for one database.
  predicate LoggedFor(r: Record, db: nat) {
    r.db == db && r.args != []
  }

  ghost predicate AllLoggedFor(rs: seq<Record>, db: nat) {
    forall i :: 0 <= i < |rs| ==> LoggedFor(rs[i], db)
  }

  // What a segment, torn bytes and records appended after them replay to.
  function Reopened(cs: seq<Record>, torn: Bytes, later: seq<Record>): (r: Replayed) {
    Replay(Segment(cs) + torn + Segment(later))
  }

  lemma ReopenedSkips(cs: seq<Record>, torn: Bytes, later: seq<Record>)
    ensures
      var r := Replay(torn + Segment(later));
      Reopened(cs, torn, later) == Replayed(cs + r.commands, r.ok)
  {
    Reassociate(Segment(cs), torn, Segment(later));
    ReplaySkips(cs, torn + Segment(later));
  }

  lemma FirstRead(b: Bytes)
    ensures
      var cs, c := Replay(b).commands, ReadCommand(b);
      cs != [] ==> c.Ok? && cs[0] == c.value
  {
  }

  // The first record replayed has the database number read first.
  lemma FirstDatabase(b: Bytes)
    ensures
      var cs, n := Replay(b).commands, ReadUvarint(b);
      cs != [] ==> n.Value? && cs[0].db == n.value
  {
    FirstRead(b);
  }

  lemma FirstReplayed(b: Bytes)
    requires b != []
    ensures var cs := Replay(b).commands; cs != [] ==> cs[0].db % 128 == b[0] % 128
  {
    FirstDatabase(b);
    if ReadUvarint(b).Value? {
      FirstByte(b);
    }
  }

  // After torn bytes, the next record is lost if its database differs in the low bits from
  // theirs: whatever follows it, it is not what is replayed next.
  lemma LaterRecordLost(cs: seq<Record>, torn: Bytes, r: Record, more: seq<Record>)
    requires torn != [] && r.db % 128 != torn[0] % 128
    ensures
      var got := Reopened(cs, torn, [r] + more).commands;
      cs <= got && !(cs + [r] <= got)
  {
    ReopenedSkips(cs, torn, [r] + more);
    FirstReplayed(torn + Segment([r] + more));
    NotNext(cs, Replay(torn + Segment([r] + more)).commands, r);
  }

  lemma NotNext(cs: seq<Command>, ds: seq<Command>, r: Command)
    requires ds != [] ==> ds[0] != r
    ensures cs <= cs + ds && !(cs + [r] <= cs + ds)
  {
    assert (cs + [r])[|cs|] == r;
    assert ds != [] ==> (cs + ds)[|cs|] == ds[0];
  }

  // A number cut short and followed by another is read as at least that other number, and
  // as more than it if any byte was left.
  lemma {:induction false} CutNumberThen(n: nat, k: nat, m: nat, rest: Bytes, i: nat)
    requires k < |Uvarint(n)| && i < 10
    ensures
      var r := ReadUvarint(Uvarint(n)[..k] + (Uvarint(m) + rest), i);
      r.Value? ==> r.value >= if k == 0 then m else 128 * m
    decreases n
  {
    if k == 0 {
      assert Uvarint(n)[..0] + (Uvarint(m) + rest) == Uvarint(m) + rest;
      ReadAtMost(m, rest, i);
    } else {
      var low, high := SevenBits(n);
      var tail := Uvarint(high)[..k - 1] + (Uvarint(m) + rest);
      assert Uvarint(n)[..k] == [128 + low] + Uvarint(high)[..k - 1];
      Reassociate([128 + low], Uvarint(high)[..k - 1], Uvarint(m) + rest);
      if i < 9 {
        CutNumberThen(high, k - 1, m, rest, i + 1);
        ReadMore(128 + low, tail, i);
      } else {
        ReadTooMany(128 + low, tail);
      }
    }
  }

  lemma {:induction false} ReadAtMost(m: nat, rest: Bytes, i: nat)
    requires i < 10
    ensures var r := ReadUvarint(Uvarint(m) + rest, i); r.Value? ==> r.value == m
    decreases m
  {
    if m >= 128 {
      var low, high := SevenBits(m);
      Reassociate([128 + low], Uvarint(high), rest);
      if i < 9 {
        ReadAtMost(high, rest, i + 1);
        ReadMore(128 + low, Uvarint(high) + rest, i);
      } else {
        ReadTooMany(128 + low, Uvarint(high) + rest);
      }
    } else {
      assert ([m] + rest)[1..] == rest;
    }
  }

  // Torn inside its database number: the next record is read with another number.
  lemma TornInDatabase(c: Record, k: nat, r: Record)
    requires 0 < k < |Uvarint(c.db)| && r.db == c.db
    ensures var got := Replay(Encode(c)[..k] + Encode(r)).commands; got != [] ==> got[0] != r
  {
    CutConcat(Uvarint(c.db), Uvarint(|c.args|) + PackOf(Blobs(c)), k);
    CutNumberThen(c.db, k, r.db, Uvarint(|r.args|) + PackOf(Blobs(r)), 0);
    SevenBitsOrMore(c.db, k);
    FirstDatabase(Encode(c)[..k] + Encode(r));
  }

  lemma SevenBitsOrMore(n: nat, k: nat)
    requires 0 < k < |Uvarint(n)|
    ensures n >= 128
  {
  }

  // Torn after it: the next record is read with the number of arguments the torn bytes began.
  lemma TornAfterDatabase(db: Word, x: Bytes, r: Record)
    requires x != [] && |r.args| % 128 != x[0] % 128
    ensures var got := Replay(Uvarint(db) + x).commands; got != [] ==> got[0] != r
  {
    FirstArguments(db, x);
    if ReadUvarint(x).Value? {
      FirstByte(x);
    }
  }

  lemma FirstArguments(db: Word, x: Bytes)
    ensures
      var cs, n := Replay(Uvarint(db) + x).commands, ReadUvarint(x);
      cs != [] ==> n.Value? && |cs[0].args| == n.value
  {
    NumberRoundTrip(db, x);
    CountRead(Uvarint(db) + x, db, x);
    FirstRead(Uvarint(db) + x);
  }

  lemma CountRead(b: Bytes, db: Word, x: Bytes)
    requires ReadNumber(b) == Ok(db, x)
    ensures
      var c, n := ReadCommand(b), ReadUvarint(x);
      c.Ok? ==> n.Value? && |c.value.args| == n.value
  {
  }

  // Some record for the same database is lost after the torn bytes of any other.
  lemma SameDatabaseLost(c: Record, k: nat) returns (r: Record)
    requires 0 < k < |Encode(c)|
    ensures LoggedFor(r, c.db)
    ensures var got := Replay(Encode(c)[..k] + Encode(r)).commands; got != [] ==> got[0] != r
  {
    var u, tail := Uvarint(c.db), Uvarint(|c.args|) + PackOf(Blobs(c));
    if k < |u| {
      r := Command(c.db, [[80]]);
      TornInDatabase(c, k, r);
    } else {
      var left := tail[..k - |u|];
      var first := (left + u)[0];
      r := Command(c.db, if first % 128 == 1 then [[80], [80]] else [[80]]);
      CutConcat(u, tail, k);
      var x := left + Encode(r);
      assert x[0] == first;
      Reassociate(u, left, Encode(r));
      TornAfterDatabase(c.db, x, r);
    }
  }

  // Records appended after a crash in the middle of c survive for certain exactly when the
  // segment ended on a record boundary, even if they all are for c's database.
  lemma ReopenKeepsLaterRecords(cs: seq<Record>, c: Record, k: nat)
    requires k < |Encode(c)|
    ensures k == 0 ==> forall later :: Reopened(cs, Encode(c)[..k], later) == Replayed(cs + later, true)
    ensures (forall later :: AllLoggedFor(later, c.db) ==>
               Reopened(cs, Encode(c)[..k], later) == Replayed(cs + later, true))
            <==> k == 0
  {
    if k == 0 {
      forall later ensures Reopened(cs, Encode(c)[..k], later) == Replayed(cs + later, true) {
        CleanReopen(cs, later);
      }
    } else {
      var r := SameDatabaseLost(c, k);
      ReopenedSkips(cs, Encode(c)[..k], [r]);
      assert Segment([r]) == Encode(r) && AllLoggedFor([r], c.db);
      NotNext(cs, Replay(Encode(c)[..k] + Encode(r)).commands, r);
    }
  }

  lemma CleanReopen(cs: seq<Record>, later: seq<Record>)
    ensures Reopened(cs, [], later) == Replayed(cs + later, true)
  {
    ReopenedSkips(cs, [], later);
    assert [] + Segment(later) == Segment(later);
    ReplayWhole(later);
  }
}
