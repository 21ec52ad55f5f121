// The bytes themselves: what the wire, the log and the snapshot look like to a program that
// shares no code with this one.
module Formats {
  import opened ByteStrings
  import opened Varints
  import opened Packs
  import opened Decimals
  import opened Options
  import A = AppendLog
  import Commands
  import S = Snapshots
  import R = Replies
  import opened Framing
  import Q = Requests

  // Numbers.

  // Seven bits to a byte, the lowest first.
  function Base128(b: Bytes): (n: nat) {
    if b == [] then 0 else b[0] % 128 + 128 * Base128(b[1..])
  }

  // All bytes but the last announce another, and none is wasted.
  lemma {:induction false} UvarintBytes(n: nat)
    ensures var b := Uvarint(n);
      && Base128(b) == n && (forall i :: 0 <= i < |b| - 1 ==> b[i] >= 128) && b[|b| - 1] < 128
      && (|b| > 1 ==> b[|b| - 1] > 0)
    decreases n
  {
    if n >= 128 {
      UvarintBytes(n / 128);
      var b, c := Uvarint(n), Uvarint(n / 128);
      assert b[1..] == c;
      assert forall i :: 1 <= i < |b| ==> b[i] == c[i - 1];
    }
  }

  // A number that needs more than 64 bits is refused, and nothing else is.
  ghost predicate TooLong(b: Bytes) {
    |b| >= 10 && (forall i :: 0 <= i < 9 ==> b[i] >= 128) && b[9] > 1
  }

  lemma {:induction false} OverflowFrom(b: Bytes, i: nat)
    requires i <= 9
    ensures ReadUvarint(b, i).Overflow? <==>
      |b| >= 10 - i && (forall j :: 0 <= j < 9 - i ==> b[j] >= 128) && b[9 - i] > 1
    decreases 9 - i
  {
    if i == 9 {
      if b != [] && b[0] >= 128 {
        assert ReadUvarint(b[1..], 10).Overflow?;
      }
    } else if b != [] && b[0] >= 128 {
      OverflowFrom(b[1..], i + 1);
      assert forall j :: 1 <= j < |b| ==> b[j] == b[1..][j - 1];
    }
  }

  lemma OverflowIff(b: Bytes)
    ensures ReadUvarint(b).Overflow? <==> TooLong(b)
  {
    OverflowFrom(b, 0);
  }

  function Digit(b: Bytes, i: nat): (d: int)
    requires i < |b|
  {
    b[i]
  }

  // The lowest byte first.
  function FourDigits(b: Bytes, i: nat): (n: int)
    requires i + 4 <= |b|
  {
    Digit(b, i) + 0x100 * Digit(b, i + 1) + 0x1_0000 * Digit(b, i + 2) + 0x100_0000 * Digit(b, i + 3)
  }

  lemma Word64Bytes(w: Word)
    ensures var b := Word64(w);
      && |b| == 8 && w == FourDigits(b, 0) + 0x1_0000_0000 * FourDigits(b, 4)
  {
    var b := Word64(w);
    FourThen(b, 0);
    FourThen(b, 4);
    assert b[0..] == b && b[8..] == [];
  }

  lemma FourThen(b: Bytes, i: nat)
    requires i + 4 <= |b|
    ensures FromLittleEndian(b[i..]) == FourDigits(b, i) + 0x1_0000_0000 * FromLittleEndian(b[i + 4..])
  {
    OneThen(b, i);
    OneThen(b, i + 1);
    OneThen(b, i + 2);
    OneThen(b, i + 3);
  }

  lemma OneThen(b: Bytes, i: nat)
    requires i < |b|
    ensures FromLittleEndian(b[i..]) == Digit(b, i) + 0x100 * FromLittleEndian(b[i + 1..])
  {
    assert b[i..][1..] == b[i + 1..];
  }

  // Decimals: '0' is 48, a further digit goes behind, and a minus sign, 45, in front.
  lemma DecimalBytes(n: nat, d: nat)
    requires d <= 9
    ensures FormatInt(d) == [48 + d]
    ensures n > 0 ==> FormatInt(10 * n + d) == FormatInt(n) + [48 + d]
    ensures n > 0 ==> FormatInt(0 - n) == [45] + FormatInt(n)
  {
  }

  // Leading zeros and a plus sign, 43, change nothing.
  lemma DecimalSpellings(n: nat)
    requires n <= 0x7FFF_FFFF_FFFF_FFFF
    ensures ParseInt(FormatInt(n)) == Some(n) && ParseInt([43] + FormatInt(n)) == Some(n)
    ensures ParseInt([48] + FormatInt(n)) == Some(n)
    ensures ParseInt([]) == None && ParseInt([45]) == None && ParseInt([43]) == None
  {
    IntRoundTrip(n);
    DigitsRoundTrip(n);
    assert ([43] + FormatInt(n))[1..] == FormatInt(n);
    ZeroInFront(FormatInt(n));
  }

  lemma {:induction false} ZeroInFront(b: Bytes)
    requires AllDigits(b)
    ensures AllDigits([48] + b) && DigitsValue([48] + b) == DigitsValue(b)
    decreases |b|
  {
    var z := [48] + b;
    if b == [] {
      assert z[..0] == [];
    } else {
      var k := |b| - 1;
      ZeroInFront(b[..k]);
      assert z[..|z| - 1] == [48] + b[..k];
    }
  }

  // The instant that stands for no deadline is the start of the year 1, 719162 days before
  // the epoch.
  lemma NoDeadline()
    ensures Commands.ZERO_TIME == -719_162 * 86_400 * 1_000_000_000
  {
  }

  // Replies and requests on the wire.
  lemma LineBytes(n: int, text: Bytes)
    ensures R.Encode(R.Nil) == [36, 45, 49, 13, 10]
    ensures R.Encode(R.Simple(text)) == [43] + text + [13, 10]
    ensures R.Encode(R.Error(text)) == [45] + text + [13, 10]
    ensures R.Encode(R.Int(n)) == [58] + FormatInt(n) + [13, 10]
  {
    assert FormatInt(-1) == [45, 49];
  }

  function BulkBytes(b: Bytes): (r: Bytes) {
    [36] + FormatInt(|b|) + [13, 10] + b + [13, 10]
  }

  lemma BulkIs(b: Bytes)
    ensures R.Encode(R.Bulk(b)) == BulkBytes(b)
  {
  }

  lemma ArrayBytes(a: R.Reply, b: R.Reply)
    ensures R.Encode(R.Array([])) == [42, 48, 13, 10]
    ensures R.Encode(R.Array([a, b])) == [42, 50, 13, 10] + (R.Encode(a) + R.Encode(b))
  {
    assert FormatInt(0) == [48] && FormatInt(2) == [50];
    TwoReplies(a, b);
  }

  lemma TwoReplies(a: R.Reply, b: R.Reply)
    ensures R.EncodeAll([a, b]) == R.Encode(a) + R.Encode(b)
  {
    assert [a, b][1..] == [b] && [b][1..] == [];
    assert R.EncodeAll([b]) == R.Encode(b) + [];
  }

  // What the Node client makes of those bytes, whatever follows them: an error is told apart
  // from text, and nil from an empty string.
  lemma ClientReads(n: int, text: Bytes, rest: Bytes)
    requires !R.HasCrlf(text)
    ensures R.Parse([43] + text + [13, 10] + rest) == Parsed(R.Text(text), rest)
    ensures R.Parse([45] + text + [13, 10] + rest) == Parsed(R.Failure(text), rest)
    ensures R.Parse([58] + FormatInt(n) + [13, 10] + rest) == Parsed(R.Number(n), rest)
    ensures R.Parse([36, 45, 49, 13, 10] + rest) == Parsed(R.Null, rest)
  {
    LineBytes(n, text);
    R.ParseEncode(R.Simple(text), rest);
    R.ParseEncode(R.Error(text), rest);
    R.ParseEncode(R.Int(n), rest);
    R.ParseEncode(R.Nil, rest);
  }

  lemma ClientReadsBulk(b: Bytes, rest: Bytes)
    ensures R.Parse(BulkBytes(b) + rest) == Parsed(R.Text(b), rest)
  {
    BulkIs(b);
    R.ParseEncode(R.Bulk(b), rest);
  }

  lemma ClientReadsArray(a: Bytes, b: Bytes, rest: Bytes)
    ensures R.Parse([42, 50, 13, 10] + (BulkBytes(a) + BulkBytes(b)) + rest) ==
      Parsed(R.Items([R.Text(a), R.Text(b)]), rest)
  {
    var r := R.Array([R.Bulk(a), R.Bulk(b)]);
    ArrayBytes(R.Bulk(a), R.Bulk(b));
    BulkIs(a);
    BulkIs(b);
    TwoClean(a, b);
    R.ParseEncode(r, rest);
  }

  lemma TwoClean(a: Bytes, b: Bytes)
    ensures R.Clean(R.Array([R.Bulk(a), R.Bulk(b)]))
    ensures R.Decoded(R.Array([R.Bulk(a), R.Bulk(b)])) == R.Items([R.Text(a), R.Text(b)])
  {
    var x, y, none: seq<R.Reply> := R.Bulk(a), R.Bulk(b), [];
    ThenDecoded(y, none);
    ThenDecoded(x, [y]);
    assert [x] + [y] == [x, y] && [y] + none == [y];
    assert R.DecodedAll([x, y]) == [R.Text(a)] + ([R.Text(b)] + R.DecodedAll(none));
  }

  lemma ThenDecoded(r: R.Reply, rs: seq<R.Reply>)
    ensures R.DecodedAll([r] + rs) == [R.Decoded(r)] + R.DecodedAll(rs)
    ensures R.AllClean([r] + rs) <==> R.Clean(r) && R.AllClean(rs)
  {
    assert ([r] + rs)[1..] == rs;
  }

  lemma RequestBytes(a: Bytes, b: Bytes)
    ensures Q.EncodeRequest([a, b]) == [42, 50, 13, 10] + (BulkBytes(a) + BulkBytes(b))
  {
    assert FormatInt(2) == [50];
    BulkIs(a);
    BulkIs(b);
    TwoBulks(a, b);
  }

  lemma TwoBulks(a: Bytes, b: Bytes)
    ensures Q.Concat(Q.Bulks([a, b])) == Q.EncodeBulk(a) + Q.EncodeBulk(b)
  {
    var es := Q.Bulks([a, b]);
    var none: seq<Bytes> := [];
    assert es == [Q.EncodeBulk(a), Q.EncodeBulk(b)];
    assert es[1..] == [Q.EncodeBulk(b)] && es[1..][1..] == none;
    assert Q.Concat(es[1..]) == Q.EncodeBulk(b) + [];
  }

  // At most 2^20 arguments of at most 512 MiB each.
  lemma RequestLimits(args: seq<Bytes>)
    ensures Q.Within(args) <==>
      |args| <= 1_048_576 && forall i :: 0 <= i < |args| ==> |args[i]| <= 536_870_912
  {
  }

  // A log record: database, count, and each argument with its length, one byte for each
  // number below 128.
  lemma RecordBytes(db: nat, a: Bytes, b: Bytes)
    requires db < 128 && |a| < 128 && |b| < 128
    ensures A.Encode(A.Command(db, [a, b])) == [db, 2] + ([|a|] + a) + ([|b|] + b)
  {
    var args: seq<Blob> := [a, b];
    assert args[1..] == [b] && ([b])[1..] == [];
    assert PackOf([b]) == Element(b);
    assert PackOf(args) == Element(a) + Element(b);
  }

  // What follows whole records and cannot be a record ends the replay with an error.
  lemma CorruptRecordStops(cs: seq<A.Record>, b: Bytes)
    requires TooLong(b)
    ensures A.Replay(A.Segment(cs) + b) == A.Replayed(cs, false)
  {
    OverflowIff(b);
    A.ReplaySkips(cs, b);
    assert cs + [] == cs;
  }

  // A snapshot: the magic line, the base generation, and for each record the database, the
  // key, eight bytes of deadline, a letter for the kind, and the value.
  lemma SnapshotBytes(db: nat, key: Bytes, text: Bytes, base: nat)
    requires db < 128 && |key| < 128 && |text| < 128 && base < 128
    ensures var r := S.Rec(db, key, 0, S.Text(text));
      && r.Fits() && S.EncodeRec(r) == [db] + ([|key|] + key) + [0, 0, 0, 0, 0, 0, 0, 0] + [115] + ([|text|] + text)
    ensures S.Encode(base, []) == [77, 69, 77, 67, 79, 82, 69, 45, 83, 78, 65, 80, 49, 10] + [base]
  {
    ZeroWord();
  }

  lemma ZeroWord()
    ensures Word64(0) == [0, 0, 0, 0, 0, 0, 0, 0]
  {
    assert LittleEndian(0, 2) == [0, 0];
    assert LittleEndian(0, 4) == [0, 0, 0, 0];
    assert LittleEndian(0, 6) == [0, 0, 0, 0, 0, 0];
  }

  // The letters: s, l, h, p and z.
  lemma KindBytes(d: S.Dump)
    requires d.Fits()
    ensures S.EncodeValue(d)[0] ==
      match d
      case Text(_) => 115
      case Elems(_) => 108
      case Fields(_) => 104
      case Members(_) => 112
      case Scored(_) => 122
  {
  }
}
