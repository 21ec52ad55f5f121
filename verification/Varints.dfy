// Unsigned base-128 varints: the frame of every packed collection, log record and
// snapshot record.
module Varints {
  import opened ByteStrings

  // The length of a Go slice fits in an int.
  type Blob = b: Bytes | |b| < TWO63

  function Uvarint(n: nat): (r: Bytes)
    ensures |r| >= 1
  {
    if n < 128 then [n] else [128 + n % 128] + Uvarint(n / 128)
  }

  // End is a clean end of input, before any byte of the number.
  datatype VarResult = Value(value: nat, rest: Bytes) | End | Truncated | Overflow

  // binary.ReadUvarint, at its i-th byte.
  function ReadUvarint(b: Bytes, i: nat := 0): (r: VarResult)
    ensures r.Value? ==> |r.rest| < |b| && b[|b| - |r.rest|..] == r.rest
    ensures r.End? <==> b == [] && i == 0
    decreases |b|
  {
    if i >= 10 then Overflow
    else if b == [] then if i == 0 then End else Truncated
    else if b[0] < 128 then
      if i == 9 && b[0] > 1 then Overflow else Value(b[0], b[1..])
    else
      var r := ReadUvarint(b[1..], i + 1);
      if r.Value? then Value(b[0] - 128 + 128 * r.value, r.rest) else r
  }

  // One more than the largest number that may still be read from byte i on.
  function Limit(i: nat): (l: nat)
    requires i < 10
    ensures l >= 2
    decreases 9 - i
  {
    if i == 9 then 2 else 128 * Limit(i + 1)
  }

  lemma LimitIsTwo64()
    ensures Limit(0) == TWO64
  {
    assert Limit(8) == 0x100 && Limit(6) == 0x40_0000;
    assert Limit(4) == 0x10_0000_0000 && Limit(2) == 0x4_0000_0000_0000;
  }

  lemma {:induction false} ReadInRange(b: Bytes, i: nat)
    requires i < 10 && ReadUvarint(b, i).Value?
    ensures ReadUvarint(b, i).value < Limit(i)
    decreases |b|
  {
    if b[0] >= 128 {
      assert i < 9;
      ReadInRange(b[1..], i + 1);
    } else if i < 9 {
      assert Limit(i) == 128 * Limit(i + 1);
    }
  }

  lemma ReadMore(first: Byte, b: Bytes, i: nat)
    requires first >= 128 && i < 9
    ensures var r := ReadUvarint(b, i + 1);
      ReadUvarint([first] + b, i) == if r.Value? then Value(first - 128 + 128 * r.value, r.rest) else r
  {
    assert ([first] + b)[1..] == b;
  }

  // A tenth byte cannot announce another.
  lemma ReadTooMany(first: Byte, b: Bytes)
    requires first >= 128
    ensures ReadUvarint([first] + b, 9) == Overflow
  {
    assert ([first] + b)[1..] == b;
    assert ReadUvarint(b, 10) == Overflow;
  }

  lemma ReadLast(last: Byte, b: Bytes, i: nat)
    requires last < 128 && i < 10 && last < Limit(i)
    ensures ReadUvarint([last] + b, i) == Value(last, b)
  {
    assert ([last] + b)[1..] == b;
  }

  lemma {:induction false} UvarintRoundTripFrom(n: nat, rest: Bytes, i: nat)
    requires i < 10 && n < Limit(i)
    ensures ReadUvarint(Uvarint(n) + rest, i) == Value(n, rest)
    decreases n
  {
    if n < 128 {
      ReadLast(n, rest, i);
    } else {
      var low, high := SevenBits(n);
      assert i < 9 && high < Limit(i + 1);
      UvarintRoundTripFrom(high, rest, i + 1);
      ReadMore(128 + low, Uvarint(high) + rest, i);
      Rebracket([128 + low], Uvarint(high), rest);
    }
  }

  lemma Rebracket(a: Bytes, b: Bytes, c: Bytes)
    ensures a + b + c == a + (b + c)
  {
  }

  lemma SevenBits(n: nat) returns (low: nat, high: nat)
    requires n >= 128
    ensures low < 128 && high < n && n == 128 * high + low
    ensures Uvarint(n) == [128 + low] + Uvarint(high)
  {
    low, high := n % 128, n / 128;
  }

  // Reading back what was written consumes exactly what was written.
  lemma UvarintRoundTrip(n: Word, rest: Bytes)
    ensures ReadUvarint(Uvarint(n) + rest) == Value(n, rest)
  {
    LimitIsTwo64();
    UvarintRoundTripFrom(n, rest, 0);
  }

  lemma {:induction false} UvarintPrefixFrom(n: nat, k: nat, i: nat)
    requires i < 10 && n < Limit(i) && k < |Uvarint(n)|
    ensures ReadUvarint(Uvarint(n)[..k], i) == if k == 0 && i == 0 then End else Truncated
    decreases n
  {
    if k > 0 {
      var low, high := SevenBits(n);
      assert i < 9 && high < Limit(i + 1);
      UvarintPrefixFrom(high, k - 1, i + 1);
      assert Uvarint(n)[..k] == [128 + low] + Uvarint(high)[..k - 1];
      ReadMore(128 + low, Uvarint(high)[..k - 1], i);
    }
  }

  // A number cut short is never read as a number.
  lemma UvarintPrefix(n: Word, k: nat)
    requires k < |Uvarint(n)|
    ensures ReadUvarint(Uvarint(n)[..k]) == if k == 0 then End else Truncated
  {
    LimitIsTwo64();
    UvarintPrefixFrom(n, k, 0);
  }
}
