// Decimal integers as the wire, the log and stored counters spell them
// (strconv.AppendInt, strconv.ParseInt).
module Decimals {
  import opened ByteStrings
  import opened Options


  const MAX_INT64: int := TWO63 - 1
  const MIN_INT64: int := -TWO63

  const MINUS: Byte := 45
  const PLUS: Byte := 43

  predicate IsDigit(b: Byte) {
    48 <= b <= 57
  }

  predicate AllDigits(b: Bytes) {
    forall i :: 0 <= i < |b| ==> IsDigit(b[i])
  }

  function Digits(n: nat): (r: Bytes)
    ensures r != [] && AllDigits(r)
  {
    if n < 10 then [48 + n] else Digits(n / 10) + [48 + n % 10]
  }

  function FormatInt(n: int): (r: Bytes)
    ensures r != []
  {
    if n < 0 then [MINUS] + Digits(-n) else Digits(n)
  }

  lemma {:induction false} DigitsAreFew(n: nat)
    ensures |Digits(n)| <= n / 10 + 1
  {
    if n >= 10 {
      DigitsAreFew(n / 10);
    }
  }

  lemma FormatIsShort(n: int)
    requires MIN_INT64 <= n <= MAX_INT64
    ensures |FormatInt(n)| < TWO63
  {
    DigitsAreFew(if n < 0 then -n else n);
  }

  function DigitsValue(b: Bytes): (n: nat)
    requires AllDigits(b)
  {
    if b == [] then 0
    else
      var k := |b| - 1;
      10 * DigitsValue(b[..k]) + (b[k] - 48)
  }

  function ParseNat(b: Bytes): (r: Option<nat>) {
    if b != [] && AllDigits(b) then Some(DigitsValue(b)) else None
  }

  function Signed(sign: Byte, n: int): (r: int) {
    if sign == MINUS then -n else n
  }

  // An optional sign and at least one digit.
  function ParseDecimal(b: Bytes): (r: Option<int>) {
    if b == [] then None
    else if b[0] == MINUS || b[0] == PLUS then
      var n := ParseNat(b[1..]);
      if n.None? then None else Some(Signed(b[0], n.value))
    else
      var n := ParseNat(b);
      if n.None? then None else Some(n.value)
  }

  // strconv.ParseInt in base 10 for 64 bits: out of range is an error.
  function ParseInt(b: Bytes): (r: Option<int>)
    ensures r.Some? ==> MIN_INT64 <= r.value <= MAX_INT64
  {
    var r := ParseDecimal(b);
    if r.Some? && MIN_INT64 <= r.value <= MAX_INT64 then r else None
  }

  lemma {:induction false} DigitsRoundTrip(n: nat)
    ensures DigitsValue(Digits(n)) == n
  {
    if n >= 10 {
      DigitsRoundTrip(n / 10);
      var d := Digits(n);
      assert d[..|d| - 1] == Digits(n / 10) && d[|d| - 1] == 48 + n % 10;
    }
  }

  lemma DecimalRoundTrip(n: int)
    ensures ParseDecimal(FormatInt(n)) == Some(n)
  {
    if n < 0 {
      DigitsRoundTrip(-n);
      assert FormatInt(n)[1..] == Digits(-n);
    } else {
      DigitsRoundTrip(n);
    }
  }

  // What the server formats, it parses back.
  lemma IntRoundTrip(n: int)
    requires MIN_INT64 <= n <= MAX_INT64
    ensures ParseInt(FormatInt(n)) == Some(n)
  {
    DecimalRoundTrip(n);
  }

  // 64-bit two's complement wrap-around.
  function Wrap64(n: int): (r: int)
    ensures MIN_INT64 <= r <= MAX_INT64
    ensures MIN_INT64 <= n <= MAX_INT64 ==> r == n
    ensures (r - n) % TWO64 == 0
  {
    var m := n % TWO64;
    if m >= TWO63 then m - TWO64 else m
  }
}
