// Reading from a buffered stream: what the decoders of the log and the snapshot share
// (internal/persistence/codec.go). A result either carries the value with what is left
// of the stream, or says how the stream ended.
module Streams {
  import opened ByteStrings
  import opened Varints
  import opened Packs

  // Eof is io.EOF: the stream ended before the first byte. UnexpectedEof is a stream
  // that ended midway. Malformed is any other error.
  datatype Result<+T> = Ok(value: T, rest: Bytes) | Eof | UnexpectedEof | Malformed {
    predicate CutShort() {
      Eof? || UnexpectedEof?
    }

    // unexpectedEOF, on a failed result.
    function AsError<U>(): (r: Result<U>)
      requires !Ok?
      ensures r == if Malformed? then Malformed else UnexpectedEof
    {
      if Malformed? then Malformed else UnexpectedEof
    }
  }

  function ReadNumber(b: Bytes): (r: Result<Word>)
    ensures r.Ok? ==> |r.rest| < |b|
    ensures r.Eof? <==> b == []
  {
    match ReadUvarint(b)
    case End => Eof
    case Truncated => UnexpectedEof
    case Overflow => Malformed
    case Value(n, rest) =>
      LimitIsTwo64();
      ReadInRange(b, 0);
      Ok(n, rest)
  }

  // io.ReadFull.
  function ReadFull(b: Bytes, n: nat): (r: Result<Bytes>)
    ensures r.Ok? <==> n <= |b|
    ensures r.Ok? ==> r.value + r.rest == b && |r.value| == n
    ensures !r.Malformed?
  {
    if n <= |b| then Ok(b[..n], b[n..])
    else if b == [] then Eof
    else UnexpectedEof
  }

  // readBytes.
  function ReadBytes(b: Bytes): (r: Result<Bytes>)
    ensures r.Ok? ==> |r.rest| < |b|
  {
    var n := ReadNumber(b);
    if n.Ok? then ReadFull(n.rest, n.value)
    else if n.Eof? then Eof else if n.UnexpectedEof? then UnexpectedEof else Malformed
  }

  lemma NumberRoundTrip(n: Word, rest: Bytes)
    ensures ReadNumber(Uvarint(n) + rest) == Ok(n, rest)
  {
    UvarintRoundTrip(n, rest);
  }

  lemma NumberPrefix(n: Word, k: nat)
    requires k < |Uvarint(n)|
    ensures ReadNumber(Uvarint(n)[..k]).CutShort()
  {
    UvarintPrefix(n, k);
  }

  lemma BytesRoundTrip(e: Blob, rest: Bytes)
    ensures ReadBytes(Element(e) + rest) == Ok(e, rest)
  {
    assert Element(e) + rest == Uvarint(|e|) + (e + rest);
    NumberRoundTrip(|e|, e + rest);
  }

  // Cutting a concatenation cuts its first part, or keeps it whole and cuts the second.
  lemma CutConcat(a: Bytes, b: Bytes, k: nat)
    requires k <= |a| + |b|
    ensures (a + b)[..k] == if k < |a| then a[..k] else a + b[..k - |a|]
  {}

  lemma BytesPrefix(e: Blob, k: nat)
    requires k < |Element(e)|
    ensures ReadBytes(Element(e)[..k]).CutShort()
  {
    var h := Uvarint(|e|);
    CutConcat(h, e, k);
    if k < |h| {
      NumberPrefix(|e|, k);
    } else {
      NumberRoundTrip(|e|, e[..k - |h|]);
    }
  }

  lemma Reassociate(a: Bytes, b: Bytes, c: Bytes)
    ensures a + b + c == a + (b + c)
  {}
}
