// RESP requests: how clients write them (clients/go/memcore.go, clients/node/memcore.mjs)
// and how the server reads them (internal/resp/reader.go).
module Requests {
  import opened ByteStrings
  import opened Decimals
  import opened Streams
  import opened Replies

  const MAX_BULK: int := 0x2000_0000       // 512 MiB
  const MAX_ARGS: int := 0x10_0000
  const DIRECT_READ: int := 0x1_0000
  const READ_BUFFER: int := 0x4000

  function EncodeBulk(a: Bytes): (b: Bytes)
    ensures b == Encode(Bulk(a))
  {
    Line(DOLLAR, FormatInt(|a|)) + (a + CRLF)
  }

  function Concat(es: seq<Bytes>): (b: Bytes) {
    if es == [] then [] else es[0] + Concat(es[1..])
  }

  function Bulks(args: seq<Bytes>): (es: seq<Bytes>)
    ensures |es| == |args|
  {
    seq(|args|, i requires 0 <= i < |args| => EncodeBulk(args[i]))
  }

  // writeCommand and encodeCommand.
  function EncodeRequest(args: seq<Bytes>): (b: Bytes) {
    Line(STAR, FormatInt(|args|)) + Concat(Bulks(args))
  }

  // Where the first line feed is; |b| when there is none.
  function IndexLf(b: Bytes): (i: nat)
    ensures i <= |b|
  {
    if b == [] || b[0] == LF then 0 else 1 + IndexLf(b[1..])
  }

  lemma {:induction false} IndexLfIs(b: Bytes, i: nat)
    requires i < |b| && b[i] == LF && forall j :: 0 <= j < i ==> b[j] != LF
    ensures IndexLf(b) == i
    decreases i
  {
    if i > 0 {
      IndexLfIs(b[1..], i - 1);
    }
  }

  // readLine, over a buffer of fixed size. Malformed is the protocol error.
  function ReadLine(b: Bytes): (r: Result<Bytes>)
    ensures r.Ok? ==> |r.rest| < |b|
    ensures !r.Eof?
  {
    var i := IndexLf(b);
    if i >= READ_BUFFER then Malformed
    else if i == |b| then UnexpectedEof
    else if i < 1 || b[i - 1] != CR then Malformed
    else Ok(b[..i - 1], b[i + 1..])
  }

  function ReadCount(b: Bytes): (r: Result<int>)
    ensures r.Ok? ==> |r.rest| < |b|
    ensures !r.Eof?
  {
    var line := ReadLine(b);
    if !line.Ok? then line.AsError()
    else
      var n := ParseInt(line.value);
      if n.None? then Malformed else Ok(n.value, line.rest)
  }

  // One direct read of n bytes; a stream that ends first ends unexpectedly.
  function ReadExactly(b: Bytes, n: nat): (r: Result<Bytes>) {
    if n <= |b| then Ok(b[..n], b[n..]) else UnexpectedEof
  }

  function ExpectCrlf(b: Bytes): (r: Result<bool>) {
    if |b| < 2 then UnexpectedEof
    else if b[0] != CR || b[1] != LF then Malformed
    else Ok(true, b[2..])
  }

  function ReadBulk(b: Bytes): (r: Result<Bytes>)
    ensures r.Ok? ==> |r.rest| < |b|
    ensures !r.Eof?
  {
    var n := ReadCount(b);
    if !n.Ok? then n.AsError()
    else if n.value < 0 || n.value > MAX_BULK then Malformed
    else
      var body := ReadExactly(n.rest, n.value);
      if !body.Ok? then body
      else
        var end := ExpectCrlf(body.rest);
        if end.Ok? then Ok(body.value, end.rest) else end.AsError()
  }

  function ReadArg(b: Bytes): (r: Result<Bytes>)
    ensures r.Ok? ==> |r.rest| < |b|
    ensures !r.Eof?
  {
    if b == [] then UnexpectedEof
    else if b[0] != DOLLAR then Malformed
    else ReadBulk(b[1..])
  }

  // Items read before, in front of the outcome of reading the others.
  function Prepended<T>(items: seq<T>, r: Result<seq<T>>): (t: Result<seq<T>>) {
    if r.Ok? then Ok(items + r.value, r.rest) else r
  }

  // n items, one after another, with the same reader.
  function ReadSeq<T>(p: Bytes -> Result<T>, b: Bytes, n: nat): (r: Result<seq<T>>)
    ensures !r.Eof?
    decreases n
  {
    if n == 0 then Ok([], b)
    else
      var a := p(b);
      if !a.Ok? then a.AsError() else Prepended([a.value], ReadSeq(p, a.rest, n - 1))
  }

  // The reader takes exactly these bytes for this item, whatever follows.
  ghost predicate Reads<T>(p: Bytes -> Result<T>, e: Bytes, x: T) {
    forall rest :: p(e + rest) == Ok(x, rest)
  }

  ghost predicate Refuses<T>(p: Bytes -> Result<T>, e: Bytes) {
    forall rest :: !p(e + rest).Ok?
  }

  lemma {:induction false} SeqReads<T>(p: Bytes -> Result<T>, es: seq<Bytes>, xs: seq<T>, rest: Bytes)
    requires |es| == |xs| && forall i :: 0 <= i < |es| ==> Reads(p, es[i], xs[i])
    ensures ReadSeq(p, Concat(es) + rest, |es|) == Ok(xs, rest)
    decreases |es|
  {
    if es == [] {
      assert Concat(es) + rest == rest;
    } else {
      var more := Concat(es[1..]) + rest;
      Reassociate(es[0], Concat(es[1..]), rest);
      assert Reads(p, es[0], xs[0]) && p(es[0] + more) == Ok(xs[0], more);
      SeqReads(p, es[1..], xs[1..], rest);
      assert xs == [xs[0]] + xs[1..];
    }
  }

  // A refused item anywhere in the sequence refuses the whole.
  lemma {:induction false} SeqRefused<T>(p: Bytes -> Result<T>, es: seq<Bytes>, xs: seq<T>, k: nat, rest: Bytes)
    requires k < |es| == |xs| && (forall i :: 0 <= i < k ==> Reads(p, es[i], xs[i])) && Refuses(p, es[k])
    ensures !ReadSeq(p, Concat(es) + rest, |es|).Ok?
    decreases |es|
  {
    var more := Concat(es[1..]) + rest;
    Reassociate(es[0], Concat(es[1..]), rest);
    if k == 0 {
      assert !p(es[0] + more).Ok?;
    } else {
      assert Reads(p, es[0], xs[0]) && p(es[0] + more) == Ok(xs[0], more);
      SeqRefused(p, es[1..], xs[1..], k - 1, rest);
    }
  }

  function ReadArgs(b: Bytes, n: nat): (r: Result<seq<Bytes>>)
    ensures !r.Eof?
  {
    ReadSeq(ReadArg, b, n)
  }

  function ReadMultiBulk(b: Bytes): (r: Result<seq<Bytes>>)
    ensures !r.Eof?
  {
    var n := ReadCount(b);
    if !n.Ok? then n.AsError()
    else if n.value <= 0 then Ok([], n.rest)
    else if n.value > MAX_ARGS then Malformed
    else ReadArgs(n.rest, n.value)
  }

  // ReadRequest; `fields` splits an inline request at white space.
  function ReadRequest(b: Bytes, fields: Bytes -> seq<Bytes>): (r: Result<seq<Bytes>>)
    ensures r.Eof? <==> b == []
  {
    if b == [] then Eof
    else if b[0] == STAR then ReadMultiBulk(b[1..])
    else
      var line := ReadLine(b);
      if line.Ok? then Ok(fields(line.value), line.rest) else line.AsError()
  }

  predicate NoneTooLong(args: seq<Bytes>) {
    forall i :: 0 <= i < |args| ==> |args[i]| <= MAX_BULK
  }

  predicate Within(args: seq<Bytes>) {
    |args| <= MAX_ARGS && NoneTooLong(args)
  }

  function Pow10(k: nat): (r: nat)
    ensures r >= 1
  {
    if k == 0 then 1 else 10 * Pow10(k - 1)
  }

  lemma {:induction false} DigitsLength(n: nat, k: nat)
    requires n < Pow10(k) && k >= 1
    ensures |Digits(n)| <= k
    decreases k
  {
    if n >= 10 {
      DigitsLength(n / 10, k - 1);
    }
  }

  // A count line: the digits and a line break, with anything after it.
  lemma CountRead(n: nat, rest: Bytes)
    ensures
      var r := ReadCount(FormatInt(n) + CRLF + rest);
      (r.Ok? ==> r == Ok(n, rest)) && (n <= MAX_BULK ==> r.Ok?)
  {
    var text := FormatInt(n);
    var b := text + CRLF + rest;
    assert AllDigits(Digits(n));
    FirstLf(text, rest);
    if n <= MAX_BULK {
      TenDigits();
      DigitsLength(n, 10);
      IntRoundTrip(n);
    }
    if ReadLine(b).Ok? {
      assert b[..|text|] == text && b[|text| + 2..] == rest;
      DecimalRoundTrip(n);
    }
  }

  lemma TenDigits()
    ensures Pow10(10) > MAX_BULK
  {
    assert Pow10(4) == 10000;
    assert Pow10(8) == 1_0000_0000;
  }

  lemma FirstLf(text: Bytes, rest: Bytes)
    requires forall i :: 0 <= i < |text| ==> 48 <= text[i] < 58
    ensures IndexLf(text + CRLF + rest) == |text| + 1
  {
    var b := text + CRLF + rest;
    assert b[|text|] == CR && b[|text| + 1] == LF;
    forall i | 0 <= i < |text| ensures b[i] != LF {
      assert b[i] == text[i];
    }
    IndexLfIs(b, |text| + 1);
  }

  // A bulk argument reads back exactly when it is not too long.
  lemma BulkRead(a: Bytes, rest: Bytes)
    ensures
      var r := ReadBulk(EncodeBulk(a)[1..] + rest);
      if |a| <= MAX_BULK then r == Ok(a, rest) else !r.Ok?
  {
    var body := a + CRLF + rest;
    assert EncodeBulk(a)[1..] + rest == FormatInt(|a|) + CRLF + body;
    CountRead(|a|, body);
    assert body[..|a|] == a && body[|a|..] == CRLF + rest;
    assert (CRLF + rest)[2..] == rest;
  }

  lemma ArgRead(a: Bytes)
    ensures |a| <= MAX_BULK ==> Reads(ReadArg, EncodeBulk(a), a)
    ensures |a| > MAX_BULK ==> Refuses(ReadArg, EncodeBulk(a))
  {
    forall more: Bytes
      ensures
        var r := ReadArg(EncodeBulk(a) + more);
        if |a| <= MAX_BULK then r == Ok(a, more) else !r.Ok?
    {
      var b := EncodeBulk(a) + more;
      assert b[0] == DOLLAR && b[1..] == EncodeBulk(a)[1..] + more;
      BulkRead(a, more);
    }
  }

  // Every argument and the bytes after them, unless one is too long.
  lemma ArgsRead(args: seq<Bytes>, rest: Bytes)
    ensures
      var r := ReadArgs(Concat(Bulks(args)) + rest, |args|);
      if NoneTooLong(args) then r == Ok(args, rest) else !r.Ok?
  {
    forall i | 0 <= i < |args|
      ensures |args[i]| <= MAX_BULK ==> Reads(ReadArg, Bulks(args)[i], args[i])
      ensures |args[i]| > MAX_BULK ==> Refuses(ReadArg, Bulks(args)[i])
    {
      ArgRead(args[i]);
    }
    if NoneTooLong(args) {
      SeqReads(ReadArg, Bulks(args), args, rest);
    } else {
      var k := FirstTooLong(args);
      SeqRefused(ReadArg, Bulks(args), args, k, rest);
    }
  }

  lemma FirstTooLong(args: seq<Bytes>) returns (k: nat)
    requires !NoneTooLong(args)
    ensures k < |args| && |args[k]| > MAX_BULK && forall i :: 0 <= i < k ==> |args[i]| <= MAX_BULK
  {
    k := 0;
    while |args[k]| <= MAX_BULK
      invariant k < |args| && forall i :: 0 <= i < k ==> |args[i]| <= MAX_BULK
      decreases |args| - k
    {
      k := k + 1;
    }
  }

  // A request reads back as sent, leaving the bytes after it, if and only if it is within
  // the size limits.
  lemma RequestRoundTripIff(args: seq<Bytes>, rest: Bytes, fields: Bytes -> seq<Bytes>)
    ensures ReadRequest(EncodeRequest(args) + rest, fields) == Ok(args, rest) <==> Within(args)
  {
    var b := EncodeRequest(args) + rest;
    var more := Concat(Bulks(args)) + rest;
    assert b[0] == STAR && b[1..] == FormatInt(|args|) + CRLF + more;
    CountRead(|args|, more);
    ArgsRead(args, rest);
    if args == [] {
      assert more == rest;
    }
  }

  function Encoded(reqs: seq<seq<Bytes>>): (es: seq<Bytes>)
    ensures |es| == |reqs|
  {
    seq(|reqs|, i requires 0 <= i < |reqs| => EncodeRequest(reqs[i]))
  }

  // Pipelined requests come out one by one, as sent.
  lemma PipelineRoundTrip(reqs: seq<seq<Bytes>>, rest: Bytes, fields: Bytes -> seq<Bytes>)
    requires forall i :: 0 <= i < |reqs| ==> Within(reqs[i])
    ensures ReadSeq(b => ReadRequest(b, fields), Concat(Encoded(reqs)) + rest, |reqs|) == Ok(reqs, rest)
  {
    var p := b => ReadRequest(b, fields);
    forall i | 0 <= i < |reqs| ensures Reads(p, Encoded(reqs)[i], reqs[i]) {
      forall more ensures p(EncodeRequest(reqs[i]) + more) == Ok(reqs[i], more) {
        RequestRoundTripIff(reqs[i], more, fields);
      }
    }
    SeqReads(p, Encoded(reqs), reqs, rest);
  }

  // The server's reader: a position in a byte stream.
  class Reader {
    var stream: Bytes

    // io.ReadFull, without its short count.
    method Take(n: nat) returns (r: Result<Bytes>)
      modifies this
      ensures r == ReadExactly(old(stream), n)
      ensures r.Ok? ==> stream == r.rest
    {
      if n > |stream| {
        stream := [];
        return UnexpectedEof;
      }
      r := Ok(stream[..n], stream[n..]);
      stream := stream[n..];
    }

    // readN: a large body arrives in chunks, and equals one direct read.
    method ReadN(n: nat) returns (r: Result<Bytes>)
      modifies this
      ensures r == ReadExactly(old(stream), n)
      ensures r.Ok? ==> stream == r.rest
    {
      if n <= DIRECT_READ {
        r := Take(n);
      } else {
        r := ReadChunks(n);
      }
    }

    method ReadChunks(n: nat) returns (r: Result<Bytes>)
      modifies this
      ensures r == ReadExactly(old(stream), n)
      ensures r.Ok? ==> stream == r.rest
    {
      var buf: Bytes := [];
      while |buf| < n
        invariant |buf| <= n && buf + stream == old(stream)
        decreases n - |buf|
      {
        var want := if n - |buf| > DIRECT_READ then DIRECT_READ else n - |buf|;
        ghost var before := stream;
        var chunk := Take(want);
        if !chunk.Ok? {
          return UnexpectedEof;
        }
        TakenFrom(before, want);
        Reassociate(buf, chunk.value, stream);
        buf := buf + chunk.value;
      }
      SplitAt(buf, stream);
      r := Ok(buf, stream);
    }

    method Line() returns (r: Result<Bytes>)
      modifies this
      ensures r == ReadLine(old(stream))
      ensures r.Ok? ==> stream == r.rest
    {
      r := ReadLine(stream);
      if r.Ok? {
        stream := r.rest;
      }
    }

    method Count() returns (r: Result<int>)
      modifies this
      ensures r == ReadCount(old(stream))
      ensures r.Ok? ==> stream == r.rest
    {
      var line := Line();
      if !line.Ok? {
        return line.AsError();
      }
      var n := ParseInt(line.value);
      if n.None? {
        return Malformed;
      }
      r := Ok(n.value, stream);
    }

    method Bulk() returns (r: Result<Bytes>)
      modifies this
      ensures r == ReadBulk(old(stream))
      ensures r.Ok? ==> stream == r.rest
    {
      var n := Count();
      if !n.Ok? {
        return n.AsError();
      }
      if n.value < 0 || n.value > MAX_BULK {
        return Malformed;
      }
      var body := ReadN(n.value);
      if !body.Ok? {
        return body;
      }
      var end := ExpectCrlf(stream);
      if !end.Ok? {
        return end.AsError();
      }
      stream := end.rest;
      r := Ok(body.value, stream);
    }

    method MultiBulk() returns (r: Result<seq<Bytes>>)
      modifies this
      ensures r == ReadMultiBulk(old(stream))
      ensures r.Ok? ==> stream == r.rest
    {
      var n := Count();
      if !n.Ok? {
        return n.AsError();
      }
      if n.value <= 0 {
        return Ok([], stream);
      }
      if n.value > MAX_ARGS {
        return Malformed;
      }
      r := Args(n.value);
    }

    method Args(n: nat) returns (r: Result<seq<Bytes>>)
      modifies this
      ensures r == ReadArgs(old(stream), n)
      ensures r.Ok? ==> stream == r.rest
    {
      var args: seq<Bytes> := [];
      PrependNothing(ReadArgs(stream, n));
      for i := 0 to n
        invariant Prepended(args, ReadArgs(stream, n - i)) == ReadArgs(old(stream), n)
      {
        var arg := Arg();
        if !arg.Ok? {
          return arg.AsError();
        }
        PrependTwice(args, arg.value, ReadArgs(arg.rest, n - i - 1));
        args := args + [arg.value];
      }
      PrependedToNone(args, stream);
      r := Ok(args, stream);
    }

    method Arg() returns (r: Result<Bytes>)
      modifies this
      ensures r == ReadArg(old(stream))
      ensures r.Ok? ==> stream == r.rest
    {
      if stream == [] {
        return UnexpectedEof;
      }
      if stream[0] != DOLLAR {
        return Malformed;
      }
      stream := stream[1..];
      r := Bulk();
    }

    method Request(fields: Bytes -> seq<Bytes>) returns (r: Result<seq<Bytes>>)
      modifies this
      ensures r == ReadRequest(old(stream), fields)
      ensures r.Ok? ==> stream == r.rest
    {
      if stream == [] {
        return Eof;
      }
      if stream[0] == STAR {
        stream := stream[1..];
        r := MultiBulk();
        return;
      }
      var line := Line();
      if !line.Ok? {
        return line.AsError();
      }
      r := Ok(fields(line.value), stream);
    }
  }

  lemma PrependNothing<T>(r: Result<seq<T>>)
    ensures Prepended([], r) == r
  {
    if r.Ok? {
      assert [] + r.value == r.value;
    }
  }

  lemma PrependedToNone(args: seq<Bytes>, b: Bytes)
    ensures Prepended(args, ReadArgs(b, 0)) == Ok(args, b)
  {
    assert args + [] == args;
  }

  lemma PrependTwice<T>(items: seq<T>, x: T, r: Result<seq<T>>)
    ensures Prepended(items, Prepended([x], r)) == Prepended(items + [x], r)
  {
    if r.Ok? {
      assert items + ([x] + r.value) == items + [x] + r.value;
    }
  }

  lemma TakenFrom(b: Bytes, n: nat)
    requires n <= |b|
    ensures b[..n] + b[n..] == b
  {
  }

  lemma SplitAt(a: Bytes, b: Bytes)
    ensures (a + b)[..|a|] == a && (a + b)[|a|..] == b
  {
  }
}
