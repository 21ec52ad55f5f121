// Which byte streams the server takes for a request (internal/resp/reader.go): an exact
// description of the accepted streams, and what a longer stream does to each answer.
module RequestForms {
  import opened ByteStrings
  import opened Decimals
  import opened Options
  import opened Streams
  import opened Requests

  // A line of fewer than 16 KiB with its line break, and what follows.
  ghost predicate LineThen(b: Bytes, line: Bytes, rest: Bytes) {
    b == line + ([13, 10] + rest) && 10 !in line && |line| <= 16_382
  }

  // A number on a line of its own, and what follows.
  ghost predicate NumberThen(b: Bytes, n: int, rest: Bytes) {
    exists text :: LineThen(b, text, rest) && ParseInt(text) == Some(n)
  }

  // A dollar sign, the length on a line, that many bytes, and a line break.
  ghost predicate BulkThen(b: Bytes, a: Bytes, rest: Bytes) {
    && b != [] && b[0] == 36 && |a| <= 536_870_912
    && NumberThen(b[1..], |a|, a + ([13, 10] + rest))
  }

  // Items one after another, each of this form.
  ghost predicate AllThen<T(!new)>(form: (Bytes, T, Bytes) -> bool, b: Bytes, items: seq<T>, rest: Bytes)
    decreases |items|
  {
    if items == [] then b == rest
    else exists more :: form(b, items[0], more) && AllThen(form, more, items[1..], rest)
  }

  ghost predicate BulksThen(b: Bytes, args: seq<Bytes>, rest: Bytes) {
    AllThen(BulkThen, b, args, rest)
  }

  // An array of at most 2^20 arguments, or an array of none, which asks for nothing.
  ghost predicate ArrayThen(b: Bytes, args: seq<Bytes>, rest: Bytes) {
    exists n, more ::
      && NumberThen(b, n, more)
      && (if n <= 0 then args == [] && more == rest
          else n == |args| && n <= 1_048_576 && BulksThen(more, args, rest))
  }

  // The two forms of a request: an array, or any other line split into fields.
  ghost predicate RequestThen(b: Bytes, fields: Bytes -> seq<Bytes>, args: seq<Bytes>, rest: Bytes) {
    && b != []
    && if b[0] == 42 then ArrayThen(b[1..], args, rest)
       else exists line :: LineThen(b, line, rest) && args == fields(line)
  }

  lemma {:induction false} FirstLineFeed(b: Bytes)
    ensures
      var i := IndexLf(b);
      (i < |b| ==> b[i] == 10) && forall j :: 0 <= j < i ==> b[j] != 10
  {
    if b != [] && b[0] != 10 {
      FirstLineFeed(b[1..]);
      var i := IndexLf(b[1..]);
      forall j | 0 <= j < i + 1 ensures b[j] != 10 {
        assert j > 0 ==> b[j] == b[1..][j - 1];
      }
    }
  }

  lemma LineIff(b: Bytes, line: Bytes, rest: Bytes)
    ensures ReadLine(b) == Ok(line, rest) <==> LineThen(b, line, rest)
  {
    var i := IndexLf(b);
    FirstLineFeed(b);
    if ReadLine(b) == Ok(line, rest) {
      assert b == b[..i - 1] + ([13, 10] + b[i + 1..]);
    }
    if LineThen(b, line, rest) {
      LineRead(b, line, rest);
    }
  }

  lemma LineRead(b: Bytes, line: Bytes, rest: Bytes)
    requires LineThen(b, line, rest)
    ensures ReadLine(b) == Ok(line, rest)
  {
    var i := |line| + 1;
    assert b[i] == 10 && b[i - 1] == 13;
    forall j | 0 <= j < i ensures b[j] != 10 {
      if j < |line| {
        assert b[j] == line[j] && line[j] in line;
      }
    }
    IndexLfIs(b, i);
    assert b[..i - 1] == line && b[i + 1..] == rest;
  }

  lemma NumberIff(b: Bytes, n: int, rest: Bytes)
    ensures ReadCount(b) == Ok(n, rest) <==> NumberThen(b, n, rest)
  {
    var line := ReadLine(b);
    if line.Ok? {
      LineIff(b, line.value, line.rest);
    }
    if NumberThen(b, n, rest) {
      var text :| LineThen(b, text, rest) && ParseInt(text) == Some(n);
      LineIff(b, text, rest);
    }
  }

  lemma BodyIff(b: Bytes, a: Bytes, rest: Bytes)
    ensures
      b == a + ([13, 10] + rest) <==>
      && |a| + 2 <= |b|
      && ReadExactly(b, |a|) == Ok(a, b[|a|..])
      && ExpectCrlf(b[|a|..]) == Ok(true, rest)
  {
    if b == a + ([13, 10] + rest) {
      assert b[..|a|] == a && b[|a|..] == [13, 10] + rest;
      assert ([13, 10] + rest)[2..] == rest;
    }
    if |a| + 2 <= |b| {
      var tail := b[|a|..];
      assert b == b[..|a|] + tail;
      if tail[0] == 13 && tail[1] == 10 {
        assert tail == [13, 10] + tail[2..];
      }
    }
  }

  lemma BulkIff(b: Bytes, a: Bytes, rest: Bytes)
    ensures ReadArg(b) == Ok(a, rest) <==> BulkThen(b, a, rest)
  {
    if b != [] {
      var n := ReadCount(b[1..]);
      if n.Ok? {
        NumberIff(b[1..], n.value, n.rest);
        BodyIff(n.rest, a, rest);
      }
      NumberIff(b[1..], |a|, a + ([13, 10] + rest));
    }
  }

  // The reader takes the items of this form and no others.
  ghost predicate Exact<T(!new)>(p: Bytes -> Result<T>, form: (Bytes, T, Bytes) -> bool) {
    forall b, x, rest :: p(b) == Ok(x, rest) <==> form(b, x, rest)
  }

  lemma {:induction false} AllTaken<T(!new)>(
        p: Bytes -> Result<T>, form: (Bytes, T, Bytes) -> bool, b: Bytes, items: seq<T>, rest: Bytes)
    requires Exact(p, form) && ReadSeq(p, b, |items|) == Ok(items, rest)
    ensures AllThen(form, b, items, rest)
    decreases |items|
  {
    if items != [] {
      var a := p(b);
      FirstAndOthers(items, a.value, ReadSeq(p, a.rest, |items| - 1), rest);
      assert form(b, items[0], a.rest);
      AllTaken(p, form, a.rest, items[1..], rest);
    }
  }

  lemma {:induction false} AllRead<T(!new)>(
        p: Bytes -> Result<T>, form: (Bytes, T, Bytes) -> bool, b: Bytes, items: seq<T>, rest: Bytes)
    requires Exact(p, form) && AllThen(form, b, items, rest)
    ensures ReadSeq(p, b, |items|) == Ok(items, rest)
    decreases |items|
  {
    if items != [] {
      var more :| form(b, items[0], more) && AllThen(form, more, items[1..], rest);
      assert p(b) == Ok(items[0], more);
      AllRead(p, form, more, items[1..], rest);
      FirstAndOthers(items, items[0], ReadSeq(p, more, |items| - 1), rest);
    }
  }

  lemma FirstAndOthers<T>(items: seq<T>, x: T, r: Result<seq<T>>, rest: Bytes)
    requires items != []
    ensures Prepended([x], r) == Ok(items, rest) <==> x == items[0] && r == Ok(items[1..], rest)
  {
    if r.Ok? {
      assert ([x] + r.value)[1..] == r.value;
      assert items == [items[0]] + items[1..];
    }
  }

  lemma BulksIff(b: Bytes, args: seq<Bytes>, rest: Bytes)
    ensures ReadArgs(b, |args|) == Ok(args, rest) <==> BulksThen(b, args, rest)
  {
    assert Exact(ReadArg, BulkThen) by {
      forall b, a, rest ensures ReadArg(b) == Ok(a, rest) <==> BulkThen(b, a, rest) {
        BulkIff(b, a, rest);
      }
    }
    if BulksThen(b, args, rest) {
      AllRead(ReadArg, BulkThen, b, args, rest);
    } else if ReadArgs(b, |args|) == Ok(args, rest) {
      AllTaken(ReadArg, BulkThen, b, args, rest);
    }
  }

  lemma ArrayIff(b: Bytes, args: seq<Bytes>, rest: Bytes)
    ensures ReadMultiBulk(b) == Ok(args, rest) <==> ArrayThen(b, args, rest)
  {
    var n := ReadCount(b);
    if n.Ok? {
      NumberIff(b, n.value, n.rest);
      BulksIff(n.rest, args, rest);
      if n.value > 0 {
        HowMany(ReadArg, n.rest, n.value);
      }
    }
    if ArrayThen(b, args, rest) {
      var m, more :| NumberThen(b, m, more) &&
        (if m <= 0 then args == [] && more == rest
         else m == |args| && m <= 1_048_576 && BulksThen(more, args, rest));
      NumberIff(b, m, more);
    }
  }

  lemma {:induction false} HowMany(p: Bytes -> Result<Bytes>, b: Bytes, n: nat)
    ensures var r := ReadSeq(p, b, n); r.Ok? ==> |r.value| == n
    decreases n
  {
    if n > 0 && p(b).Ok? {
      HowMany(p, p(b).rest, n - 1);
    }
  }

  // The server takes the front of a stream for a request, and what it takes it for, if and
  // only if the stream is that request in one of the two forms and then the rest.
  lemma RequestIff(b: Bytes, fields: Bytes -> seq<Bytes>, args: seq<Bytes>, rest: Bytes)
    ensures ReadRequest(b, fields) == Ok(args, rest) <==> RequestThen(b, fields, args, rest)
  {
    if b != [] {
      if b[0] == 42 {
        ArrayIff(b[1..], args, rest);
      } else {
        var line := ReadLine(b);
        if line.Ok? {
          LineIff(b, line.value, line.rest);
        }
        if l :| LineThen(b, l, rest) && args == fields(l) {
          LineIff(b, l, rest);
        }
      }
    }
  }

  // What more bytes make of an answer: an answer given is never taken back.
  ghost predicate Final<T>(r: Result<T>, s: Result<T>, more: Bytes) {
    && (r.Ok? ==> s == Ok(r.value, r.rest + more))
    && (r.Malformed? ==> s.Malformed?)
  }

  lemma LineFinal(b: Bytes, more: Bytes)
    ensures Final(ReadLine(b), ReadLine(b + more), more)
  {
    var i := IndexLf(b);
    FirstLineFeed(b);
    FirstLineFeed(b + more);
    if i < |b| {
      IndexLfIs(b + more, i);
      assert (b + more)[..i] == b[..i] && (b + more)[i + 1..] == b[i + 1..] + more;
      if i > 0 {
        assert (b + more)[..i - 1] == b[..i - 1];
      }
    } else {
      StillNone(b, more);
    }
  }

  lemma {:induction false} StillNone(b: Bytes, more: Bytes)
    requires IndexLf(b) == |b|
    ensures IndexLf(b + more) >= |b|
  {
    if b != [] {
      StillNone(b[1..], more);
      assert (b + more)[1..] == b[1..] + more;
    }
  }

  lemma CountFinal(b: Bytes, more: Bytes)
    ensures Final(ReadCount(b), ReadCount(b + more), more)
  {
    LineFinal(b, more);
  }

  lemma BodyFinal(b: Bytes, n: nat, more: Bytes)
    ensures Final(ReadExactly(b, n), ReadExactly(b + more, n), more)
  {
    if n <= |b| {
      assert (b + more)[..n] == b[..n] && (b + more)[n..] == b[n..] + more;
    }
  }

  lemma CrlfFinal(b: Bytes, more: Bytes)
    ensures Final(ExpectCrlf(b), ExpectCrlf(b + more), more)
  {
    if |b| >= 2 {
      assert (b + more)[2..] == b[2..] + more;
    }
  }

  lemma BulkFinal(b: Bytes, more: Bytes)
    ensures Final(ReadBulk(b), ReadBulk(b + more), more)
  {
    var n := ReadCount(b);
    CountFinal(b, more);
    if n.Ok? && 0 <= n.value <= MAX_BULK {
      BodyFinal(n.rest, n.value, more);
      var body := ReadExactly(n.rest, n.value);
      if body.Ok? {
        CrlfFinal(body.rest, more);
      }
    }
  }

  lemma ArgFinal(b: Bytes, more: Bytes)
    ensures Final(ReadArg(b), ReadArg(b + more), more)
  {
    if b != [] {
      assert (b + more)[1..] == b[1..] + more;
      BulkFinal(b[1..], more);
    }
  }

  lemma {:induction false} SeqFinal<T>(p: Bytes -> Result<T>, b: Bytes, n: nat, more: Bytes)
    requires forall b :: Final(p(b), p(b + more), more)
    ensures Final(ReadSeq(p, b, n), ReadSeq(p, b + more, n), more)
    decreases n
  {
    if n > 0 && p(b).Ok? {
      SeqFinal(p, p(b).rest, n - 1, more);
    }
  }

  lemma ArgsFinal(b: Bytes, n: nat, more: Bytes)
    ensures Final(ReadArgs(b, n), ReadArgs(b + more, n), more)
  {
    forall b ensures Final(ReadArg(b), ReadArg(b + more), more) {
      ArgFinal(b, more);
    }
    SeqFinal(ReadArg, b, n, more);
  }

  lemma ArrayFinal(b: Bytes, more: Bytes)
    ensures Final(ReadMultiBulk(b), ReadMultiBulk(b + more), more)
  {
    var n := ReadCount(b);
    CountFinal(b, more);
    if n.Ok? && 0 < n.value <= MAX_ARGS {
      ArgsFinal(n.rest, n.value, more);
    }
  }

  // A request once taken, and a protocol error once found, stand however the stream goes on.
  lemma RequestFinal(b: Bytes, fields: Bytes -> seq<Bytes>, more: Bytes)
    ensures Final(ReadRequest(b, fields), ReadRequest(b + more, fields), more)
  {
    if b != [] {
      if b[0] == 42 {
        assert (b + more)[1..] == b[1..] + more;
        ArrayFinal(b[1..], more);
      } else {
        LineFinal(b, more);
      }
    }
  }

  lemma StillOpen<T>(r: Result<T>, s: Result<T>, more: Bytes)
    requires Final(r, s, more) && s.Ok? && s.rest == [] && more != []
    ensures r.CutShort()
  {
  }

  // A stream that ends within a request is neither a request nor a protocol error: the end is
  // clean before the first byte, and unexpected after it.
  lemma EndsWithin(b: Bytes, fields: Bytes -> seq<Bytes>, args: seq<Bytes>, k: nat)
    requires RequestThen(b, fields, args, []) && k < |b|
    ensures ReadRequest(b[..k], fields) == if k == 0 then Eof else UnexpectedEof
  {
    var front, more := b[..k], b[k..];
    assert front + more == b;
    RequestIff(b, fields, args, []);
    RequestFinal(front, fields, more);
    StillOpen(ReadRequest(front, fields), ReadRequest(b, fields), more);
  }
}
