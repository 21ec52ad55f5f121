// RESP replies: how the server writes them (internal/resp/writer.go) and how the Node
// client reads them back (clients/node/memcore.mjs). Payloads are bytes, integers exact.
module Replies {
  import opened Options
  import opened ByteStrings
  import opened Decimals
  import Streams
  import opened Framing

  datatype Reply =
    | Nil
    | Simple(text: Bytes)
    | Error(text: Bytes)
    | Int(n: int)
    | Bulk(bytes: Bytes)
    | Array(elems: seq<Reply>)

  const CR: Byte := 13
  const LF: Byte := 10
  const CRLF: Bytes := [CR, LF]
  const COLON: Byte := 58
  const DOLLAR: Byte := 36
  const STAR: Byte := 42

  // One CRLF-terminated line with its type byte.
  function Line(prefix: Byte, text: Bytes): (r: Bytes)
    ensures |r| == |text| + 3
  {
    [prefix] + text + CRLF
  }

  function Encode(r: Reply): (b: Bytes)
    ensures |b| >= 3
    decreases r
  {
    match r
    case Nil => Line(DOLLAR, FormatInt(-1))
    case Simple(t) => Line(PLUS, t)
    case Error(t) => Line(MINUS, t)
    case Int(n) => Line(COLON, FormatInt(n))
    case Bulk(b) => Line(DOLLAR, FormatInt(|b|)) + (b + CRLF)
    case Array(es) => Line(STAR, FormatInt(|es|)) + EncodeAll(es)
  }

  function EncodeAll(rs: seq<Reply>): (b: Bytes)
    decreases rs
  {
    if rs == [] then [] else Encode(rs[0]) + EncodeAll(rs[1..])
  }

  predicate IsCrlf(b: Bytes, i: int) {
    0 <= i && i + 1 < |b| && b[i] == CR && b[i + 1] == LF
  }

  ghost predicate HasCrlf(b: Bytes) {
    exists i :: IsCrlf(b, i)
  }

  // buf.indexOf("\r\n", from).
  function FindCrlf(b: Bytes, from: nat): (r: Option<nat>)
    ensures r.Some? ==> from <= r.value && IsCrlf(b, r.value) && forall j :: from <= j < r.value ==> !IsCrlf(b, j)
    ensures r.None? ==> forall j :: from <= j ==> !IsCrlf(b, j)
    decreases |b| - from
  {
    if from + 1 >= |b| then None
    else if IsCrlf(b, from) then Some(from)
    else FindCrlf(b, from + 1)
  }

  // What the client hands to its caller.
  datatype Value =
    | Null
    | Text(bytes: Bytes)
    | Failure(text: Bytes)
    | Number(n: int)
    | Items(items: seq<Value>)

  datatype ParsedAll = SomePartial | SomeThrown | All(values: seq<Value>, rest: Bytes)

  // parseReply, on what the buffer holds from its offset on. A count that is not a decimal
  // integer counts as an exception here.
  function Parse(b: Bytes): (r: Parsed<Value>)
    ensures r.Parsed? ==> |r.rest| < |b|
    decreases |b|, 0
  {
    if b == [] then Partial
    else
      var crlf := FindCrlf(b, 1);
      if crlf.None? then Partial
      else ParseTyped(b[0], b[1..crlf.value], b[crlf.value + 2..])
  }

  function ParseTyped(prefix: Byte, line: Bytes, rest: Bytes): (r: Parsed<Value>)
    ensures r.Parsed? ==> |r.rest| <= |rest|
    decreases |rest|, 2
  {
    if prefix == PLUS then Parsed(Text(line), rest)
    else if prefix == MINUS then Parsed(Failure(line), rest)
    else if prefix == COLON || prefix == DOLLAR || prefix == STAR then
      var n := ParseDecimal(line);
      if n.None? then Thrown
      else if prefix == COLON then Parsed(Number(n.value), rest)
      else if n.value == -1 then Parsed(Null, rest)
      else if n.value < 0 then Thrown
      else if prefix == DOLLAR then
        if |rest| < n.value + 2 then Partial else Parsed(Text(rest[..n.value]), rest[n.value + 2..])
      else
        var items := ParseItems(rest, n.value);
        match items
        case SomePartial => Partial
        case SomeThrown => Thrown
        case All(vs, after) => Parsed(Items(vs), after)
    else Thrown
  }

  // The loop over an array's elements.
  function ParseItems(b: Bytes, n: nat): (r: ParsedAll)
    ensures r.All? ==> |r.rest| <= |b| && |r.values| == n
    decreases |b|, 1
  {
    if n == 0 then All([], b)
    else
      var first := Parse(b);
      match first
      case Partial => SomePartial
      case Thrown => SomeThrown
      case Parsed(v, rest) =>
        var more := ParseItems(rest, n - 1);
        if more.All? then All([v] + more.values, more.rest) else more
  }

  function Decoded(r: Reply): (v: Value)
    decreases r
  {
    match r
    case Nil => Null
    case Simple(t) => Text(t)
    case Error(t) => Failure(t)
    case Int(n) => Number(n)
    case Bulk(b) => Text(b)
    case Array(es) => Items(DecodedAll(es))
  }

  function DecodedAll(rs: seq<Reply>): (vs: seq<Value>)
    ensures |vs| == |rs|
    decreases rs
  {
    if rs == [] then [] else [Decoded(rs[0])] + DecodedAll(rs[1..])
  }

  // No simple string or error text holds a line break.
  ghost predicate Clean(r: Reply)
    decreases r
  {
    match r
    case Simple(t) => !HasCrlf(t)
    case Error(t) => !HasCrlf(t)
    case Array(es) => AllClean(es)
    case _ => true
  }

  ghost predicate AllClean(rs: seq<Reply>)
    decreases rs
  {
    rs == [] || (Clean(rs[0]) && AllClean(rs[1..]))
  }

  // The first line break after the type byte is the line's own, unless the text has one.
  lemma FirstLine(p: Byte, text: Bytes, rest: Bytes)
    ensures
      var i := FindCrlf(Line(p, text) + rest, 1);
      i.Some? && i.value <= |text| + 1 && (i.value == |text| + 1 <==> !HasCrlf(text))
  {
    var b, n := Line(p, text) + rest, |text|;
    assert b[n + 1] == CR && b[n + 2] == LF;
    assert IsCrlf(b, n + 1);
    forall j | 1 <= j < n + 1 ensures IsCrlf(b, j) <==> IsCrlf(text, j - 1) {
      assert b[j] == text[j - 1];
      if j < n {
        assert b[j + 1] == text[j];
      }
    }
    var i := FindCrlf(b, 1);
    if HasCrlf(text) {
      var k :| IsCrlf(text, k);
      assert IsCrlf(b, k + 1);
    }
  }

  lemma ParseLine(p: Byte, text: Bytes, rest: Bytes)
    requires !HasCrlf(text)
    ensures Parse(Line(p, text) + rest) == ParseTyped(p, text, rest)
  {
    FirstLine(p, text, rest);
    var b := Line(p, text) + rest;
    assert b[1..|text| + 1] == text && b[|text| + 3..] == rest;
  }

  // A text with a line break is cut short at it.
  lemma BrokenLine(p: Byte, text: Bytes, rest: Bytes)
    requires HasCrlf(text) && (p == PLUS || p == MINUS)
    ensures
      var r := Parse(Line(p, text) + rest);
      r.Parsed? && r.value != Text(text) && r.value != Failure(text)
  {
    FirstLine(p, text, rest);
    var b := Line(p, text) + rest;
    var i := FindCrlf(b, 1).value;
    assert |b[1..i]| < |text|;
  }

  lemma IntHasNoCrlf(n: int)
    ensures !HasCrlf(FormatInt(n))
  {
    assert AllDigits(Digits(if n < 0 then -n else n));
    forall i ensures !IsCrlf(FormatInt(n), i) {
      if 0 <= i < |FormatInt(n)| {
        assert FormatInt(n)[i] != CR;
      }
    }
  }

  lemma ParseCount(p: Byte, n: int, rest: Bytes)
    ensures ParseDecimal(FormatInt(n)) == Some(n)
    ensures Parse(Line(p, FormatInt(n)) + rest) == ParseTyped(p, FormatInt(n), rest)
  {
    IntHasNoCrlf(n);
    DecimalRoundTrip(n);
    ParseLine(p, FormatInt(n), rest);
  }

  lemma BulkParsed(b: Bytes, rest: Bytes)
    ensures Parse(Encode(Bulk(b)) + rest) == Parsed(Text(b), rest)
  {
    var body := b + CRLF + rest;
    assert Encode(Bulk(b)) + rest == Line(DOLLAR, FormatInt(|b|)) + body;
    ParseCount(DOLLAR, |b|, body);
    assert body[..|b|] == b && body[|b| + 2..] == rest;
  }

  lemma ArrayParsed(es: seq<Reply>, rest: Bytes)
    ensures Parse(Encode(Array(es)) + rest) == ParseTyped(STAR, FormatInt(|es|), EncodeAll(es) + rest)
    ensures ParseDecimal(FormatInt(|es|)) == Some(|es|)
  {
    var head := Line(STAR, FormatInt(|es|));
    assert Encode(Array(es)) + rest == head + (EncodeAll(es) + rest);
    ParseCount(STAR, |es|, EncodeAll(es) + rest);
  }

  // A clean reply at the head of the buffer is parsed exactly, and nothing after it touched.
  lemma {:induction false} ParseEncode(r: Reply, rest: Bytes)
    requires Clean(r)
    ensures Parse(Encode(r) + rest) == Parsed(Decoded(r), rest)
    decreases r
  {
    match r
    case Nil => ParseCount(DOLLAR, -1, rest);
    case Simple(t) => ParseLine(PLUS, t, rest);
    case Error(t) => ParseLine(MINUS, t, rest);
    case Int(n) => ParseCount(COLON, n, rest);
    case Bulk(b) => BulkParsed(b, rest);
    case Array(es) =>
      ArrayParsed(es, rest);
      ItemsEncode(es, rest);
  }

  lemma {:induction false} ItemsEncode(rs: seq<Reply>, rest: Bytes)
    requires AllClean(rs)
    ensures ParseItems(EncodeAll(rs) + rest, |rs|) == All(DecodedAll(rs), rest)
    decreases rs
  {
    if rs == [] {
      assert EncodeAll(rs) + rest == rest;
    } else {
      var more := EncodeAll(rs[1..]) + rest;
      assert EncodeAll(rs) + rest == Encode(rs[0]) + more;
      ParseEncode(rs[0], more);
      ItemsEncode(rs[1..], rest);
    }
  }

  // A reply that is not clean never comes out as itself.
  lemma {:induction false} BrokenReply(r: Reply, rest: Bytes)
    requires !Clean(r)
    ensures Parse(Encode(r) + rest).Parsed? ==> Parse(Encode(r) + rest).value != Decoded(r)
    decreases r
  {
    match r
    case Simple(t) => BrokenLine(PLUS, t, rest);
    case Error(t) => BrokenLine(MINUS, t, rest);
    case Array(es) =>
      ArrayParsed(es, rest);
      BrokenItems(es, rest);
    case Nil =>
    case Int(_) =>
    case Bulk(_) =>
  }

  lemma {:induction false} BrokenItems(rs: seq<Reply>, rest: Bytes)
    requires !AllClean(rs)
    ensures
      var all := ParseItems(EncodeAll(rs) + rest, |rs|);
      all.All? ==> all.values != DecodedAll(rs)
    decreases rs
  {
    var more := EncodeAll(rs[1..]) + rest;
    var b := EncodeAll(rs) + rest;
    assert b == Encode(rs[0]) + more;
    var all := ParseItems(b, |rs|);
    if all.All? {
      ItemsHead(b, |rs|);
      assert DecodedAll(rs)[0] == Decoded(rs[0]) && DecodedAll(rs)[1..] == DecodedAll(rs[1..]);
      if Clean(rs[0]) {
        ParseEncode(rs[0], more);
        BrokenItems(rs[1..], rest);
        assert all.values[1..] != DecodedAll(rs)[1..];
      } else {
        BrokenReply(rs[0], more);
        assert all.values[0] != DecodedAll(rs)[0];
      }
    }
  }

  lemma ItemsHead(b: Bytes, n: nat)
    requires n > 0 && ParseItems(b, n).All?
    ensures Parse(b).Parsed? && ParseItems(Parse(b).rest, n - 1).All?
    ensures ParseItems(b, n).values[0] == Parse(b).value
    ensures ParseItems(b, n).values[1..] == ParseItems(Parse(b).rest, n - 1).values
  {
  }

  // The client reads what the server wrote if and only if no text holds a line break.
  lemma ParseExactIff(r: Reply, rest: Bytes)
    ensures Parse(Encode(r) + rest) == Parsed(Decoded(r), rest) <==> Clean(r)
  {
    if Clean(r) {
      ParseEncode(r, rest);
    } else {
      BrokenReply(r, rest);
    }
  }

  // An error that quotes its command: ERR unknown command '<name>'.
  lemma UnknownCommandBreaks(before: Bytes, name: Bytes, after: Bytes, rest: Bytes)
    requires HasCrlf(name)
    ensures Parse(Encode(Error(before + name + after)) + rest) != Parsed(Failure(before + name + after), rest)
  {
    var i :| IsCrlf(name, i);
    assert IsCrlf(before + name + after, |before| + i);
    ParseExactIff(Error(before + name + after), rest);
  }

  lemma LineCut(p: Byte, text: Bytes, k: nat)
    requires !HasCrlf(text) && k < |text| + 3
    ensures Parse(Line(p, text)[..k]).Partial?
  {
    var b := Line(p, text)[..k];
    forall j | 1 <= j && IsCrlf(b, j) ensures IsCrlf(text, j - 1) {
      CrlfInside(p, text, k, j);
    }
  }

  lemma CrlfInside(p: Byte, text: Bytes, k: nat, j: nat)
    requires k < |text| + 3 && 1 <= j && IsCrlf(Line(p, text)[..k], j)
    ensures IsCrlf(text, j - 1)
  {
    var b := Line(p, text)[..k];
    assert b[j] == Line(p, text)[j] && b[j + 1] == Line(p, text)[j + 1];
  }

  // No strict prefix of a reply parses as anything.
  lemma {:induction false} ReplyCut(r: Reply, k: nat)
    requires Clean(r) && k < |Encode(r)|
    ensures Parse(Encode(r)[..k]).Partial?
    decreases r, 0
  {
    match r
    case Nil => CountCut(DOLLAR, -1, k);
    case Simple(t) => LineCut(PLUS, t, k);
    case Error(t) => LineCut(MINUS, t, k);
    case Int(n) => CountCut(COLON, n, k);
    case Bulk(b) => BulkCut(b, k);
    case Array(es) => ArrayCut(es, k);
  }

  lemma {:induction false} ArrayCut(es: seq<Reply>, k: nat)
    requires AllClean(es) && k < |Encode(Array(es))|
    ensures Parse(Encode(Array(es))[..k]).Partial?
    decreases es, 1
  {
    var h := Line(STAR, FormatInt(|es|));
    Streams.CutConcat(h, EncodeAll(es), k);
    if k < |h| {
      CountCut(STAR, |es|, k);
    } else {
      ParseCount(STAR, |es|, EncodeAll(es)[..k - |h|]);
      ItemsCut(es, k - |h|);
    }
  }

  lemma CountCut(p: Byte, n: int, k: nat)
    requires k < |Line(p, FormatInt(n))|
    ensures Parse(Line(p, FormatInt(n))[..k]).Partial?
  {
    IntHasNoCrlf(n);
    LineCut(p, FormatInt(n), k);
  }

  lemma BulkCut(b: Bytes, k: nat)
    requires k < |Encode(Bulk(b))|
    ensures Parse(Encode(Bulk(b))[..k]).Partial?
  {
    var h := Line(DOLLAR, FormatInt(|b|));
    Streams.CutConcat(h, b + CRLF, k);
    if k < |h| {
      CountCut(DOLLAR, |b|, k);
    } else {
      ParseCount(DOLLAR, |b|, (b + CRLF)[..k - |h|]);
    }
  }

  lemma {:induction false} ItemsCut(rs: seq<Reply>, k: nat)
    requires AllClean(rs) && k < |EncodeAll(rs)|
    ensures ParseItems(EncodeAll(rs)[..k], |rs|).SomePartial?
    decreases rs, 0
  {
    var e, more := Encode(rs[0]), EncodeAll(rs[1..]);
    Streams.CutConcat(e, more, k);
    if k < |e| {
      ReplyCut(rs[0], k);
    } else {
      ParseEncode(rs[0], more[..k - |e|]);
      ItemsCut(rs[1..], k - |e|);
    }
  }

  // writeReply.
  class Writer {
    var out: Bytes

    method WriteReply(r: Reply)
      modifies this
      ensures out == old(out) + Encode(r)
      decreases r, 0
    {
      match r
      case Nil => out := out + Line(DOLLAR, FormatInt(-1));
      case Simple(t) => out := out + Line(PLUS, t);
      case Error(t) => out := out + Line(MINUS, t);
      case Int(n) => out := out + Line(COLON, FormatInt(n));
      case Bulk(b) => out := out + Line(DOLLAR, FormatInt(|b|)) + b + CRLF;
      case Array(es) =>
        out := out + Line(STAR, FormatInt(|es|));
        WriteAll(es);
    }

    method WriteAll(rs: seq<Reply>)
      modifies this
      ensures out == old(out) + EncodeAll(rs)
      decreases rs, 1
    {
      for i := 0 to |rs|
        invariant out == old(out) + EncodeAll(rs[..i])
      {
        ghost var before := out;
        EncodeOneMore(rs, i);
        WriteReply(rs[i]);
        Streams.Reassociate(old(out), EncodeAll(rs[..i]), Encode(rs[i]));
        assert out == before + Encode(rs[i]);
      }
      assert rs[..|rs|] == rs;
    }
  }

  lemma {:induction false} EncodeAllConcat(rs: seq<Reply>, ss: seq<Reply>)
    ensures EncodeAll(rs + ss) == EncodeAll(rs) + EncodeAll(ss)
    decreases |rs|
  {
    if rs == [] {
      assert rs + ss == ss;
    } else {
      assert (rs + ss)[0] == rs[0] && (rs + ss)[1..] == rs[1..] + ss;
      EncodeAllConcat(rs[1..], ss);
      Streams.Reassociate(Encode(rs[0]), EncodeAll(rs[1..]), EncodeAll(ss));
    }
  }

  lemma EncodeOneMore(rs: seq<Reply>, i: nat)
    requires i < |rs|
    ensures EncodeAll(rs[..i + 1]) == EncodeAll(rs[..i]) + Encode(rs[i])
  {
    assert rs[..i + 1] == rs[..i] + [rs[i]];
    EncodeAllConcat(rs[..i], [rs[i]]);
    assert EncodeAll([rs[i]]) == Encode(rs[i]) + EncodeAll([]);
  }
}
