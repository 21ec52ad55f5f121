// The snapshot format (internal/persistence/snapshot.go, codec.go) and what a server
// captured in it gets back.
module Snapshots {
  import opened ByteStrings
  import opened Varints
  import opened Packs
  import opened Streams
  import opened Decimals
  import AppendLog

  const MAGIC: Bytes := [77, 69, 77, 67, 79, 82, 69, 45, 83, 78, 65, 80, 49, 10]   // MEMCORE-SNAP1\n
  const STRING_TAG: Byte := 115
  const LIST_TAG: Byte := 108
  const HASH_TAG: Byte := 104
  const SET_TAG: Byte := 112
  const ZSET_TAG: Byte := 122

  // A value as the writer lists it, in whatever order its collection enumerates. Scores are
  // bit patterns.
  datatype Dump =
    | Text(bytes: Bytes)
    | Elems(elems: seq<Bytes>)
    | Fields(fields: seq<(Bytes, Bytes)>)
    | Members(members: seq<Bytes>)
    | Scored(scored: seq<(Bytes, Word)>)
  {
    // Lengths and counts are Go ints.
    predicate Fits() {
      match this
      case Text(b) => |b| < TWO63
      case Elems(es) => |es| < TWO63 && AllShort(es)
      case Fields(ps) => |ps| < TWO63 && ShortFields(ps)
      case Members(es) => |es| < TWO63 && AllShort(es)
      case Scored(ps) => |ps| < TWO63 && ShortScored(ps)
    }
  }

  predicate AllShort(es: seq<Bytes>) {
    forall i :: 0 <= i < |es| ==> |es[i]| < TWO63
  }

  predicate ShortFields(ps: seq<(Bytes, Bytes)>) {
    forall i :: 0 <= i < |ps| ==> |ps[i].0| < TWO63 && |ps[i].1| < TWO63
  }

  predicate ShortScored(ps: seq<(Bytes, Word)>) {
    forall i :: 0 <= i < |ps| ==> |ps[i].0| < TWO63
  }

  function Blobs(es: seq<Bytes>): (r: seq<Blob>)
    requires AllShort(es)
    ensures r == es
  {
    es
  }

  // writeElements, after its tag.
  function Elements(es: seq<Bytes>): (r: Bytes)
    requires |es| < TWO63 && AllShort(es)
  {
    Uvarint(|es|) + PackOf(Blobs(es))
  }

  function FieldBytes(ps: seq<(Bytes, Bytes)>): (r: Bytes)
    requires ShortFields(ps)
  {
    if ps == [] then [] else Element(ps[0].0) + (Element(ps[0].1) + FieldBytes(ps[1..]))
  }

  function ScoredBytes(ps: seq<(Bytes, Word)>): (r: Bytes)
    requires ShortScored(ps)
  {
    if ps == [] then [] else Element(ps[0].0) + (Word64(ps[0].1) + ScoredBytes(ps[1..]))
  }

  function Tag(d: Dump): (t: Byte) {
    match d
    case Text(_) => STRING_TAG
    case Elems(_) => LIST_TAG
    case Fields(_) => HASH_TAG
    case Members(_) => SET_TAG
    case Scored(_) => ZSET_TAG
  }

  function Payload(d: Dump): (r: Bytes)
    requires d.Fits()
  {
    match d
    case Text(b) => Element(b)
    case Elems(es) => Elements(es)
    case Fields(ps) => Uvarint(|ps|) + FieldBytes(ps)
    case Members(es) => Elements(es)
    case Scored(ps) => Uvarint(|ps|) + ScoredBytes(ps)
  }

  // writeValue.
  function EncodeValue(d: Dump): (r: Bytes)
    requires d.Fits()
  {
    [Tag(d)] + Payload(d)
  }

  function ReadElements(b: Bytes): (r: Result<seq<Bytes>>)
    ensures r.Ok? ==> |r.rest| <= |b|
  {
    var n := ReadNumber(b);
    if n.Ok? then AppendLog.ReadArgs(n.rest, n.value) else n.AsError()
  }

  function ReadFields(b: Bytes, n: nat): (r: Result<seq<(Bytes, Bytes)>>)
    ensures r.Ok? ==> |r.rest| <= |b|
    decreases n
  {
    if n == 0 then Ok([], b)
    else
      var f := ReadBytes(b);
      if !f.Ok? then f.AsError()
      else
        var v := ReadBytes(f.rest);
        if !v.Ok? then v.AsError()
        else
          var more := ReadFields(v.rest, n - 1);
          if more.Ok? then Ok([(f.value, v.value)] + more.value, more.rest) else more
  }

  // readScore, after any bytes.
  function ReadWord(b: Bytes): (r: Result<Word>)
    ensures r.Ok? ==> |r.rest| <= |b|
  {
    var w := ReadFull(b, 8);
    if !w.Ok? then w.AsError()
    else
      FitsAWord(w.value);
      Ok(FromLittleEndian(w.value), w.rest)
  }

  lemma FitsAWord(b: Bytes)
    requires |b| == 8
    ensures FromLittleEndian(b) < TWO64
  {
    EightBytesHoldAWord();
    BelowPower(b);
  }

  lemma {:induction false} BelowPower(b: Bytes)
    ensures FromLittleEndian(b) < Power256(|b|)
    decreases |b|
  {
    if b != [] {
      BelowPower(b[1..]);
    }
  }

  function ReadScored(b: Bytes, n: nat): (r: Result<seq<(Bytes, Word)>>)
    ensures r.Ok? ==> |r.rest| <= |b|
    decreases n
  {
    if n == 0 then Ok([], b)
    else
      var m := ReadBytes(b);
      if !m.Ok? then m.AsError()
      else
        var s := ReadWord(m.rest);
        if !s.Ok? then s.AsError()
        else
          var more := ReadScored(s.rest, n - 1);
          if more.Ok? then Ok([(m.value, s.value)] + more.value, more.rest) else more
  }

  function ReadAllFields(b: Bytes): (r: Result<seq<(Bytes, Bytes)>>)
    ensures r.Ok? ==> |r.rest| <= |b|
  {
    var n := ReadNumber(b);
    if n.Ok? then ReadFields(n.rest, n.value) else n.AsError()
  }

  function ReadAllScored(b: Bytes): (r: Result<seq<(Bytes, Word)>>)
    ensures r.Ok? ==> |r.rest| <= |b|
  {
    var n := ReadNumber(b);
    if n.Ok? then ReadScored(n.rest, n.value) else n.AsError()
  }

  function ReadPayload(tag: Byte, b: Bytes): (r: Result<Dump>)
    ensures r.Ok? ==> |r.rest| <= |b|
  {
    if tag == STRING_TAG then
      var v := ReadBytes(b);
      if v.Ok? then Ok(Text(v.value), v.rest) else v.AsError()
    else if tag == LIST_TAG then
      var v := ReadElements(b);
      if v.Ok? then Ok(Elems(v.value), v.rest) else v.AsError()
    else if tag == HASH_TAG then
      var v := ReadAllFields(b);
      if v.Ok? then Ok(Fields(v.value), v.rest) else v.AsError()
    else if tag == SET_TAG then
      var v := ReadElements(b);
      if v.Ok? then Ok(Members(v.value), v.rest) else v.AsError()
    else if tag == ZSET_TAG then
      var v := ReadAllScored(b);
      if v.Ok? then Ok(Scored(v.value), v.rest) else v.AsError()
    else Malformed
  }

  // readValue; a stream that ends inside a value is an unexpected end of the record.
  function ReadValue(b: Bytes): (r: Result<Dump>)
    ensures r.Ok? ==> |r.rest| <= |b|
  {
    if b == [] then UnexpectedEof else ReadPayload(b[0], b[1..])
  }

  lemma ElementsRoundTrip(es: seq<Bytes>, rest: Bytes)
    requires |es| < TWO63 && AllShort(es)
    ensures ReadElements(Elements(es) + rest) == Ok(es, rest)
  {
    Reassociate(Uvarint(|es|), PackOf(Blobs(es)), rest);
    NumberRoundTrip(|es|, PackOf(Blobs(es)) + rest);
    AppendLog.ArgsRoundTrip(Blobs(es), rest);
  }

  lemma {:induction false} FieldsRoundTrip(ps: seq<(Bytes, Bytes)>, rest: Bytes)
    requires ShortFields(ps)
    ensures ReadFields(FieldBytes(ps) + rest, |ps|) == Ok(ps, rest)
    decreases |ps|
  {
    if ps == [] {
      assert FieldBytes(ps) + rest == rest;
    } else {
      var f, v, more := Element(ps[0].0), Element(ps[0].1), FieldBytes(ps[1..]);
      assert FieldBytes(ps) + rest == f + (v + (more + rest));
      BytesRoundTrip(ps[0].0, v + (more + rest));
      BytesRoundTrip(ps[0].1, more + rest);
      FieldsRoundTrip(ps[1..], rest);
      assert [(ps[0].0, ps[0].1)] + ps[1..] == ps;
    }
  }

  lemma WordRoundTrip(w: Word, rest: Bytes)
    ensures ReadWord(Word64(w) + rest) == Ok(w, rest)
  {
    var b := Word64(w) + rest;
    assert b[..8] == Word64(w) && b[8..] == rest;
  }

  lemma {:induction false} ScoredRoundTrip(ps: seq<(Bytes, Word)>, rest: Bytes)
    requires ShortScored(ps)
    ensures ReadScored(ScoredBytes(ps) + rest, |ps|) == Ok(ps, rest)
    decreases |ps|
  {
    if ps == [] {
      assert ScoredBytes(ps) + rest == rest;
    } else {
      var m, s, more := Element(ps[0].0), Word64(ps[0].1), ScoredBytes(ps[1..]);
      assert ScoredBytes(ps) + rest == m + (s + (more + rest));
      BytesRoundTrip(ps[0].0, s + (more + rest));
      WordRoundTrip(ps[0].1, more + rest);
      ScoredRoundTrip(ps[1..], rest);
      assert [(ps[0].0, ps[0].1)] + ps[1..] == ps;
    }
  }

  lemma AllFieldsRoundTrip(ps: seq<(Bytes, Bytes)>, rest: Bytes)
    requires |ps| < TWO63 && ShortFields(ps)
    ensures ReadAllFields(Uvarint(|ps|) + FieldBytes(ps) + rest) == Ok(ps, rest)
  {
    Reassociate(Uvarint(|ps|), FieldBytes(ps), rest);
    NumberRoundTrip(|ps|, FieldBytes(ps) + rest);
    FieldsRoundTrip(ps, rest);
  }

  lemma AllScoredRoundTrip(ps: seq<(Bytes, Word)>, rest: Bytes)
    requires |ps| < TWO63 && ShortScored(ps)
    ensures ReadAllScored(Uvarint(|ps|) + ScoredBytes(ps) + rest) == Ok(ps, rest)
  {
    Reassociate(Uvarint(|ps|), ScoredBytes(ps), rest);
    NumberRoundTrip(|ps|, ScoredBytes(ps) + rest);
    ScoredRoundTrip(ps, rest);
  }

  lemma PayloadRoundTrip(d: Dump, rest: Bytes)
    requires d.Fits()
    ensures ReadPayload(Tag(d), Payload(d) + rest) == Ok(d, rest)
  {
    match d
    case Text(t) => BytesRoundTrip(t, rest);
    case Elems(es) => ElementsRoundTrip(es, rest);
    case Fields(ps) => AllFieldsRoundTrip(ps, rest);
    case Members(es) => ElementsRoundTrip(es, rest);
    case Scored(ps) => AllScoredRoundTrip(ps, rest);
  }

  lemma Headed(t: Byte, p: Bytes, rest: Bytes)
    ensures ([t] + p + rest)[0] == t && ([t] + p + rest)[1..] == p + rest
  {
  }

  // Every value reads back exactly as it was listed.
  lemma ValueRoundTrip(d: Dump, rest: Bytes)
    requires d.Fits()
    ensures ReadValue(EncodeValue(d) + rest) == Ok(d, rest)
  {
    Headed(Tag(d), Payload(d), rest);
    PayloadRoundTrip(d, rest);
  }

  // One key: its database, its deadline in Unix nanoseconds (0 for none), its value.
  datatype Rec = Rec(db: nat, key: Bytes, expireAt: int, value: Dump) {
    predicate Fits() {
      db < TWO63 && |key| < TWO63 && MIN_INT64 <= expireAt <= MAX_INT64 && value.Fits()
    }
  }

  type Writable = r: Rec | r.Fits() witness Rec(0, [], 0, Text([]))

  // uint64(expireAt) and back.
  function Unsigned(n: int): (w: Word)
    requires MIN_INT64 <= n <= MAX_INT64
    ensures Signed(w) == n
  {
    if n < 0 then n + TWO64 else n
  }

  function Signed(w: Word): (n: int)
    ensures MIN_INT64 <= n <= MAX_INT64
  {
    if w >= TWO63 then w - TWO64 else w
  }

  // writeRecord.
  function EncodeRec(r: Rec): (b: Bytes)
    requires r.Fits()
    ensures |b| >= 1
  {
    Uvarint(r.db) + (Element(r.key) + (Word64(Unsigned(r.expireAt)) + EncodeValue(r.value)))
  }

  // readRecord.
  function ReadRec(b: Bytes): (r: Result<Rec>)
    ensures r.Ok? ==> |r.rest| < |b|
    ensures r.Eof? <==> b == []
  {
    var db := ReadNumber(b);
    if db.Eof? then Eof
    else if !db.Ok? then db.AsError()
    else
      var key := ReadBytes(db.rest);
      if !key.Ok? then key.AsError()
      else
        var ts := ReadWord(key.rest);
        if !ts.Ok? then ts.AsError()
        else
          var v := ReadValue(ts.rest);
          if v.Ok? then Ok(Rec(db.value, key.value, Signed(ts.value), v.value), v.rest) else v.AsError()
  }

  lemma RecRoundTrip(r: Rec, rest: Bytes)
    requires r.Fits()
    ensures ReadRec(EncodeRec(r) + rest) == Ok(r, rest)
  {
    var k, t, v := Element(r.key), Word64(Unsigned(r.expireAt)), EncodeValue(r.value);
    assert EncodeRec(r) + rest == Uvarint(r.db) + (k + (t + (v + rest)));
    NumberRoundTrip(r.db, k + (t + (v + rest)));
    BytesRoundTrip(r.key, t + (v + rest));
    WordRoundTrip(Unsigned(r.expireAt), v + rest);
    ValueRoundTrip(r.value, rest);
  }

  function Body(rs: seq<Writable>): (b: Bytes) {
    if rs == [] then [] else EncodeRec(rs[0]) + Body(rs[1..])
  }

  // WriteSnapshot's output.
  function Encode(base: Word, rs: seq<Writable>): (b: Bytes) {
    MAGIC + (Uvarint(base) + Body(rs))
  }

  lemma {:induction false} BodyAppend(rs: seq<Writable>, r: Writable)
    ensures Body(rs + [r]) == Body(rs) + EncodeRec(r)
    decreases |rs|
  {
    if rs == [] {
      assert rs + [r] == [r] && Body([r][1..]) == [];
    } else {
      assert (rs + [r])[0] == rs[0] && (rs + [r])[1..] == rs[1..] + [r];
      BodyAppend(rs[1..], r);
      Reassociate(EncodeRec(rs[0]), Body(rs[1..]), EncodeRec(r));
    }
  }

  lemma BodyOneMore(rs: seq<Writable>, i: nat)
    requires i < |rs|
    ensures Body(rs[..i + 1]) == Body(rs[..i]) + EncodeRec(rs[i])
  {
    assert rs[..i + 1] == rs[..i] + [rs[i]];
    BodyAppend(rs[..i], rs[i]);
  }

  method WriteRecords(rs: seq<Writable>) returns (out: Bytes)
    ensures out == Body(rs)
  {
    out := [];
    for i := 0 to |rs|
      invariant out == Body(rs[..i])
    {
      BodyOneMore(rs, i);
      out := out + EncodeRec(rs[i]);
    }
    assert rs[..|rs|] == rs;
  }

  method WriteSnapshot(base: Word, rs: seq<Writable>) returns (out: Bytes)
    ensures out == Encode(base, rs)
  {
    var body := WriteRecords(rs);
    out := MAGIC + (Uvarint(base) + body);
  }

  // What ReadSnapshot hands to its callback, and whether it ends without an error.
  datatype Loaded = Loaded(base: nat, records: seq<Rec>, ok: bool)

  function ReadBody(b: Bytes): (r: (seq<Rec>, bool))
    decreases |b|
  {
    var rec := ReadRec(b);
    if rec.Ok? then
      var (more, ok) := ReadBody(rec.rest);
      ([rec.value] + more, ok)
    else ([], rec.Eof?)
  }

  function Read(b: Bytes): (r: Loaded) {
    var magic := ReadFull(b, |MAGIC|);
    if magic.Eof? then Loaded(0, [], true)
    else if !magic.Ok? || magic.value != MAGIC then Loaded(0, [], false)
    else
      var base := ReadNumber(magic.rest);
      if !base.Ok? then Loaded(0, [], false)
      else
        var (rs, ok) := ReadBody(base.rest);
        Loaded(base.value, rs, ok)
  }

  // ReadSnapshot's loop over the records.
  method ReadRecords(file: Bytes) returns (records: seq<Rec>, ok: bool)
    ensures (records, ok) == ReadBody(file)
  {
    records, ok := [], true;
    var br := file;
    assert [] + ReadBody(file).0 == ReadBody(file).0;
    while true
      invariant ok && ReadBody(file) == (records + ReadBody(br).0, ReadBody(br).1)
      decreases |br|
    {
      var rec := ReadRec(br);
      if !rec.Ok? {
        assert records + [] == records;
        return records, rec.Eof?;
      }
      ReadOne(br, rec.value, rec.rest);
      assert records + ([rec.value] + ReadBody(rec.rest).0) == records + [rec.value] + ReadBody(rec.rest).0;
      records, br := records + [rec.value], rec.rest;
    }
  }

  method ReadSnapshot(file: Bytes) returns (r: Loaded)
    ensures r == Read(file)
  {
    var magic := ReadFull(file, |MAGIC|);
    if magic.Eof? {
      return Loaded(0, [], true);
    }
    if !magic.Ok? || magic.value != MAGIC {
      return Loaded(0, [], false);
    }
    var base := ReadNumber(magic.rest);
    if !base.Ok? {
      return Loaded(0, [], false);
    }
    var records, ok := ReadRecords(base.rest);
    r := Loaded(base.value, records, ok);
  }

  lemma ReadOne(b: Bytes, r: Rec, rest: Bytes)
    requires ReadRec(b) == Ok(r, rest)
    ensures ReadBody(b) == ([r] + ReadBody(rest).0, ReadBody(rest).1)
  {
  }

  lemma {:induction false} BodyRoundTrip(rs: seq<Writable>)
    ensures ReadBody(Body(rs)) == (rs, true)
    decreases |rs|
  {
    if rs != [] {
      RecRoundTrip(rs[0], Body(rs[1..]));
      ReadOne(Body(rs), rs[0], Body(rs[1..]));
      BodyRoundTrip(rs[1..]);
      assert [rs[0]] + rs[1..] == rs;
    }
  }

  // A snapshot reads back with the same generation and the same records in order.
  lemma SnapshotRoundTrip(base: Word, rs: seq<Writable>)
    ensures Read(Encode(base, rs)) == Loaded(base, rs, true)
  {
    var b := Encode(base, rs);
    assert b[..|MAGIC|] == MAGIC && b[|MAGIC|..] == Uvarint(base) + Body(rs);
    NumberRoundTrip(base, Body(rs));
    BodyRoundTrip(rs);
  }
}
