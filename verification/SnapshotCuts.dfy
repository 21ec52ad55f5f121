// Damaged snapshots (internal/persistence/snapshot.go, codec.go): what ReadSnapshot makes of
// a file that was cut short, or in which a value carries an unknown tag.
module SnapshotCuts {
  import opened ByteStrings
  import opened Varints
  import opened Packs
  import opened Streams
  import opened Snapshots
  import AppendLog

  lemma ElementsPrefix(es: seq<Bytes>, k: nat)
    requires |es| < TWO63 && AllShort(es) && k < |Elements(es)|
    ensures ReadElements(Elements(es)[..k]) == UnexpectedEof
  {
    var h, p := Uvarint(|es|), PackOf(Blobs(es));
    CutConcat(h, p, k);
    if k < |h| {
      NumberPrefix(|es|, k);
    } else {
      NumberRoundTrip(|es|, p[..k - |h|]);
      AppendLog.ArgsPrefix(Blobs(es), k - |h|);
    }
  }

  lemma {:induction false} FieldsPrefix(ps: seq<(Bytes, Bytes)>, k: nat)
    requires ShortFields(ps) && k < |FieldBytes(ps)|
    ensures ReadFields(FieldBytes(ps)[..k], |ps|) == UnexpectedEof
    decreases |ps|
  {
    var f, v, more := Element(ps[0].0), Element(ps[0].1), FieldBytes(ps[1..]);
    CutConcat(f, v + more, k);
    if k < |f| {
      BytesPrefix(ps[0].0, k);
    } else {
      var j := k - |f|;
      BytesRoundTrip(ps[0].0, (v + more)[..j]);
      CutConcat(v, more, j);
      if j < |v| {
        BytesPrefix(ps[0].1, j);
      } else {
        BytesRoundTrip(ps[0].1, more[..j - |v|]);
        FieldsPrefix(ps[1..], j - |v|);
      }
    }
  }

  lemma WordPrefix(w: Word, k: nat)
    requires k < |Word64(w)|
    ensures ReadWord(Word64(w)[..k]) == UnexpectedEof
  {
  }

  lemma {:induction false} ScoredPrefix(ps: seq<(Bytes, Word)>, k: nat)
    requires ShortScored(ps) && k < |ScoredBytes(ps)|
    ensures ReadScored(ScoredBytes(ps)[..k], |ps|) == UnexpectedEof
    decreases |ps|
  {
    var m, s, more := Element(ps[0].0), Word64(ps[0].1), ScoredBytes(ps[1..]);
    CutConcat(m, s + more, k);
    if k < |m| {
      BytesPrefix(ps[0].0, k);
    } else {
      var j := k - |m|;
      BytesRoundTrip(ps[0].0, (s + more)[..j]);
      CutConcat(s, more, j);
      if j < |s| {
        WordPrefix(ps[0].1, j);
      } else {
        WordRoundTrip(ps[0].1, more[..j - |s|]);
        ScoredPrefix(ps[1..], j - |s|);
      }
    }
  }

  lemma AllFieldsPrefix(ps: seq<(Bytes, Bytes)>, k: nat)
    requires |ps| < TWO63 && ShortFields(ps) && k < |Uvarint(|ps|) + FieldBytes(ps)|
    ensures ReadAllFields((Uvarint(|ps|) + FieldBytes(ps))[..k]) == UnexpectedEof
  {
    var h, p := Uvarint(|ps|), FieldBytes(ps);
    CutConcat(h, p, k);
    if k < |h| {
      NumberPrefix(|ps|, k);
    } else {
      NumberRoundTrip(|ps|, p[..k - |h|]);
      FieldsPrefix(ps, k - |h|);
    }
  }

  lemma AllScoredPrefix(ps: seq<(Bytes, Word)>, k: nat)
    requires |ps| < TWO63 && ShortScored(ps) && k < |Uvarint(|ps|) + ScoredBytes(ps)|
    ensures ReadAllScored((Uvarint(|ps|) + ScoredBytes(ps))[..k]) == UnexpectedEof
  {
    var h, p := Uvarint(|ps|), ScoredBytes(ps);
    CutConcat(h, p, k);
    if k < |h| {
      NumberPrefix(|ps|, k);
    } else {
      NumberRoundTrip(|ps|, p[..k - |h|]);
      ScoredPrefix(ps, k - |h|);
    }
  }

  lemma PayloadPrefix(d: Dump, k: nat)
    requires d.Fits() && k < |Payload(d)|
    ensures ReadPayload(Tag(d), Payload(d)[..k]) == UnexpectedEof
  {
    match d
    case Text(t) => BytesPrefix(t, k);
    case Elems(es) => ElementsPrefix(es, k);
    case Fields(ps) => AllFieldsPrefix(ps, k);
    case Members(es) => ElementsPrefix(es, k);
    case Scored(ps) => AllScoredPrefix(ps, k);
  }

  lemma ValuePrefix(d: Dump, k: nat)
    requires d.Fits() && k < |EncodeValue(d)|
    ensures ReadValue(EncodeValue(d)[..k]) == UnexpectedEof
  {
    if k > 0 {
      CutConcat([Tag(d)], Payload(d), k);
      var b := [Tag(d)] + Payload(d)[..k - 1];
      assert b[0] == Tag(d) && b[1..] == Payload(d)[..k - 1];
      PayloadPrefix(d, k - 1);
    }
  }

  lemma TimedPrefix(r: Rec, k: nat)
    requires r.Fits() && k < |Word64(Unsigned(r.expireAt)) + EncodeValue(r.value)|
    ensures
      var ts := ReadWord((Word64(Unsigned(r.expireAt)) + EncodeValue(r.value))[..k]);
      ts == UnexpectedEof || (ts.Ok? && ReadValue(ts.rest) == UnexpectedEof)
  {
    var t, v := Word64(Unsigned(r.expireAt)), EncodeValue(r.value);
    CutConcat(t, v, k);
    if k < |t| {
      WordPrefix(Unsigned(r.expireAt), k);
    } else {
      WordRoundTrip(Unsigned(r.expireAt), v[..k - |t|]);
      ValuePrefix(r.value, k - |t|);
    }
  }

  lemma KeyedPrefix(r: Rec, k: nat)
    requires r.Fits() && k < |Element(r.key) + (Word64(Unsigned(r.expireAt)) + EncodeValue(r.value))|
    ensures
      var b := (Element(r.key) + (Word64(Unsigned(r.expireAt)) + EncodeValue(r.value)))[..k];
      var key := ReadBytes(b);
      || key.CutShort()
      || (key.Ok? && (ReadWord(key.rest) == UnexpectedEof
           || (ReadWord(key.rest).Ok? && ReadValue(ReadWord(key.rest).rest) == UnexpectedEof)))
  {
    var e, t := Element(r.key), Word64(Unsigned(r.expireAt)) + EncodeValue(r.value);
    CutConcat(e, t, k);
    if k < |e| {
      BytesPrefix(r.key, k);
    } else {
      BytesRoundTrip(r.key, t[..k - |e|]);
      TimedPrefix(r, k - |e|);
    }
  }

  // A record cut anywhere after its first byte is refused.
  lemma RecPrefix(r: Rec, k: nat)
    requires r.Fits() && 0 < k < |EncodeRec(r)|
    ensures ReadRec(EncodeRec(r)[..k]) == UnexpectedEof
  {
    var d, e := Uvarint(r.db), Element(r.key) + (Word64(Unsigned(r.expireAt)) + EncodeValue(r.value));
    CutConcat(d, e, k);
    if k < |d| {
      NumberPrefix(r.db, k);
    } else {
      NumberRoundTrip(r.db, e[..k - |d|]);
      KeyedPrefix(r, k - |d|);
    }
  }

  // How many records lie whole in the first k bytes of the body.
  function WholeRecs(rs: seq<Writable>, k: nat): (n: nat)
    ensures n <= |rs|
  {
    if rs == [] || k < |EncodeRec(rs[0])| then 0 else 1 + WholeRecs(rs[1..], k - |EncodeRec(rs[0])|)
  }

  // The body, then `part`.
  ghost function Followed(rs: seq<Writable>, part: Bytes): (b: Bytes) {
    if rs == [] then part else EncodeRec(rs[0]) + Followed(rs[1..], part)
  }

  lemma {:induction false} FollowedLength(rs: seq<Writable>, part: Bytes)
    ensures |Followed(rs, part)| == |Body(rs)| + |part|
    decreases |rs|
  {
    if rs != [] {
      FollowedLength(rs[1..], part);
    }
  }

  lemma {:induction false} ReadFollowed(rs: seq<Writable>, part: Bytes)
    requires ReadBody(part).0 == []
    ensures ReadBody(Followed(rs, part)) == (rs, ReadBody(part).1)
    decreases |rs|
  {
    if rs != [] {
      ReadFollowed(rs[1..], part);
      RecRoundTrip(rs[0], Followed(rs[1..], part));
      ReadOne(Followed(rs, part), rs[0], Followed(rs[1..], part));
      assert [rs[0]] + rs[1..] == rs;
    }
  }

  lemma ReadPart(r: Writable, b: Bytes)
    requires b < EncodeRec(r)
    ensures ReadBody(b) == ([], b == [])
  {
    assert b == EncodeRec(r)[..|b|];
    if b != [] {
      RecPrefix(r, |b|);
    }
  }

  lemma FollowedMore(rs: seq<Writable>, n: nat, part: Bytes)
    requires n < |rs|
    ensures Followed(rs[..n + 1], part) == EncodeRec(rs[0]) + Followed(rs[1..][..n], part)
  {
    assert rs[..n + 1][1..] == rs[1..][..n];
  }

  // A cut leaves the whole records and a part of the next one.
  lemma {:induction false} CutRecords(rs: seq<Writable>, k: nat) returns (part: Bytes)
    requires k <= |Body(rs)|
    ensures
      var n := WholeRecs(rs, k);
      Body(rs)[..k] == Followed(rs[..n], part) && if n == |rs| then part == [] else part < EncodeRec(rs[n])
    decreases |rs|
  {
    part := [];
    if rs != [] {
      var h, rest := EncodeRec(rs[0]), Body(rs[1..]);
      CutConcat(h, rest, k);
      if k < |h| {
        part := h[..k];
      } else {
        part := CutRecords(rs[1..], k - |h|);
        FollowedMore(rs, WholeRecs(rs[1..], k - |h|), part);
      }
    }
  }

  lemma BodyCut(rs: seq<Writable>, k: nat)
    requires k <= |Body(rs)|
    ensures
      var n := WholeRecs(rs, k);
      |Body(rs[..n])| <= k && ReadBody(Body(rs)[..k]) == (rs[..n], k == |Body(rs[..n])|)
  {
    var n := WholeRecs(rs, k);
    var part := CutRecords(rs, k);
    if n < |rs| {
      ReadPart(rs[n], part);
    }
    ReadFollowed(rs[..n], part);
    FollowedLength(rs[..n], part);
  }

  // Where the records begin.
  function Header(base: Word): (b: Bytes) {
    MAGIC + Uvarint(base)
  }

  // A snapshot file cut anywhere: cut to nothing it counts as no snapshot, cut in its header
  // it is refused, and otherwise exactly the whole records come out, without an error only
  // if the cut fell between two records.
  lemma SnapshotCut(base: Word, rs: seq<Writable>, k: nat)
    requires k <= |Encode(base, rs)|
    ensures
      var r, h := Read(Encode(base, rs)[..k]), |Header(base)|;
      if k == 0 then r == Loaded(0, [], true)
      else if k < h then r == Loaded(0, [], false)
      else
        var n := WholeRecs(rs, k - h);
        |Body(rs[..n])| <= k - h && r == Loaded(base, rs[..n], k - h == |Body(rs[..n])|)
  {
    var h := |Header(base)|;
    if k < |MAGIC| {
      CutConcat(MAGIC, Uvarint(base) + Body(rs), k);
      MagicCut(k);
    } else {
      var tail := (Uvarint(base) + Body(rs))[..k - |MAGIC|];
      CutConcat(MAGIC, Uvarint(base) + Body(rs), k);
      AfterMagic(tail);
      CutConcat(Uvarint(base), Body(rs), k - |MAGIC|);
      if k < h {
        NumberPrefix(base, k - |MAGIC|);
      } else {
        NumberRoundTrip(base, Body(rs)[..k - h]);
        BodyCut(rs, k - h);
      }
    }
  }

  lemma MagicCut(k: nat)
    requires k < |MAGIC|
    ensures Read(MAGIC[..k]) == Loaded(0, [], k == 0)
  {
  }

  // What follows the magic bytes.
  lemma AfterMagic(b: Bytes)
    ensures
      var n := ReadNumber(b);
      Read(MAGIC + b) ==
        if n.Ok? then Loaded(n.value, ReadBody(n.rest).0, ReadBody(n.rest).1) else Loaded(0, [], false)
  {
    assert (MAGIC + b)[..|MAGIC|] == MAGIC && (MAGIC + b)[|MAGIC|..] == b;
  }

  predicate KnownTag(t: Byte) {
    t == STRING_TAG || t == LIST_TAG || t == HASH_TAG || t == SET_TAG || t == ZSET_TAG
  }

  lemma BadTagRefused(r: Rec, t: Byte, junk: Bytes)
    requires r.Fits() && !KnownTag(t)
    ensures ReadRec(Uvarint(r.db) + (Element(r.key) + (Word64(Unsigned(r.expireAt)) + ([t] + junk)))) == Malformed
  {
    var k, w, v := Element(r.key), Word64(Unsigned(r.expireAt)), [t] + junk;
    NumberRoundTrip(r.db, k + (w + v));
    BytesRoundTrip(r.key, w + v);
    WordRoundTrip(Unsigned(r.expireAt), v);
    assert v[0] == t;
  }

  lemma Rejoined(rs: seq<Writable>, more: seq<Rec>)
    requires rs != []
    ensures [rs[0]] + (rs[1..] + more) == rs + more
  {
  }

  lemma {:induction false} BodyThen(rs: seq<Writable>, rest: Bytes)
    ensures ReadBody(Body(rs) + rest) == (rs + ReadBody(rest).0, ReadBody(rest).1)
    decreases |rs|
  {
    if rs == [] {
      assert Body(rs) + rest == rest && [] + ReadBody(rest).0 == ReadBody(rest).0;
    } else {
      Reassociate(EncodeRec(rs[0]), Body(rs[1..]), rest);
      RecRoundTrip(rs[0], Body(rs[1..]) + rest);
      ReadOne(Body(rs) + rest, rs[0], Body(rs[1..]) + rest);
      BodyThen(rs[1..], rest);
      Rejoined(rs, ReadBody(rest).0);
    }
  }

  // A value with an unknown tag ends the load with an error, after the records before it.
  lemma MistaggedRefused(base: Word, rs: seq<Writable>, r: Rec, t: Byte, junk: Bytes)
    requires r.Fits() && !KnownTag(t)
    ensures
      var bad := Uvarint(r.db) + (Element(r.key) + (Word64(Unsigned(r.expireAt)) + ([t] + junk)));
      Read(MAGIC + (Uvarint(base) + (Body(rs) + bad))) == Loaded(base, rs, false)
  {
    var bad := Uvarint(r.db) + (Element(r.key) + (Word64(Unsigned(r.expireAt)) + ([t] + junk)));
    AfterMagic(Uvarint(base) + (Body(rs) + bad));
    NumberRoundTrip(base, Body(rs) + bad);
    BadTagRefused(r, t, junk);
    BodyThen(rs, bad);
    assert rs + [] == rs;
  }
}
