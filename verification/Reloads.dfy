// Collections through the snapshot: written out of one collection, in whatever form it is
// in, and read into another with other thresholds, each keeps its abstract value
// (internal/persistence/codec.go).
module Reloads {
  import opened ByteStrings
  import opened Varints
  import opened Limits
  import opened Scores
  import opened Rankings
  import S = Snapshots
  import C = Captures
  import Lists
  import Hashes
  import Sets
  import ZSets

  // Encode a value and decode it again, as a snapshot does.
  method Through(d: S.Dump) returns (r: S.Dump)
    requires d.Fits()
    ensures r == d
  {
    var b := S.EncodeValue(d);
    S.ValueRoundTrip(d, []);
    assert b + [] == b;
    r := S.ReadValue(b).value;
  }

  lemma SelectsAll<T>(s: seq<T>)
    ensures Selected(s, 0, -1) == s
  {
  }

  method LoadList(es: seq<Bytes>, max: Thresholds) returns (l: Lists.List)
    requires S.AllShort(es)
    ensures l.Valid() && fresh(l.Repr()) && l.max == max && l.Elements() == es
  {
    l := new Lists.List(max);
    for i := 0 to |es|
      invariant l.Valid() && fresh(l.Repr()) && l.max == max && l.Elements() == es[..i]
    {
      assert es[..i + 1] == es[..i] + [es[i]];
      l.PushBack(es[i]);
    }
    assert es[..|es|] == es;
  }

  method ReloadList(l: Lists.List, max: Thresholds) returns (r: Lists.List)
    requires l.Valid() && |l.Elements()| < TWO63
    ensures r.Valid() && fresh(r.Repr()) && r.max == max && r.Elements() == old(l.Elements())
  {
    var es := AllOf(l);
    var d := Through(S.Elems(es));
    r := LoadList(d.elems, max);
  }

  method AllOf(l: Lists.List) returns (es: seq<Blob>)
    requires l.Valid()
    ensures es == l.Elements()
  {
    es := l.Range(0, -1);
    SelectsAll(l.Elements());
  }

  method LoadSet(es: seq<Bytes>, max: Thresholds) returns (s: Sets.Set)
    requires S.AllShort(es)
    ensures s.Valid() && fresh(s) && s.max == max && s.contents == set x | x in es
  {
    s := new Sets.Set(max);
    for i := 0 to |es|
      invariant s.Valid() && fresh(s) && s.max == max && s.contents == set x | x in es[..i]
    {
      var _ := s.Add(es[i]);
      assert es[..i + 1] == es[..i] + [es[i]];
    }
    assert es[..|es|] == es;
  }

  method ReloadSet(s: Sets.Set, max: Thresholds) returns (r: Sets.Set)
    requires s.Valid() && |s.contents| < TWO63
    ensures r.Valid() && fresh(r) && r.max == max && r.contents == old(s.contents)
  {
    var es := s.Members();
    Sets.EnumerationSize(es, s.contents);
    var d := Through(S.Members(es));
    r := LoadSet(d.members, max);
  }

  function RawFields(es: seq<Hashes.Entry>): (r: seq<(Bytes, Bytes)>)
    ensures |r| == |es| && S.ShortFields(r)
    ensures forall i :: 0 <= i < |es| ==> r[i] == (es[i].field, es[i].value)
  {
    seq(|es|, i requires 0 <= i < |es| => (es[i].field, es[i].value))
  }

  lemma RawFieldsEnumerate(es: seq<Hashes.Entry>, m: map<Blob, Blob>)
    requires Hashes.Enumerates(es, m)
    ensures C.Enumerates<Bytes, Bytes>(RawFields(es), m)
  {
    var ps := RawFields(es);
    forall i | 0 <= i < |ps| ensures C.Binds<Bytes, Bytes>(m, ps[i]) {
      assert es[i] in es;
    }
    forall k | k in m ensures (k, m[k]) in ps {
      var e := Hashes.Entry(k, m[k]);
      assert Hashes.Holds(m, e);
      var i :| 0 <= i < |es| && es[i] == e;
      assert ps[i] == (k, m[k]);
    }
  }

  method LoadHash(ps: seq<(Bytes, Bytes)>, max: Thresholds) returns (h: Hashes.Hash)
    requires S.ShortFields(ps)
    ensures h.Valid() && fresh(h) && h.max == max && h.contents == C.Collected(ps)
  {
    h := new Hashes.Hash(max);
    for i := 0 to |ps|
      invariant h.Valid() && fresh(h) && h.max == max && h.contents == C.Collected(ps[..i])
    {
      var _ := h.Set(ps[i].0, ps[i].1);
      assert ps[..i + 1][..i] == ps[..i];
    }
    assert ps[..|ps|] == ps;
  }

  method ReloadHash(h: Hashes.Hash, max: Thresholds) returns (r: Hashes.Hash)
    requires h.Valid() && |h.contents| < TWO63
    ensures r.Valid() && fresh(r) && r.max == max && r.contents == old(h.contents)
  {
    var es := h.Pairs();
    Hashes.EnumerationSize(es, h.contents);
    RawFieldsEnumerate(es, h.contents);
    C.CollectedIs<Bytes, Bytes>(RawFields(es), h.contents);
    var d := Through(S.Fields(RawFields(es)));
    r := LoadHash(d.fields, max);
  }

  function RawScores(ps: seq<Pair>): (r: seq<(Bytes, Word)>)
    ensures |r| == |ps| && S.ShortScored(r)
    ensures forall i :: 0 <= i < |ps| ==> r[i] == (ps[i].member, ps[i].score)
  {
    seq(|ps|, i requires 0 <= i < |ps| => (ps[i].member, ps[i].score))
  }

  lemma RawScoresEnumerate(ps: seq<Pair>, m: ScoreMap)
    requires IsRanking(m, ps)
    ensures C.Enumerates<Bytes, Word>(RawScores(ps), m)
  {
    var rs := RawScores(ps);
    ZSets.RankingDistinct(m, ps);
    forall i | 0 <= i < |rs| ensures C.Binds<Bytes, Word>(m, rs[i]) {
      assert ps[i] in ps;
    }
    forall k | k in m ensures (k, m[k]) in rs {
      var p := Pair(k, m[k]);
      assert Rankings.Holds(m, p);
      var i :| 0 <= i < |ps| && ps[i] == p;
      assert rs[i] == (k, m[k]);
    }
  }

  // What writeScore wrote: never the bits of a NaN.
  predicate AllScores(ps: seq<(Bytes, Word)>) {
    forall i :: 0 <= i < |ps| ==> IsScore(ps[i].1)
  }

  ghost predicate DistinctMembers(ps: seq<(Bytes, Word)>) {
    forall i, j :: 0 <= i < j < |ps| ==> ps[i].0 != ps[j].0
  }

  lemma {:induction false} NotCollected(ps: seq<(Bytes, Word)>, k: Bytes)
    requires forall i :: 0 <= i < |ps| ==> ps[i].0 != k
    ensures k !in C.Collected(ps)
    decreases |ps|
  {
    if ps != [] {
      NotCollected(ps[..|ps| - 1], k);
    }
  }

  lemma CollectOneMore(ps: seq<(Bytes, Word)>, i: nat)
    requires i < |ps| && AllScores(ps) && DistinctMembers(ps)
    ensures IsScore(ps[i].1) && ps[i].0 !in C.Collected(ps[..i])
    ensures C.Collected(ps[..i + 1]) == C.Collected(ps[..i])[ps[i].0 := ps[i].1]
  {
    NotCollected(ps[..i], ps[i].0);
    assert ps[..i + 1][..i] == ps[..i];
  }

  // One turn of readZSet's loop: a member that is not there yet keeps its score's bits. The
  // set's objects all lie in `owned`, which grows only by new objects.
  method LoadNext(z: ZSets.ZSet, ps: seq<(Bytes, Word)>, i: nat, ghost owned: set<object>)
    returns (ghost grown: set<object>)
    requires S.ShortScored(ps) && AllScores(ps) && DistinctMembers(ps) && i < |ps|
    requires z.Valid() && z.Repr() <= owned && z.Contents() == C.Collected(ps[..i])
    modifies owned
    ensures z.Valid() && z.Repr() <= grown && owned <= grown && fresh(grown - owned)
    ensures z.Contents() == C.Collected(ps[..i + 1])
  {
    CollectOneMore(ps, i);
    var _ := z.Add(Pair(ps[i].0, ps[i].1));
    grown := owned + z.Repr();
  }

  method LoadZSet(ps: seq<(Bytes, Word)>, max: Thresholds) returns (z: ZSets.ZSet)
    requires S.ShortScored(ps) && AllScores(ps) && DistinctMembers(ps)
    ensures z.Valid() && fresh(z.Repr()) && z.max == max && z.Contents() == C.Collected(ps)
  {
    z := new ZSets.ZSet(max);
    ghost var owned := z.Repr();
    for i := 0 to |ps|
      invariant z.Valid() && z.max == max && z.Contents() == C.Collected(ps[..i])
      invariant z.Repr() <= owned && fresh(owned)
    {
      owned := LoadNext(z, ps, i, owned);
    }
    assert ps[..|ps|] == ps;
  }

  // Scores come back bit for bit, signed zeros included.
  method ReloadZSet(z: ZSets.ZSet, max: Thresholds) returns (r: ZSets.ZSet)
    requires z.Valid() && |z.Contents()| < TWO63
    ensures r.Valid() && fresh(r.Repr()) && r.max == max && r.Contents() == old(z.Contents())
  {
    ghost var m := z.Contents();
    var ps := z.Range(0, -1);
    SelectsAll(z.Ranking());
    assert IsRanking(m, ps);
    r := LoadRanking(ps, m, max);
  }

  lemma RankingListing(ps: seq<Pair>, m: ScoreMap)
    requires IsRanking(m, ps) && |m| < TWO63
    ensures
      var raw := RawScores(ps);
      S.Scored(raw).Fits() && AllScores(raw) && DistinctMembers(raw) && C.Collected(raw) == m
  {
    RankingSize(m, ps);
    RawScoresEnumerate(ps, m);
    C.CollectedIs<Bytes, Word>(RawScores(ps), m);
  }

  method LoadRanking(ps: seq<Pair>, ghost m: ScoreMap, max: Thresholds) returns (r: ZSets.ZSet)
    requires IsRanking(m, ps) && |m| < TWO63
    ensures r.Valid() && fresh(r.Repr()) && r.max == max && r.Contents() == m
  {
    RankingListing(ps, m);
    var d := Through(S.Scored(RawScores(ps)));
    r := LoadZSet(d.scored, max);
  }
}
