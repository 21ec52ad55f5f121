// The sorted set (internal/value/zset.go): a pack kept in score order that promotes
// to a score map beside a skip list.
module ZSets {
  import opened ByteStrings
  import opened Varints
  import opened Packs
  import opened Scores
  import opened Rankings
  import opened SkipLists
  import opened Limits

  // packAppendZ's contribution: the member and eight raw bytes of score.
  function PackedPair(p: Pair): (r: Bytes)
    ensures |r| > 0
  {
    Element(p.member) + Word64(p.score)
  }

  function PackZ(ps: seq<Pair>): (r: Bytes)
    ensures r == [] <==> ps == []
  {
    if ps == [] then [] else PackedPair(ps[0]) + PackZ(ps[1..])
  }

  lemma {:induction false} PackZAppend(ps: seq<Pair>, p: Pair)
    ensures PackZ(ps + [p]) == PackZ(ps) + PackedPair(p)
  {
    if ps == [] {
      assert ps + [p] == [p];
    } else {
      assert (ps + [p])[0] == ps[0] && (ps + [p])[1..] == ps[1..] + [p];
      PackZAppend(ps[1..], p);
      Associative(PackedPair(ps[0]), PackZ(ps[1..]), PackedPair(p));
    }
  }

  lemma PackZHead(ps: seq<Pair>)
    requires ps != []
    ensures ReadUvarint(PackZ(ps)) ==
      Value(|ps[0].member|, ps[0].member + Word64(ps[0].score) + PackZ(ps[1..]))
  {
    var p := ps[0];
    assert PackZ(ps) == Uvarint(|p.member|) + (p.member + Word64(p.score) + PackZ(ps[1..]));
    UvarintRoundTrip(|p.member|, p.member + Word64(p.score) + PackZ(ps[1..]));
  }

  lemma SplitThree(a: Bytes, b: Bytes, c: Bytes)
    ensures var s := a + b + c;
      s[..|a|] == a && s[|a|..|a| + |b|] == b && s[|a| + |b|..] == c
  {}

  // One turn of scanZPairs's loop, standing before the k-th pair.
  method ReadPair(buf: Bytes, ghost ps: seq<Pair>, ghost k: nat) returns (p: Pair, rest: Bytes)
    requires k <= |ps| && buf == PackZ(ps[k..]) && buf != []
    ensures k < |ps| && p == ps[k] && rest == PackZ(ps[k + 1..]) && |rest| < |buf|
  {
    PackZHead(ps[k..]);
    assert ps[k..][1..] == ps[k + 1..];
    SplitThree(ps[k].member, Word64(ps[k].score), PackZ(ps[k + 1..]));
    var head := ReadUvarint(buf);
    p := Pair(head.rest[..head.value], FromLittleEndian(head.rest[head.value..head.value + 8]));
    rest := head.rest[head.value + 8..];
  }

  ghost predicate DistinctMembers(ps: seq<Pair>) {
    forall i, j :: 0 <= i < j < |ps| ==> ps[i].member != ps[j].member
  }

  lemma InsertedMultiset(s: seq<Pair>, p: Pair)
    ensures multiset(Inserted(s, p)) == multiset(s) + multiset{p}
  {
    var r := Rank(s, p);
    assert s == s[..r] + s[r..];
  }

  lemma Unseen(ps: seq<Pair>, i: nat, s: seq<Pair>)
    requires DistinctMembers(ps) && i < |ps| && multiset(s) == multiset(ps[..i])
    ensures forall e :: e in s ==> !SameKey(e, ps[i])
  {
    forall e | e in s ensures !SameKey(e, ps[i]) {
      assert e in multiset(s);
      assert e in ps[..i];
    }
  }

  lemma SameElements(s: seq<Pair>, t: seq<Pair>)
    requires multiset(s) == multiset(t)
    ensures |s| == |t| && forall e :: e in s <==> e in t
  {
    assert |s| == |multiset(s)| == |multiset(t)| == |t|;
    forall e ensures e in s <==> e in t {
      assert e in multiset(s) <==> e in multiset(t);
    }
  }

  // sort.Slice with zskipLess: some sorted permutation.
  method SortPairs(ps: seq<Pair>) returns (s: seq<Pair>)
    requires DistinctMembers(ps)
    ensures Sorted(s) && multiset(s) == multiset(ps)
    ensures |s| == |ps| && forall e :: e in s <==> e in ps
  {
    s := [];
    for i := 0 to |ps|
      invariant Sorted(s) && multiset(s) == multiset(ps[..i])
    {
      Unseen(ps, i, s);
      InsertedSorted(s, ps[i]);
      InsertedMultiset(s, ps[i]);
      assert ps[..i + 1] == ps[..i] + [ps[i]];
      s := Inserted(s, ps[i]);
    }
    assert ps[..|ps|] == ps;
    SameElements(s, ps);
  }

  lemma RankingDistinct(m: ScoreMap, s: seq<Pair>)
    requires IsRanking(m, s)
    ensures DistinctMembers(s)
  {
    forall i, j | 0 <= i < j < |s| ensures s[i].member != s[j].member {
      assert Holds(m, s[i]) && Holds(m, s[j]);
      LessTrichotomy(s[i], s[j]);
    }
  }

  // The effect of ZADD on one member.
  ghost function Put(p: Pair, e: Pair): (r: Pair) {
    if e.member == p.member then p else e
  }

  // What the scan has collected, and whether it met the member.
  ghost predicate Gathered(p: Pair, ps: seq<Pair>, entries: seq<Pair>, found: bool) {
    && |entries| <= |ps|
    && (forall i :: 0 <= i < |entries| ==> entries[i] == Put(p, ps[i]))
    && (found <==> exists i :: 0 <= i < |entries| && ps[i].member == p.member)
  }

  lemma GatherNext(p: Pair, ps: seq<Pair>, entries: seq<Pair>, found: bool)
    requires Gathered(p, ps, entries, found) && |entries| < |ps|
    ensures var e := ps[|entries|]; Gathered(p, ps, entries + [Put(p, e)], found || e.member == p.member)
  {}

  lemma GatheredAll(p: Pair, m: ScoreMap, ps: seq<Pair>, entries: seq<Pair>, found: bool)
    requires Gathered(p, ps, entries, found) && |entries| == |ps| && IsRanking(m, ps)
    ensures found == (p.member in m)
  {
    if found {
      var i :| 0 <= i < |entries| && ps[i].member == p.member;
      assert Holds(m, ps[i]);
    } else if p.member in m {
      EveryMemberRanked(m, ps, p.member);
    }
  }

  // What compactAdd collects before sorting is the updated content.
  lemma PutAll(m: ScoreMap, s: seq<Pair>, p: Pair, t: seq<Pair>)
    requires IsRanking(m, s)
    requires |t| == |s| + (if p.member in m then 0 else 1)
    requires forall i :: 0 <= i < |s| ==> t[i] == Put(p, s[i])
    requires p.member !in m ==> t[|s|] == p
    ensures DistinctMembers(t)
    ensures Lists(t, m[p.member := p.score])
  {
    RankingDistinct(m, s);
    forall i | 0 <= i < |s| ensures s[i].member in m {
      assert Holds(m, s[i]);
    }
    forall e ensures e in t <==> Holds(m[p.member := p.score], e) {
      PutMember(m, s, p, t, e);
    }
  }

  lemma PutMember(m: ScoreMap, s: seq<Pair>, p: Pair, t: seq<Pair>, e: Pair)
    requires IsRanking(m, s)
    requires |t| == |s| + (if p.member in m then 0 else 1)
    requires forall i :: 0 <= i < |s| ==> t[i] == Put(p, s[i])
    requires p.member !in m ==> t[|s|] == p
    ensures e in t <==> Holds(m[p.member := p.score], e)
  {
    if e in t {
      var i :| 0 <= i < |t| && t[i] == e;
      if i < |s| {
        assert Holds(m, s[i]);
      }
    }
    if Holds(m[p.member := p.score], e) {
      if p.member !in m && e == p {
        assert t[|s|] == e;
      } else {
        var was := Pair(e.member, m[e.member]);
        assert Holds(m, was);
        var i :| 0 <= i < |s| && s[i] == was;
        assert t[i] == e;
      }
    }
  }

  // What a promoted set does with a score equal to the stored one: nothing.
  ghost function PutFull(m: ScoreMap, p: Pair): (r: ScoreMap) {
    if p.member in m && Num(m[p.member]) == Num(p.score) then m else m[p.member := p.score]
  }

  // What ZRANGE must list, by counting: each pair of the set that is listed at position i has
  // lo + i members ahead of it, and there are as many as ranks between the two indices.
  ghost predicate InRange(m: ScoreMap, start: int, stop: int, out: seq<Pair>) {
    var n := |m|;
    var lo := if start >= 0 then start else if n + start >= 0 then n + start else 0;
    var hi := if stop < 0 then n + stop else if stop < n then stop else n - 1;
    && |out| == (if lo <= hi then hi - lo + 1 else 0)
    && forall i :: 0 <= i < |out| ==> Holds(m, out[i]) && |AheadOf(m, out[i])| == lo + i
  }

  // The same from the numbers alone: what the ranks between two indices list.
  ghost predicate ListsRanks(n: map<Bytes, int>, start: int, stop: int, out: seq<(Bytes, int)>) {
    var lo := if start >= 0 then start else if |n| + start >= 0 then |n| + start else 0;
    var hi := if stop < 0 then |n| + stop else if stop < |n| then stop else |n| - 1;
    && |out| == (if lo <= hi then hi - lo + 1 else 0)
    && forall i :: 0 <= i < |out| ==>
         && out[i].0 in n && n[out[i].0] == out[i].1
         && |NumbersAhead(n, out[i].0, out[i].1)| == lo + i
  }

  lemma RangeIsInOrder(m: ScoreMap, s: seq<Pair>, start: int, stop: int)
    requires IsRanking(m, s)
    ensures var out := Selected(s, start, stop);
      && IsWindow(s, start, stop, out) && InRange(m, start, stop, out)
      && forall i, j :: 0 <= i < j < |out| ==> Ahead(out[i], out[j])
  {
    var out := Selected(s, start, stop);
    SelectedIsWindow(s, start, stop);
    RankingSize(m, s);
    var lo := if start >= 0 then start else if |s| + start >= 0 then |s| + start else 0;
    SliceCounts(m, s, lo, out);
  }

  ghost function Numbered(ps: seq<Pair>): (r: seq<(Bytes, int)>)
    ensures |r| == |ps| && forall i :: 0 <= i < |ps| ==> r[i] == (ps[i].member, Num(ps[i].score))
  {
    seq(|ps|, i requires 0 <= i < |ps| => (ps[i].member, Num(ps[i].score)))
  }

  lemma RangeByNumbers(m: ScoreMap, start: int, stop: int, out: seq<Pair>)
    requires InRange(m, start, stop, out)
    ensures ListsRanks(Numeric(m), start, stop, Numbered(out))
  {
    assert |m| == |m.Keys| && |Numeric(m)| == |Numeric(m).Keys|;
    forall i | 0 <= i < |out|
      ensures |NumbersAhead(Numeric(m), out[i].member, Num(out[i].score))| == |AheadOf(m, out[i])|
    {
      SameAhead(m, out[i]);
    }
  }

  // Of two members with different numbers, the smaller comes first.
  lemma TwoListed(a: Bytes, b: Bytes, x: int, y: int, out: seq<(Bytes, int)>)
    requires a != b && x < y && ListsRanks(map[a := x, b := y], 0, -1, out)
    ensures out == [(a, x), (b, y)]
  {
    var n := map[a := x, b := y];
    assert n.Keys == {a, b} && |n| == |n.Keys| == 2;
    assert NumbersAhead(n, a, x) == {} by {
      NotBefore(a);
    }
    assert NumbersAhead(n, b, y) == {a} by {
      NotBefore(b);
    }
  }

  lemma NotBefore(a: Bytes)
    ensures !Before(a, a)
  {
    LexIsBefore(a, a);
    LexIrreflexive(a);
  }

  lemma SliceCounts(m: ScoreMap, s: seq<Pair>, lo: nat, out: seq<Pair>)
    requires IsRanking(m, s) && (out != [] ==> lo + |out| <= |s|)
    requires forall i :: 0 <= i < |out| ==> out[i] == s[lo + i]
    ensures forall i :: 0 <= i < |out| ==> Holds(m, out[i]) && |AheadOf(m, out[i])| == lo + i
    ensures forall i, j :: 0 <= i < j < |out| ==> Ahead(out[i], out[j])
  {
    forall i | 0 <= i < |out| ensures Holds(m, out[i]) && |AheadOf(m, out[i])| == lo + i {
      RankCounts(m, s, lo + i);
    }
    forall i, j | 0 <= i < j < |out| ensures Ahead(out[i], out[j]) {
      AheadByIndex(s, lo + i, lo + j);
    }
  }

  class FullZSet {
    var scores: ScoreMap
    const order: SkipList

    ghost function Repr(): (r: set<object>)
      reads order
    {
      {this, order} + order.NodeSet()
    }

    // The score map holds exactly the skip list's pairs.
    ghost predicate Valid()
      reads this, order, order.nodes
    {
      order.Valid() && IsRanking(scores, order.Pairs())
    }

    constructor ()
      ensures Valid() && scores == map[] && fresh(Repr())
    {
      scores := map[];
      order := new SkipList();
    }

    method InsertNew(p: Pair)
      requires Valid() && p.member !in scores
      modifies this, order, order.NodeSet()
      ensures Valid() && scores == old(scores)[p.member := p.score]
      ensures fresh(order.NodeSet() - old(order.NodeSet()))
    {
      RankingInsert(scores, order.Pairs(), p);
      scores := scores[p.member := p.score];
      order.Insert(p);
    }

    method RemoveOld(k: Blob)
      requires Valid() && k in scores
      modifies this, order, order.NodeSet()
      ensures Valid() && scores == old(scores) - {k}
      ensures order.NodeSet() <= old(order.NodeSet())
    {
      RankingRemove(scores, order.Pairs(), k);
      order.Delete(Pair(k, scores[k]));
      scores := scores - {k};
    }

    method Add(p: Pair) returns (added: bool)
      requires Valid()
      modifies this, order, order.NodeSet()
      ensures Valid()
      ensures added == (p.member !in old(scores))
      ensures scores == PutFull(old(scores), p)
      ensures fresh(order.NodeSet() - old(order.NodeSet()))
    {
      added := p.member !in scores;
      if added {
        InsertNew(p);
      } else if Num(scores[p.member]) != Num(p.score) {
        RemoveOld(p.member);
        InsertNew(p);
      }
    }

    // Add, of the next pair of a list being loaded.
    method AddListed(p: Pair, ghost ps: seq<Pair>, ghost k: nat, ghost owned: set<object>)
      returns (ghost grown: set<object>)
      requires Valid() && DistinctMembers(ps) && k < |ps| && p == ps[k] && Lists(ps[..k], scores)
      requires Repr() <= owned
      modifies this, order, order.NodeSet()
      ensures Valid() && Lists(ps[..k + 1], scores)
      ensures Repr() <= grown && owned <= grown && fresh(grown - owned)
    {
      NotYetAdded(ps, k, scores);
      var _ := Add(p);
      grown := owned + Repr();
    }

    method RangeByRank(lo: nat, hi: int) returns (out: seq<Pair>)
      requires Valid()
      ensures out == Clipped(order.Pairs(), lo, hi + 1)
    {
      out := order.EachInRank(lo, hi);
    }
  }

  class ZSet {
    var pack: Bytes
    var count: nat
    var full: FullZSet?
    const max: Thresholds
    // What the packed bytes spell out, while packed.
    ghost var scores: ScoreMap
    ghost var ranking: seq<Pair>

    // The abstract value: each member's score, and the members in rank order.
    ghost function Contents(): (m: ScoreMap)
      reads this, full
    {
      if full == null then scores else full.scores
    }

    ghost function Ranking(): (s: seq<Pair>)
      reads this, full, if full == null then {} else {full.order}
      requires full != null ==> |full.order.nodes| >= 1
    {
      if full == null then ranking else full.order.Pairs()
    }

    ghost function Repr(): (r: set<object>)
      reads this, if full == null then {} else {full.order}
    {
      {this} + if full == null then {} else full.Repr()
    }

    ghost predicate Packed()
      reads this
    {
      full == null && pack == PackZ(ranking) && count == |ranking| && IsRanking(scores, ranking)
    }

    // A set that is still packed is within its thresholds.
    ghost predicate Small()
      reads this
    {
      && (count > 0 ==> count <= max.maxEntries)
      && forall i :: 0 <= i < |ranking| ==> |ranking[i].member| <= max.maxBytes
    }

    ghost predicate Valid()
      reads this, full, if full == null then {} else {full.order}, Repr()
    {
      if full == null then Packed() && Small()
      else full.Valid() && pack == [] && count == 0
    }

    constructor (max: Thresholds)
      ensures Valid() && Contents() == map[] && full == null && this.max == max
    {
      this.max := max;
      pack, count, full := [], 0, null;
      scores, ranking := map[], [];
    }

    method Len() returns (n: nat)
      requires Valid()
      ensures n == |Contents()|
    {
      if full != null {
        n := |full.scores|;
      } else {
        RankingSize(scores, ranking);
        n := count;
      }
    }

    method Score(member: Blob) returns (score: Score, found: bool)
      requires Valid()
      ensures found == (member in Contents())
      ensures found ==> score == Contents()[member]
    {
      score, found := 0, false;
      if full != null {
        if member in full.scores {
          score, found := full.scores[member], true;
        }
        return;
      }
      var buf := pack;
      ghost var k := 0;
      while buf != []
        invariant k <= |ranking| && buf == PackZ(ranking[k..])
        invariant forall i :: 0 <= i < k ==> ranking[i].member != member
        decreases |buf|
      {
        var p;
        p, buf := ReadPair(buf, ranking, k);
        if p.member == member {
          assert Holds(scores, p);
          score, found := p.score, true;
          return;
        }
        k := k + 1;
      }
      if member in scores {
        EveryMemberRanked(scores, ranking, member);
      }
    }

    // Range in the packed form: keep what lies between lo and hi.
    method PackedRange(lo: nat, hi: nat) returns (out: seq<Pair>)
      requires Packed() && lo <= hi < |ranking|
      ensures out == ranking[lo..hi + 1]
    {
      out := [];
      var buf, i := pack, 0;
      while buf != [] && i <= hi
        invariant i <= hi + 1 && buf == PackZ(ranking[i..])
        invariant out == if i <= lo then [] else ranking[lo..i]
        decreases |buf|
      {
        var p;
        p, buf := ReadPair(buf, ranking, i);
        if i >= lo {
          assert ranking[lo..i + 1] == ranking[lo..i] + [ranking[i]];
          out := out + [p];
        }
        i := i + 1;
      }
    }

    method Range(start: int, stop: int) returns (out: seq<Pair>)
      requires Valid()
      ensures out == Selected(Ranking(), start, stop) && IsWindow(Ranking(), start, stop, out)
      ensures forall i, j :: 0 <= i < j < |out| ==> Ahead(out[i], out[j])
      ensures InRange(Contents(), start, stop, out)
    {
      ghost var m, s := Contents(), Ranking();
      out := Slice(start, stop);
      RangeIsInOrder(m, s, start, stop);
    }

    method Slice(start: int, stop: int) returns (out: seq<Pair>)
      requires Valid()
      ensures out == Selected(Ranking(), start, stop) && IsRanking(Contents(), Ranking())
    {
      RankingSize(Contents(), Ranking());
      var n := Len();
      match NormalizeRange(start, stop, n)
      case Empty =>
        out := [];
      case Span(lo, hi) =>
        if full != null {
          out := full.RangeByRank(lo, hi);
        } else {
          out := PackedRange(lo, hi);
        }
    }

    // compactAdd's scan: the entries with `p` in place of its member's old score.
    method Gather(p: Pair) returns (entries: seq<Pair>, found: bool)
      requires Packed()
      ensures |entries| == |ranking| && forall i :: 0 <= i < |ranking| ==> entries[i] == Put(p, ranking[i])
      ensures found == (p.member in scores)
    {
      entries, found := [], false;
      var buf := pack;
      while buf != []
        invariant Gathered(p, ranking, entries, found) && buf == PackZ(ranking[|entries|..])
        decreases |buf|
      {
        var e;
        e, buf := ReadPair(buf, ranking, |entries|);
        GatherNext(p, ranking, entries, found);
        if e.member == p.member {
          found := true;
          entries := entries + [p];
        } else {
          entries := entries + [e];
        }
      }
      GatheredAll(p, scores, ranking, entries, found);
    }

    static method Repack(ps: seq<Pair>) returns (rebuilt: Bytes)
      ensures rebuilt == PackZ(ps)
    {
      rebuilt := [];
      for i := 0 to |ps|
        invariant rebuilt == PackZ(ps[..i])
      {
        assert ps[..i + 1] == ps[..i] + [ps[i]];
        PackZAppend(ps[..i], ps[i]);
        rebuilt := rebuilt + PackedPair(ps[i]);
      }
      assert ps[..|ps|] == ps;
    }

    method CompactAdd(p: Pair) returns (added: bool)
      requires Packed()
      modifies this
      ensures Packed() && added == (p.member !in old(scores))
      ensures scores == old(scores)[p.member := p.score]
    {
      var entries, found := Gather(p);
      if !found {
        entries := entries + [p];
        count := count + 1;
      }
      PutAll(scores, ranking, p, entries);
      var sorted := SortPairs(entries);
      pack := Repack(sorted);
      scores, ranking := scores[p.member := p.score], sorted;
      added := !found;
    }

    // promote's scan, adding every packed pair to a fresh full set.
    static method Load(packed: Bytes, ghost ps: seq<Pair>) returns (f: FullZSet)
      requires packed == PackZ(ps) && DistinctMembers(ps)
      ensures f.Valid() && fresh(f.Repr())
      ensures Lists(ps, f.scores)
    {
      f := new FullZSet();
      var buf := packed;
      ghost var k, owned := 0, f.Repr();
      while buf != []
        invariant k <= |ps| && buf == PackZ(ps[k..])
        invariant f.Valid() && f.Repr() <= owned && fresh(owned)
        invariant Lists(ps[..k], f.scores)
        decreases |buf|
      {
        var p;
        p, buf := ReadPair(buf, ps, k);
        owned := f.AddListed(p, ps, k, owned);
        k := k + 1;
      }
      assert ps[..k] == ps;
    }

    method Promote()
      requires Packed()
      modifies this
      ensures Valid() && full != null && fresh(Repr() - {this})
      ensures Contents() == old(scores)
    {
      RankingDistinct(scores, ranking);
      var f := Load(pack, ranking);
      SameScores(scores, f.scores, ranking);
      full := f;
      pack, count := [], 0;
    }

    method AddPacked(p: Pair) returns (added: bool)
      requires Valid() && full == null
      modifies this
      ensures Valid() && fresh(Repr() - {this})
      ensures added == (p.member !in old(scores))
      ensures Contents() == old(scores)[p.member := p.score]
      ensures full == null <==> |Contents()| <= max.maxEntries && |p.member| <= max.maxBytes
    {
      ghost var m, s := scores, ranking;
      added := CompactAdd(p);
      PromoteIfNeeded(p, m, s);
    }

    // After adding p to the packed set m with ranking s.
    method PromoteIfNeeded(p: Pair, ghost m: ScoreMap, ghost s: seq<Pair>)
      requires Packed() && IsRanking(m, s) && scores == m[p.member := p.score]
      requires forall i :: 0 <= i < |s| ==> |s[i].member| <= max.maxBytes
      modifies this
      ensures Valid() && fresh(Repr() - {this})
      ensures Contents() == old(scores)
      ensures full == null <==> |old(scores)| <= max.maxEntries && |p.member| <= max.maxBytes
    {
      RankingSize(scores, ranking);
      if max.Exceeded(count, |p.member|) {
        Promote();
      } else {
        StillSmall(m, s, scores, ranking, p, max.maxBytes);
      }
    }

    // A promoted set never goes back.
    method Add(p: Pair) returns (added: bool)
      requires Valid()
      modifies Repr()
      ensures Valid() && fresh(Repr() - old(Repr()))
      ensures added == (p.member !in old(Contents()))
      ensures Contents() ==
        if old(full) == null then old(Contents())[p.member := p.score] else PutFull(old(Contents()), p)
      ensures Numeric(Contents()) == Numeric(old(Contents()))[p.member := Num(p.score)]
      ensures old(full) != null ==> full == old(full)
      ensures full == null <==> old(full) == null && |Contents()| <= max.maxEntries && |p.member| <= max.maxBytes
    {
      AddIsNumeric(Contents(), p);
      if full != null {
        added := full.Add(p);
      } else {
        added := AddPacked(p);
      }
    }
  }

  lemma NotYetAdded(ps: seq<Pair>, k: nat, m: ScoreMap)
    requires DistinctMembers(ps) && k < |ps|
    requires Lists(ps[..k], m)
    ensures ps[k].member !in m
    ensures Lists(ps[..k + 1], m[ps[k].member := ps[k].score])
  {
    if ps[k].member in m {
      var p := Pair(ps[k].member, m[ps[k].member]);
      assert Holds(m, p);
    }
    var s, m' := ps[..k + 1], m[ps[k].member := ps[k].score];
    assert s == ps[..k] + [ps[k]];
    forall p ensures p in s <==> Holds(m', p) {
      assert p in ps[..k] <==> Holds(m, p);
    }
  }

  lemma SameScores(m: ScoreMap, m': ScoreMap, s: seq<Pair>)
    requires Lists(s, m) && Lists(s, m')
    ensures m == m'
  {
    assert forall p :: Holds(m, p) <==> Holds(m', p);
    forall k | k in m ensures k in m' && m'[k] == m[k] {
      assert Holds(m, Pair(k, m[k]));
    }
    forall k | k in m' ensures k in m {
      assert Holds(m', Pair(k, m'[k]));
    }
  }

  lemma StillSmall(m: ScoreMap, s: seq<Pair>, m': ScoreMap, s': seq<Pair>, p: Pair, bytes: int)
    requires IsRanking(m, s) && IsRanking(m', s') && m' == m[p.member := p.score]
    requires |p.member| <= bytes && forall i :: 0 <= i < |s| ==> |s[i].member| <= bytes
    ensures forall i :: 0 <= i < |s'| ==> |s'[i].member| <= bytes
  {
    forall i | 0 <= i < |s'| ensures |s'[i].member| <= bytes {
      assert Holds(m', s'[i]);
      if s'[i].member != p.member {
        EveryMemberRanked(m, s, s'[i].member);
      }
    }
  }

  // Packed or promoted, an add means the same numerically.
  lemma AddIsNumeric(m: ScoreMap, p: Pair)
    ensures Numeric(m[p.member := p.score]) == Numeric(m)[p.member := Num(p.score)]
    ensures Numeric(PutFull(m, p)) == Numeric(m)[p.member := Num(p.score)]
  {}

  // The two forms store different bits exactly when one zero replaces the other.
  lemma FormsDifferOnlyAtZero(m: ScoreMap, p: Pair)
    ensures PutFull(m, p) != m[p.member := p.score] <==>
      p.member in m && m[p.member] != p.score && Num(m[p.member]) == 0 && Num(p.score) == 0
  {
    if p.member in m {
      if Num(m[p.member]) == Num(p.score) {
        NumInjective(m[p.member], p.score);
      }
      assert m[p.member := p.score] == m <==> m[p.member] == p.score;
    }
  }

  // The content after a run of adds: the last score given to each member.
  ghost function LastScores(n: map<Blob, int>, ps: seq<Pair>): (r: map<Blob, int>) {
    if ps == [] then n
    else LastScores(n, ps[..|ps| - 1])[ps[|ps| - 1].member := Num(ps[|ps| - 1].score)]
  }

  lemma SizeAfterPut(m: map<Blob, int>, k: Blob, v: int)
    ensures |m[k := v]| == |m| + if k in m then 0 else 1
  {
    assert m[k := v].Keys == m.Keys + {k};
    assert |m.Keys| == |m| && |m[k := v].Keys| == |m[k := v]|;
  }

  // One add to a set whose objects all lie in `owned`, which grows only by new objects.
  method AddCounted(z: ZSet, p: Pair, ghost n: map<Blob, int>, ghost owned: set<object>)
    returns (more: nat, ghost grown: set<object>)
    requires z.Valid() && z.Repr() <= owned && Numeric(z.Contents()) == n
    modifies owned
    ensures z.Valid() && z.Repr() <= grown && owned <= grown && fresh(grown - owned)
    ensures Numeric(z.Contents()) == n[p.member := Num(p.score)]
    ensures |n[p.member := Num(p.score)]| == |n| + more
  {
    SizeAfterPut(n, p.member, Num(p.score));
    var isNew := z.Add(p);
    more, grown := if isNew then 1 else 0, owned + z.Repr();
  }

  // Whatever the thresholds and whatever heights the skip list draws, a run of adds
  // leaves the set that the run alone determines.
  method AddAll(z: ZSet, ps: seq<Pair>, ghost n: map<Blob, int>, ghost owned: set<object>)
    returns (added: nat, ghost grown: set<object>)
    requires z.Valid() && z.Repr() <= owned && Numeric(z.Contents()) == n
    modifies owned
    ensures z.Valid() && z.Repr() <= grown && owned <= grown && fresh(grown - owned)
    ensures Numeric(z.Contents()) == LastScores(n, ps)
    ensures |LastScores(n, ps)| == |n| + added
  {
    added, grown := 0, owned;
    for i := 0 to |ps|
      invariant z.Valid() && z.Repr() <= grown && owned <= grown && fresh(grown - owned)
      invariant Numeric(z.Contents()) == LastScores(n, ps[..i])
      invariant |LastScores(n, ps[..i])| == |n| + added
    {
      assert ps[..i + 1][..i] == ps[..i];
      var more;
      more, grown := AddCounted(z, ps[i], LastScores(n, ps[..i]), grown);
      added := added + more;
    }
    assert ps[..|ps|] == ps;
  }

  // And any two sets with that numeric content answer every range alike.
  lemma RangesAgree(m: ScoreMap, s: seq<Pair>, m': ScoreMap, s': seq<Pair>, start: int, stop: int)
    requires IsRanking(m, s) && IsRanking(m', s') && Numeric(m) == Numeric(m')
    ensures var a, b := Selected(s, start, stop), Selected(s', start, stop);
      |a| == |b| && forall i :: 0 <= i < |a| ==> SameKey(a[i], b[i])
  {
    RankingsAgree(m, s, m', s');
  }
}
