// A sorted set as a map from member to score, and its one ranking: the members in
// (score, member) order.
module Rankings {
  import opened ByteStrings
  import opened Varints
  import opened Scores

  type ScoreMap = map<Blob, Score>

  ghost predicate Holds(m: ScoreMap, p: Pair) {
    p.member in m && m[p.member] == p.score
  }

  ghost predicate Lists(s: seq<Pair>, m: ScoreMap) {
    forall p :: p in s <==> Holds(m, p)
  }

  ghost predicate IsRanking(m: ScoreMap, s: seq<Pair>) {
    Sorted(s) && Lists(s, m)
  }

  // The numeric content: what a score compares as.
  ghost function Numeric(m: ScoreMap): (n: map<Blob, int>)
    ensures n.Keys == m.Keys
    ensures forall k :: k in m ==> n[k] == Num(m[k])
  {
    map k | k in m :: Num(m[k])
  }

  lemma RankingInsert(m: ScoreMap, s: seq<Pair>, p: Pair)
    requires IsRanking(m, s) && p.member !in m
    ensures forall e :: e in s ==> !SameKey(e, p)
    ensures IsRanking(m[p.member := p.score], Inserted(s, p))
  {
    forall e | e in s ensures !SameKey(e, p) {
      assert Holds(m, e);
    }
    InsertedSorted(s, p);
    var t, m' := Inserted(s, p), m[p.member := p.score];
    InsertedMembers(s, p);
    forall e ensures e in t <==> Holds(m', e) {
      assert e in s <==> Holds(m, e);
    }
  }

  lemma InsertedMembers(s: seq<Pair>, p: Pair)
    ensures forall e :: e in Inserted(s, p) <==> e == p || e in s
  {
    var r := Rank(s, p);
    assert s == s[..r] + s[r..];
    assert p in [p];
  }

  // An element of a sorted sequence sits at its own rank.
  lemma RankOfElement(s: seq<Pair>, p: Pair)
    requires Sorted(s) && p in s
    ensures Rank(s, p) < |s| && s[Rank(s, p)] == p
  {
    var i :| 0 <= i < |s| && s[i] == p;
    LessTrichotomy(p, p);
    RankUnique(s, p, i);
  }

  lemma WithoutRank(s: seq<Pair>, r: nat, e: Pair)
    requires Sorted(s) && r < |s|
    ensures e in s[..r] + s[r + 1..] <==> e in s && e != s[r]
  {
    var t := s[..r] + s[r + 1..];
    if e in t {
      var i :| 0 <= i < |t| && t[i] == e;
      var j := if i < r then i else i + 1;
      assert s[j] == e && j != r;
      LessTrichotomy(s[j], s[r]);
    }
    if e in s && e != s[r] {
      var j :| 0 <= j < |s| && s[j] == e;
      assert t[if j < r then j else j - 1] == e;
    }
  }

  lemma RankingRemove(m: ScoreMap, s: seq<Pair>, k: Blob)
    requires IsRanking(m, s) && k in m
    ensures IsRanking(m - {k}, Removed(s, Pair(k, m[k])))
  {
    var p := Pair(k, m[k]);
    assert Holds(m, p);
    RankOfElement(s, p);
    RemovedSorted(s, p);
    forall e ensures e in Removed(s, p) <==> Holds(m - {k}, e) {
      WithoutRank(s, Rank(s, p), e);
      assert e in s <==> Holds(m, e);
    }
  }

  lemma {:induction false} RankingUnique(m: ScoreMap, s: seq<Pair>, t: seq<Pair>)
    requires IsRanking(m, s) && IsRanking(m, t)
    ensures s == t
    decreases |s|
  {
    RankingSize(m, s);
    RankingSize(m, t);
    if s != [] {
      assert Holds(m, s[0]);
      assert s[0] in t;
      var j :| 0 <= j < |t| && t[j] == s[0];
      assert Holds(m, t[0]);
      assert t[0] in s;
      var i :| 0 <= i < |s| && s[i] == t[0];
      LessTrichotomy(s[0], t[0]);
      assert s[0] == t[0];
      RankingTail(m, s);
      RankingTail(m, t);
      RankingUnique(m - {s[0].member}, s[1..], t[1..]);
      assert s == [s[0]] + s[1..] && t == [t[0]] + t[1..];
    }
  }

  lemma RankingTail(m: ScoreMap, s: seq<Pair>)
    requires IsRanking(m, s) && s != []
    ensures s[0].member in m && IsRanking(m - {s[0].member}, s[1..])
  {
    assert Holds(m, s[0]);
    LessTrichotomy(s[0], s[0]);
    RankUnique(s, s[0], 0);
    RankingRemove(m, s, s[0].member);
    assert Removed(s, s[0]) == s[1..];
  }

  lemma EveryMemberRanked(m: ScoreMap, s: seq<Pair>, k: Blob)
    requires IsRanking(m, s) && k in m
    ensures exists i :: 0 <= i < |s| && s[i] == Pair(k, m[k])
  {
    assert Holds(m, Pair(k, m[k]));
  }

  lemma {:induction false} RankingSize(m: ScoreMap, s: seq<Pair>)
    requires IsRanking(m, s)
    ensures |s| == |m|
    decreases |s|
  {
    if s == [] {
      if |m| != 0 {
        assert m.Keys != {};
        var k :| k in m.Keys;
        EveryMemberRanked(m, s, k);
      }
    } else {
      RankingTail(m, s);
      RankingSize(m - {s[0].member}, s[1..]);
      assert |m - {s[0].member}| == |m| - 1 by {
        assert (m - {s[0].member}).Keys == m.Keys - {s[0].member};
        assert |m.Keys - {s[0].member}| == |m.Keys| - 1;
        assert |m - {s[0].member}| == |(m - {s[0].member}).Keys|;
      }
    }
  }

  // The members of the first i pairs.
  ghost function Members(s: seq<Pair>, i: nat): (r: set<Blob>)
    requires i <= |s|
  {
    if i == 0 then {} else Members(s, i - 1) + {s[i - 1].member}
  }

  lemma {:induction false} MemberOf(s: seq<Pair>, i: nat, k: Blob)
    requires i <= |s|
    ensures k in Members(s, i) <==> exists j :: 0 <= j < i && s[j].member == k
    decreases i
  {
    if i > 0 {
      MemberOf(s, i - 1, k);
    }
  }

  // The members that come ahead of p.
  ghost function AheadOf(m: ScoreMap, p: Pair): (r: set<Blob>) {
    set k | k in m && Ahead(Pair(k, m[k]), p)
  }

  // The same on the numbers that scores compare as.
  ghost predicate NumberAhead(n: map<Bytes, int>, k: Bytes, member: Bytes, x: int)
    requires k in n
  {
    n[k] < x || (n[k] == x && Before(k, member))
  }

  ghost function NumbersAhead(n: map<Bytes, int>, member: Bytes, x: int): (r: set<Bytes>) {
    set k | k in n && NumberAhead(n, k, member, x)
  }

  lemma SameAhead(m: ScoreMap, p: Pair)
    ensures AheadOf(m, p) == NumbersAhead(Numeric(m), p.member, Num(p.score))
  {
    forall k | k in m ensures Ahead(Pair(k, m[k]), p) <==> NumberAhead(Numeric(m), k, p.member, Num(p.score)) {
      assert Numeric(m)[k] == Num(m[k]);
    }
  }

  lemma MembersDiffer(m: ScoreMap, s: seq<Pair>, i: nat, j: nat)
    requires IsRanking(m, s) && i < j < |s|
    ensures s[i].member != s[j].member
  {
    assert Holds(m, s[i]) && Holds(m, s[j]);
    LessTrichotomy(s[j], s[j]);
    assert Less(s[i], s[j]);
  }

  lemma {:induction false} DistinctCount(s: seq<Pair>, i: nat)
    requires i <= |s| && forall j, k :: 0 <= j < k < i ==> s[j].member != s[k].member
    ensures |Members(s, i)| == i
    decreases i
  {
    if i > 0 {
      DistinctCount(s, i - 1);
      MemberOf(s, i - 1, s[i - 1].member);
    }
  }

  lemma FirstMembers(m: ScoreMap, s: seq<Pair>, i: nat)
    requires IsRanking(m, s) && i <= |s|
    ensures |Members(s, i)| == i
  {
    forall j, k | 0 <= j < k < i ensures s[j].member != s[k].member {
      MembersDiffer(m, s, j, k);
    }
    DistinctCount(s, i);
  }

  // The i-th of a ranking has exactly i members ahead of it.
  lemma RankCounts(m: ScoreMap, s: seq<Pair>, i: nat)
    requires IsRanking(m, s) && i < |s|
    ensures |AheadOf(m, s[i])| == i
  {
    FirstMembers(m, s, i);
    forall k | k in AheadOf(m, s[i]) ensures k in Members(s, i) {
      EveryMemberRanked(m, s, k);
      var j :| 0 <= j < |s| && s[j] == Pair(k, m[k]);
      AheadByIndex(s, j, i);
      MemberOf(s, i, k);
    }
    forall k | k in Members(s, i) ensures k in AheadOf(m, s[i]) {
      MemberOf(s, i, k);
      var j :| 0 <= j < i && s[j].member == k;
      assert Holds(m, s[j]);
      AheadByIndex(s, j, i);
    }
    assert AheadOf(m, s[i]) == Members(s, i);
  }

  lemma AheadByIndex(s: seq<Pair>, i: nat, j: nat)
    requires Sorted(s) && i < |s| && j < |s|
    ensures Ahead(s[i], s[j]) <==> i < j
  {
    LessIsAhead(s[i], s[j]);
    LessTrichotomy(s[i], s[j]);
    if i > j {
      assert Less(s[j], s[i]);
    }
  }

  // Two sorted sets that agree on every numeric score list the same members in the
  // same order, with numerically equal scores.
  lemma {:induction false} RankingsAgree(m: ScoreMap, s: seq<Pair>, m': ScoreMap, s': seq<Pair>)
    requires IsRanking(m, s) && IsRanking(m', s') && Numeric(m) == Numeric(m')
    ensures |s| == |s'| && forall i :: 0 <= i < |s| ==> SameKey(s[i], s'[i])
    decreases |s|
  {
    RankingSize(m, s);
    RankingSize(m', s');
    assert m.Keys == m'.Keys;
    assert |m| == |m.Keys| && |m'| == |m'.Keys|;
    if s != [] {
      SmallestAgree(m, s, m', s');
      RankingTail(m, s);
      RankingTail(m', s');
      var k := s[0].member;
      assert Numeric(m - {k}) == Numeric(m' - {k});
      RankingsAgree(m - {k}, s[1..], m' - {k}, s'[1..]);
      forall i | 0 <= i < |s| ensures SameKey(s[i], s'[i]) {
        if i > 0 {
          assert s[i] == s[1..][i - 1] && s'[i] == s'[1..][i - 1];
        }
      }
    }
  }

  lemma SmallestAgree(m: ScoreMap, s: seq<Pair>, m': ScoreMap, s': seq<Pair>)
    requires IsRanking(m, s) && IsRanking(m', s') && Numeric(m) == Numeric(m')
    requires |s| == |s'| > 0
    ensures SameKey(s[0], s'[0])
  {
    var a, b := s[0], s'[0];
    assert Holds(m, a) && Holds(m', b);
    assert m.Keys == m'.Keys;
    var a', b' := Pair(a.member, m'[a.member]), Pair(b.member, m[b.member]);
    assert Num(a'.score) == Numeric(m')[a.member] && Num(b'.score) == Numeric(m)[b.member];
    assert Holds(m', a') && Holds(m, b');
    var j :| 0 <= j < |s'| && s'[j] == a';
    var i :| 0 <= i < |s| && s[i] == b';
    LessTrichotomy(a, b);
    LessRespectsSameKey(a, a', b);
    LessRespectsSameKey(b, b', a);
  }
}
