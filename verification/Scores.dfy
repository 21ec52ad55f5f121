// Sorted-set scores as IEEE-754 binary64 bit patterns. NaN never reaches a sorted
// set, so the patterns range over the finite numbers and the two infinities.
module Scores {
  import opened ByteStrings
  import opened Varints

  const INFINITY_BITS: int := 0x7FF0_0000_0000_0000

  predicate IsScore(b: int) {
    0 <= b < TWO64 && (if b < TWO63 then b else b - TWO63) <= INFINITY_BITS
  }

  type Score = b: int | IsScore(b)

  // Orders bit patterns as floating-point comparison does. Both zeros map to 0,
  // so they compare equal although their bits differ.
  function Num(s: Score): (n: int)
    ensures -INFINITY_BITS <= n <= INFINITY_BITS
  {
    assert IsScore(s);
    if s < TWO63 then s else TWO63 - s
  }

  const NEGATIVE_ZERO: Score := TWO63
  const POSITIVE_ZERO: Score := 0

  // A numeric value determines the bits except at zero.
  lemma NumInjective(s: Score, t: Score)
    requires Num(s) == Num(t)
    ensures s == t || {s, t} == {NEGATIVE_ZERO, POSITIVE_ZERO}
  {
    assert IsScore(s) && IsScore(t);
  }

  datatype Pair = Pair(member: Blob, score: Score)

  // zskipLess: by score, then by member.
  predicate Less(a: Pair, b: Pair) {
    if Num(a.score) != Num(b.score) then Num(a.score) < Num(b.score)
    else LexLess(a.member, b.member)
  }

  // The order spelled out: the smaller number first, and at equal numbers the member that
  // ends first or has the smaller byte where the two first differ.
  ghost predicate Ahead(a: Pair, b: Pair) {
    Num(a.score) < Num(b.score) || (Num(a.score) == Num(b.score) && Before(a.member, b.member))
  }

  lemma LessIsAhead(a: Pair, b: Pair)
    ensures Less(a, b) <==> Ahead(a, b)
  {
    LexIsBefore(a.member, b.member);
  }

  predicate SameKey(a: Pair, b: Pair) {
    Num(a.score) == Num(b.score) && a.member == b.member
  }

  lemma LessTransitive(a: Pair, b: Pair, c: Pair)
    requires Less(a, b) && Less(b, c)
    ensures Less(a, c)
  {
    if Num(a.score) == Num(b.score) == Num(c.score) {
      LexTransitive(a.member, b.member, c.member);
    }
  }

  lemma LessTrichotomy(a: Pair, b: Pair)
    ensures Less(a, b) || Less(b, a) || SameKey(a, b)
    ensures SameKey(a, b) ==> !Less(a, b) && !Less(b, a)
    ensures Less(a, b) ==> !Less(b, a)
  {
    LexTotal(a.member, b.member);
    LexIrreflexive(a.member);
    LexIrreflexive(b.member);
    if Less(a, b) && Less(b, a) {
      LexTransitive(a.member, b.member, a.member);
    }
  }

  // Only numeric value and member matter to the order.
  lemma LessRespectsSameKey(a: Pair, b: Pair, c: Pair)
    requires SameKey(a, b)
    ensures Less(a, c) == Less(b, c)
    ensures Less(c, a) == Less(c, b)
  {}

  ghost predicate Sorted(s: seq<Pair>) {
    forall i, j :: 0 <= i < j < |s| ==> Less(s[i], s[j])
  }

  // How many leading elements come before x; in a sorted sequence, all that do.
  function Rank(s: seq<Pair>, x: Pair): (r: nat)
    ensures r <= |s|
    ensures forall i :: 0 <= i < r ==> Less(s[i], x)
    ensures r < |s| ==> !Less(s[r], x)
  {
    if s == [] || !Less(s[0], x) then 0 else 1 + Rank(s[1..], x)
  }

  lemma RankSplits(s: seq<Pair>, x: Pair)
    requires Sorted(s)
    ensures forall i :: Rank(s, x) <= i < |s| ==> !Less(s[i], x)
  {
    var r := Rank(s, x);
    forall i | r <= i < |s| ensures !Less(s[i], x) {
      if r < i && Less(s[i], x) {
        LessTransitive(s[r], s[i], x);
      }
    }
  }

  lemma RankUnique(s: seq<Pair>, x: Pair, r: nat)
    requires r <= |s|
    requires forall i :: 0 <= i < r ==> Less(s[i], x)
    requires r < |s| ==> !Less(s[r], x)
    ensures Rank(s, x) == r
  {}

  function Inserted(s: seq<Pair>, x: Pair): (t: seq<Pair>) {
    s[..Rank(s, x)] + [x] + s[Rank(s, x)..]
  }

  ghost function Removed(s: seq<Pair>, x: Pair): (t: seq<Pair>) {
    var r := Rank(s, x);
    if r < |s| && SameKey(s[r], x) then s[..r] + s[r + 1..] else s
  }

  lemma InsertedSorted(s: seq<Pair>, x: Pair)
    requires Sorted(s)
    requires forall e :: e in s ==> !SameKey(e, x)
    ensures Sorted(Inserted(s, x))
  {
    var r := Rank(s, x);
    RankSplits(s, x);
    forall i | r <= i < |s| ensures Less(x, s[i]) {
      LessTrichotomy(s[i], x);
    }
  }

  lemma RemovedSorted(s: seq<Pair>, x: Pair)
    requires Sorted(s)
    ensures Sorted(Removed(s, x))
  {}
}
