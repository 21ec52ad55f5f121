// The skip list behind a promoted sorted set (zskiplist). The ghost sequence
// `nodes` lists the head and then every node in level-0 order; each level must
// link exactly the nodes tall enough to reach it.
module SkipLists {
  import opened Scores

  const MAX_LEVEL := 32

  class Node {
    const pair: Pair
    const height: nat
    var next: seq<Node?>

    constructor (pair: Pair, height: nat)
      ensures this.pair == pair && this.height == height
      ensures next == seq(height, _ => null)
    {
      this.pair, this.height := pair, height;
      next := seq(height, _ => null);
    }
  }

  // The first index at or after j whose node is taller than l.
  ghost function Succ(ns: seq<Node>, l: nat, j: nat): (k: nat)
    requires j <= |ns|
    ensures j <= k <= |ns|
    decreases |ns| - j
  {
    if j == |ns| || ns[j].height > l then j else Succ(ns, l, j + 1)
  }

  lemma {:induction false} SuccIs(ns: seq<Node>, l: nat, j: nat)
    requires j <= |ns|
    ensures var k := Succ(ns, l, j); k < |ns| ==> ns[k].height > l
    ensures forall m :: j <= m < Succ(ns, l, j) ==> ns[m].height <= l
    decreases |ns| - j
  {
    if j < |ns| && ns[j].height <= l {
      SuccIs(ns, l, j + 1);
    }
  }

  // The node a level-l link from index k must reach.
  ghost function Target(ns: seq<Node>, l: nat, k: nat): (t: Node?)
    requires k < |ns|
  {
    var s := Succ(ns, l, k + 1);
    if s < |ns| then ns[s] else null
  }

  // The `next` slices of the nodes, as one value.
  ghost function LinksOf(ns: seq<Node>): (ls: seq<seq<Node?>>)
    reads ns
    ensures |ls| == |ns|
    ensures forall k {:trigger ls[k]} :: 0 <= k < |ns| ==> ls[k] == ns[k].next
  {
    seq(|ns|, k requires 0 <= k < |ns| reads ns => ns[k].next)
  }

  ghost predicate Shaped(ns: seq<Node>, ls: seq<seq<Node?>>) {
    |ls| == |ns| && forall k :: 0 <= k < |ns| ==> |ls[k]| == ns[k].height
  }

  // Level l is exactly the subsequence of nodes taller than l.
  ghost predicate LinkedAt(ns: seq<Node>, ls: seq<seq<Node?>>, l: nat)
    requires Shaped(ns, ls)
  {
    forall k :: 0 <= k < |ns| && l < ns[k].height ==> ls[k][l] == Target(ns, l, k)
  }

  ghost predicate Heights(ns: seq<Node>) {
    forall k :: 0 <= k < |ns| ==> 1 <= ns[k].height <= MAX_LEVEL
  }

  ghost predicate Distinct(ns: seq<Node>) {
    forall i, j :: 0 <= i < j < |ns| ==> ns[i] != ns[j]
  }

  ghost function PairsOf(ns: seq<Node>): (s: seq<Pair>)
    ensures |s| == |ns|
    ensures forall i :: 0 <= i < |ns| ==> s[i] == ns[i].pair
  {
    seq(|ns|, i requires 0 <= i < |ns| => ns[i].pair)
  }

  ghost function InsertAt<T>(ns: seq<T>, p: nat, node: T): (r: seq<T>)
    requires p < |ns|
    ensures |r| == |ns| + 1
    ensures forall k :: 0 <= k < |r| ==> r[k] == if k <= p then ns[k] else if k == p + 1 then node else ns[k - 1]
  {
    ns[..p + 1] + [node] + ns[p + 1..]
  }

  lemma {:induction false} SuccUnique(ns: seq<Node>, l: nat, j: nat, k: nat)
    requires j <= k <= |ns|
    requires k < |ns| ==> ns[k].height > l
    requires forall m :: j <= m < k ==> ns[m].height <= l
    ensures Succ(ns, l, j) == k
    decreases k - j
  {
    if j < k {
      SuccUnique(ns, l, j + 1, k);
    }
  }

  lemma InsertSuccAfter(ns: seq<Node>, p: nat, node: Node, l: nat, k: nat)
    requires p < k <= |ns|
    ensures Succ(InsertAt(ns, p, node), l, k + 1) == Succ(ns, l, k) + 1
  {
    var r, s := InsertAt(ns, p, node), Succ(ns, l, k);
    SuccIs(ns, l, k);
    forall m | k + 1 <= m < s + 1 ensures r[m].height <= l {
      assert r[m] == ns[m - 1];
    }
    assert s < |ns| ==> r[s + 1] == ns[s];
    SuccUnique(r, l, k + 1, s + 1);
  }

  lemma InsertSuccBefore(ns: seq<Node>, p: nat, node: Node, l: nat, k: nat)
    requires k <= p + 1 && p < |ns|
    ensures var s := Succ(ns, l, k);
      Succ(InsertAt(ns, p, node), l, k) ==
        if s <= p then s else if node.height > l then p + 1 else s + 1
  {
    var r, s := InsertAt(ns, p, node), Succ(ns, l, k);
    SuccIs(ns, l, k);
    if s <= p {
      SuccUnique(r, l, k, s);
    } else if node.height > l {
      SuccUnique(r, l, k, p + 1);
    } else {
      forall m | k <= m < s + 1 ensures r[m].height <= l {
        assert r[m] == if m <= p then ns[m] else if m == p + 1 then node else ns[m - 1];
      }
      assert s < |ns| ==> r[s + 1] == ns[s];
      SuccUnique(r, l, k, s + 1);
    }
  }

  // How the targets at level l move when `node` goes in after index p.
  lemma InsertTargetsAfter(ns: seq<Node>, p: nat, node: Node, l: nat, k: nat)
    requires p < k <= |ns|
    ensures Target(InsertAt(ns, p, node), l, k) == Target(ns, l, k - 1)
  {
    InsertSuccAfter(ns, p, node, l, k);
    var s := Succ(ns, l, k);
    assert s < |ns| ==> InsertAt(ns, p, node)[s + 1] == ns[s];
  }

  lemma InsertTargetsBefore(ns: seq<Node>, p: nat, node: Node, l: nat, k: nat)
    requires k <= p < |ns|
    ensures Target(InsertAt(ns, p, node), l, k) ==
      if Succ(ns, l, k + 1) <= p || node.height <= l then Target(ns, l, k) else node
  {
    InsertSuccBefore(ns, p, node, l, k + 1);
    var r, s := InsertAt(ns, p, node), Succ(ns, l, k + 1);
    assert s <= p ==> r[s] == ns[s];
    assert p < s < |ns| ==> r[s + 1] == ns[s];
  }

  // `level` is the greatest height in use, or 1 when there are no nodes.
  ghost predicate LevelBounds(ns: seq<Node>, level: nat) {
    1 <= level <= MAX_LEVEL && forall k :: 1 <= k < |ns| ==> ns[k].height <= level
  }

  ghost predicate LevelReached(ns: seq<Node>, level: nat) {
    level > 1 ==> exists k :: 1 <= k < |ns| && ns[k].height == level
  }

  // u is the last node on level l that is not past index p.
  ghost predicate Predecessor(ns: seq<Node>, l: nat, p: nat, q: nat, u: Node) {
    && q <= p < |ns|
    && u == ns[q]
    && l < u.height
    && Succ(ns, l, q + 1) > p
  }

  lemma SuccAtMost(ns: seq<Node>, l: nat, j: nat, q: nat)
    requires j <= q < |ns| && l < ns[q].height
    ensures Succ(ns, l, j) <= q
  {
    SuccIs(ns, l, j);
  }

  // From anywhere in a gap, the search ends at the same place.
  lemma SuccWithin(ns: seq<Node>, l: nat, j: nat, k: nat)
    requires j <= |ns| && j <= k <= Succ(ns, l, j)
    ensures Succ(ns, l, k) == Succ(ns, l, j)
  {
    SuccIs(ns, l, j);
    SuccUnique(ns, l, k, Succ(ns, l, j));
  }

  lemma GrownShaped(ns: seq<Node>, ls: seq<seq<Node?>>, p: nat, node: Node, nl: seq<Node?>)
    requires p < |ns| && Shaped(ns, ls) && |nl| == node.height
    ensures Shaped(InsertAt(ns, p, node), InsertAt(ls, p, nl))
  {
    var r, rs := InsertAt(ns, p, node), InsertAt(ls, p, nl);
    forall k | 0 <= k < |r| ensures |rs[k]| == r[k].height {
      if k > p + 1 {
        assert r[k] == ns[k - 1] && rs[k] == ls[k - 1];
      }
    }
  }

  // q takes over x's link.
  lemma SkippingTarget(rs: seq<Node>, p: nat, x: Node, l: nat, q: nat)
    requires q <= p < |rs| && Succ(rs, l, q + 1) > p
    ensures Target(InsertAt(rs, p, x), l, p + 1) == Target(rs, l, q)
  {
    InsertTargetsAfter(rs, p, x, l, p + 1);
    SuccWithin(rs, l, q + 1, p + 1);
  }

  // A link that ends at or before q does not see a node that goes in after it.
  lemma TargetBefore(rs: seq<Node>, p: nat, x: Node, l: nat, q: nat, k: nat)
    requires k < q <= p < |rs| && l < rs[q].height
    ensures Target(InsertAt(rs, p, x), l, k) == Target(rs, l, k)
  {
    SuccAtMost(rs, l, k + 1, q);
    InsertTargetsBefore(rs, p, x, l, k);
  }

  // No node between the predecessor and the rank is tall enough.
  lemma NoneBetween(rs: seq<Node>, p: nat, l: nat, q: nat, k: nat)
    requires q <= p < |rs| && Succ(rs, l, q + 1) > p
    requires k < |rs| && l < rs[k].height && k != q
    ensures k < q || k > p
  {
    if q < k {
      SuccAtMost(rs, l, q + 1, k);
    }
  }

  // Only q's link changes.
  lemma RemainingTarget(rs: seq<Node>, p: nat, x: Node, l: nat, q: nat, k: nat)
    requires q <= p < |rs| && l < rs[q].height && Succ(rs, l, q + 1) > p
    requires k < |rs| && l < rs[k].height && k != q
    ensures Target(InsertAt(rs, p, x), l, if k <= p then k else k + 1) == Target(rs, l, k)
  {
    NoneBetween(rs, p, l, q, k);
    if k > p {
      InsertTargetsAfter(rs, p, x, l, k + 1);
    } else {
      TargetBefore(rs, p, x, l, q, k);
    }
  }

  // Where the links of the grown list must point, on a level the new node reaches.
  lemma GrownTarget(ns: seq<Node>, p: nat, node: Node, l: nat, q: nat, k: nat)
    requires q <= p < |ns| && l < node.height && l < ns[q].height && Succ(ns, l, q + 1) > p
    requires k <= |ns| && l < InsertAt(ns, p, node)[k].height
    ensures Target(InsertAt(ns, p, node), l, k) ==
      if k == q then node
      else Target(ns, l, if k <= p then k else if k == p + 1 then q else k - 1)
  {
    if k == p + 1 {
      SkippingTarget(ns, p, node, l, q);
    } else if k > p {
      InsertTargetsAfter(ns, p, node, l, k);
    } else if k == q {
      InsertTargetsBefore(ns, p, node, l, k);
    } else {
      RemainingTarget(ns, p, node, l, q, k);
    }
  }

  // Level l of the grown list, once u and the new node have been spliced on it.
  lemma SplicedIn(ns: seq<Node>, ls: seq<seq<Node?>>, p: nat, node: Node, nl: seq<Node?>, l: nat, q: nat)
    requires Shaped(ns, ls) && |nl| == node.height && l < node.height
    requires q <= p < |ns| && l < ns[q].height && Succ(ns, l, q + 1) > p
    requires ls[q][l] == node && nl[l] == Target(ns, l, q)
    requires forall k :: 0 <= k < |ns| && k != q && l < ns[k].height ==> ls[k][l] == Target(ns, l, k)
    ensures Shaped(InsertAt(ns, p, node), InsertAt(ls, p, nl))
    ensures LinkedAt(InsertAt(ns, p, node), InsertAt(ls, p, nl), l)
  {
    var r, rs := InsertAt(ns, p, node), InsertAt(ls, p, nl);
    GrownShaped(ns, ls, p, node, nl);
    forall k | 0 <= k < |r| && l < r[k].height ensures rs[k][l] == Target(r, l, k) {
      GrownTarget(ns, p, node, l, q, k);
    }
  }

  // Levels the new node does not reach keep their links.
  lemma PassedOver(ns: seq<Node>, ls: seq<seq<Node?>>, p: nat, node: Node, nl: seq<Node?>, l: nat)
    requires p < |ns| && Shaped(ns, ls) && |nl| == node.height <= l && LinkedAt(ns, ls, l)
    ensures Shaped(InsertAt(ns, p, node), InsertAt(ls, p, nl))
    ensures LinkedAt(InsertAt(ns, p, node), InsertAt(ls, p, nl), l)
  {
    var r, rs := InsertAt(ns, p, node), InsertAt(ls, p, nl);
    GrownShaped(ns, ls, p, node, nl);
    assert r[p + 1] == node;
    forall k | 0 <= k < |r| && l < r[k].height ensures rs[k][l] == Target(r, l, k) {
      PassedLink(ns, ls, p, node, nl, l, k);
    }
  }

  lemma PassedLink(ns: seq<Node>, ls: seq<seq<Node?>>, p: nat, node: Node, nl: seq<Node?>, l: nat, k: nat)
    requires p < |ns| && Shaped(ns, ls) && |nl| == node.height <= l && LinkedAt(ns, ls, l)
    requires k <= |ns| && k != p + 1 && l < InsertAt(ns, p, node)[k].height
    ensures l < |InsertAt(ls, p, nl)[k]| && InsertAt(ls, p, nl)[k][l] == Target(InsertAt(ns, p, node), l, k)
  {
    OldLink(ns, ls, p, node, nl, k);
    if k <= p {
      PassedBefore(ns, p, node, l, k);
      LevelLink(ns, ls, l, k);
    } else {
      InsertTargetsAfter(ns, p, node, l, k);
      LevelLink(ns, ls, l, k - 1);
    }
  }

  lemma LevelLink(ns: seq<Node>, ls: seq<seq<Node?>>, l: nat, k: nat)
    requires Shaped(ns, ls) && LinkedAt(ns, ls, l) && k < |ns| && l < ns[k].height
    ensures l < |ls[k]| && ls[k][l] == Target(ns, l, k)
  {
  }

  // Where the old nodes and links are after an insertion.
  lemma OldLink(ns: seq<Node>, ls: seq<seq<Node?>>, p: nat, node: Node, nl: seq<Node?>, k: nat)
    requires p < |ns| == |ls| && k <= |ns| && k != p + 1
    ensures
      var j := if k <= p then k else k - 1;
      j < |ns| && InsertAt(ns, p, node)[k] == ns[j] && InsertAt(ls, p, nl)[k] == ls[j]
  {
  }

  ghost predicate SlotsKept(a: seq<Node?>, b: seq<Node?>, l: nat) {
    |a| == |b| && forall m :: 0 <= m < |a| && m != l ==> a[m] == b[m]
  }

  // A level that no write touched stays linked.
  lemma LinksKept(ns: seq<Node>, ls: seq<seq<Node?>>, ls': seq<seq<Node?>>, l: nat, m: nat)
    requires Shaped(ns, ls) && Shaped(ns, ls') && m != l && LinkedAt(ns, ls, m)
    requires forall k :: 0 <= k < |ns| ==> SlotsKept(ls[k], ls'[k], l)
    ensures LinkedAt(ns, ls', m)
  {
    forall k | 0 <= k < |ns| && m < ns[k].height ensures ls'[k][m] == Target(ns, m, k) {
      assert SlotsKept(ls[k], ls'[k], l);
    }
  }

  // The state of an insertion that has spliced the levels below i.
  ghost predicate Growing(ns: seq<Node>, ls: seq<seq<Node?>>, p: nat, node: Node, nl: seq<Node?>, i: nat) {
    && p < |ns| && Shaped(ns, ls) && |nl| == node.height
    && Shaped(InsertAt(ns, p, node), InsertAt(ls, p, nl))
    && (forall l :: 0 <= l < i ==> LinkedAt(InsertAt(ns, p, node), InsertAt(ls, p, nl), l))
    && (forall l :: i <= l < MAX_LEVEL ==> LinkedAt(ns, ls, l))
  }

  lemma SpliceKeepsSlots(ls: seq<seq<Node?>>, q: nat, i: nat, to: Node?)
    requires q < |ls| && i < |ls[q]|
    ensures forall k :: 0 <= k < |ls| ==> SlotsKept(ls[k], ls[q := ls[q][i := to]][k], i)
  {}

  lemma GrowthKeepsSlots(ls: seq<seq<Node?>>, ls': seq<seq<Node?>>, p: nat, nl: seq<Node?>, nl': seq<Node?>, i: nat)
    requires p < |ls| == |ls'|
    requires SlotsKept(nl, nl', i) && forall k :: 0 <= k < |ls| ==> SlotsKept(ls[k], ls'[k], i)
    ensures var rs, rs' := InsertAt(ls, p, nl), InsertAt(ls', p, nl');
      forall k :: 0 <= k < |rs| ==> SlotsKept(rs[k], rs'[k], i)
  {
    var rs, rs' := InsertAt(ls, p, nl), InsertAt(ls', p, nl');
    forall k | 0 <= k < |rs| ensures SlotsKept(rs[k], rs'[k], i) {
      if k > p + 1 {
        assert rs[k] == ls[k - 1] && rs'[k] == ls'[k - 1];
      }
    }
  }

  lemma LevelsKept(ns: seq<Node>, ls: seq<seq<Node?>>, ls': seq<seq<Node?>>, i: nat, from: nat, to: nat)
    requires Shaped(ns, ls) && Shaped(ns, ls') && (to <= i || i < from)
    requires forall l :: from <= l < to ==> LinkedAt(ns, ls, l)
    requires forall k :: 0 <= k < |ns| ==> SlotsKept(ls[k], ls'[k], i)
    ensures forall l :: from <= l < to ==> LinkedAt(ns, ls', l)
  {
    forall l | from <= l < to ensures LinkedAt(ns, ls', l) {
      LinksKept(ns, ls, ls', i, l);
    }
  }

  lemma GrowStep(ns: seq<Node>, ls: seq<seq<Node?>>, p: nat, node: Node, nl: seq<Node?>, i: nat,
                 q: nat, ls': seq<seq<Node?>>, nl': seq<Node?>)
    requires Growing(ns, ls, p, node, nl, i) && i < node.height <= MAX_LEVEL
    requires q <= p && i < ns[q].height && Succ(ns, i, q + 1) > p
    requires ls' == ls[q := ls[q][i := node]]
    requires nl' == nl[i := ls[q][i]]
    ensures Growing(ns, ls', p, node, nl', i + 1)
  {
    SpliceKeepsSlots(ls, q, i, node);
    GrowthKeepsSlots(ls, ls', p, nl, nl', i);
    assert LinkedAt(ns, ls, i);
    SplicedIn(ns, ls', p, node, nl', i, q);
    LevelsKept(InsertAt(ns, p, node), InsertAt(ls, p, nl), InsertAt(ls', p, nl'), i, 0, i);
    LevelsKept(ns, ls, ls', i, i + 1, MAX_LEVEL);
  }

  // zskiplist.insert's splice loop.
  method SpliceIn(node: Node, update: seq<Node>, ghost ns: seq<Node>, ghost p: nat, ghost qs: seq<nat>)
    requires p < |ns| && Distinct(ns) && node !in ns
    requires node.height <= MAX_LEVEL && |node.next| == node.height == |update| == |qs|
    requires Shaped(ns, LinksOf(ns)) && forall l :: 0 <= l < MAX_LEVEL ==> LinkedAt(ns, LinksOf(ns), l)
    requires forall i :: 0 <= i < node.height ==> Predecessor(ns, i, p, qs[i], update[i])
    modifies ns, node
    ensures Growing(ns, LinksOf(ns), p, node, node.next, node.height)
  {
    GrownShaped(ns, LinksOf(ns), p, node, node.next);
    for i := 0 to node.height
      invariant Growing(ns, LinksOf(ns), p, node, node.next, i)
    {
      ghost var ls, nl := LinksOf(ns), node.next;
      assert Predecessor(ns, i, p, qs[i], update[i]);
      var u := update[i];
      node.next := node.next[i := u.next[i]];
      u.next := u.next[i := node];
      assert LinksOf(ns) == ls[qs[i] := ls[qs[i]][i := node]];
      GrowStep(ns, ls, p, node, nl, i, qs[i], LinksOf(ns), node.next);
    }
  }

  lemma FullyGrown(ns: seq<Node>, ls: seq<seq<Node?>>, p: nat, node: Node, nl: seq<Node?>)
    requires Growing(ns, ls, p, node, nl, node.height)
    ensures forall l :: 0 <= l < MAX_LEVEL ==> LinkedAt(InsertAt(ns, p, node), InsertAt(ls, p, nl), l)
  {
    forall l | node.height <= l < MAX_LEVEL
      ensures LinkedAt(InsertAt(ns, p, node), InsertAt(ls, p, nl), l)
    {
      PassedOver(ns, ls, p, node, nl, l);
    }
  }

  // Everything a sound list needs, with `level` only an upper bound.
  ghost predicate AlmostWellFormed(ns: seq<Node>, ls: seq<seq<Node?>>, level: nat) {
    && |ns| >= 1 && ns[0].height == MAX_LEVEL
    && Heights(ns) && Shaped(ns, ls) && Distinct(ns)
    && (forall l :: 0 <= l < MAX_LEVEL ==> LinkedAt(ns, ls, l))
    && Sorted(PairsOf(ns[1..]))
    && LevelBounds(ns, level)
  }

  ghost predicate WellFormed(ns: seq<Node>, ls: seq<seq<Node?>>, level: nat) {
    AlmostWellFormed(ns, ls, level) && LevelReached(ns, level)
  }

  lemma GrownLinks(ns: seq<Node>, p: nat, node: Node)
    requires p < |ns|
    ensures LinksOf(InsertAt(ns, p, node)) == InsertAt(LinksOf(ns), p, node.next)
    ensures forall n :: n in InsertAt(ns, p, node) ==> n == node || n in ns
  {
    var r, rs := InsertAt(ns, p, node), InsertAt(LinksOf(ns), p, node.next);
    forall k | 0 <= k < |r| ensures rs[k] == r[k].next {
      if k > p + 1 {
        assert r[k] == ns[k - 1] && rs[k] == LinksOf(ns)[k - 1];
      }
    }
  }

  ghost predicate NewNode(node: Node, ns: seq<Node>)
    reads node
  {
    && 1 <= node.height <= MAX_LEVEL && |node.next| == node.height
    && forall k :: 1 <= k < |ns| ==> !SameKey(ns[k].pair, node.pair)
  }

  lemma Attached(ns: seq<Node>, ls: seq<seq<Node?>>, node: Node, level: nat)
    requires WellFormed(ns, ls, level) && node !in ns && NewNode(node, ns)
    requires Growing(ns, LinksOf(ns), Rank(PairsOf(ns[1..]), node.pair), node, node.next, node.height)
    ensures var r := InsertAt(ns, Rank(PairsOf(ns[1..]), node.pair), node);
      WellFormed(r, LinksOf(r), if node.height > level then node.height else level)
  {
    GrownWellFormed(ns, ls, LinksOf(ns), node, node.next, level);
    GrownLinks(ns, Rank(PairsOf(ns[1..]), node.pair), node);
  }

  lemma GrownPairs(ns: seq<Node>, node: Node)
    requires |ns| >= 1
    ensures var s := PairsOf(ns[1..]);
      PairsOf(InsertAt(ns, Rank(s, node.pair), node)[1..]) == Inserted(s, node.pair)
  {
    var s := PairsOf(ns[1..]);
    var p := Rank(s, node.pair);
    var r := InsertAt(ns, p, node)[1..];
    forall k | 0 <= k < |r| ensures r[k].pair == Inserted(s, node.pair)[k] {
      if k > p {
        assert r[k] == ns[k];
      }
    }
  }

  lemma GrownNodes(ns: seq<Node>, p: nat, node: Node, level: nat)
    requires p < |ns| && Heights(ns) && Distinct(ns) && LevelBounds(ns, level) && LevelReached(ns, level)
    requires node !in ns && 1 <= node.height <= MAX_LEVEL
    ensures var r, top := InsertAt(ns, p, node), if node.height > level then node.height else level;
      Heights(r) && Distinct(r) && LevelBounds(r, top) && LevelReached(r, top)
  {
    var r := InsertAt(ns, p, node);
    assert forall k :: 0 <= k < |r| ==>
      r[k] == if k <= p then ns[k] else if k == p + 1 then node else ns[k - 1];
    if node.height <= level && level > 1 {
      var k :| 1 <= k < |ns| && ns[k].height == level;
      assert r[if k <= p then k else k + 1] == ns[k];
    } else {
      assert r[p + 1] == node;
    }
  }

  lemma GrownWellFormed(ns: seq<Node>, before: seq<seq<Node?>>, ls: seq<seq<Node?>>, node: Node, nl: seq<Node?>,
        level: nat)
    requires WellFormed(ns, before, level) && node !in ns && 1 <= node.height <= MAX_LEVEL
    requires forall k :: 1 <= k < |ns| ==> !SameKey(ns[k].pair, node.pair)
    requires Growing(ns, ls, Rank(PairsOf(ns[1..]), node.pair), node, nl, node.height)
    ensures var p := Rank(PairsOf(ns[1..]), node.pair);
      WellFormed(InsertAt(ns, p, node), InsertAt(ls, p, nl), if node.height > level then node.height else level)
  {
    var s := PairsOf(ns[1..]);
    var p := Rank(s, node.pair);
    FullyGrown(ns, ls, p, node, nl);
    GrownNodes(ns, p, node, level);
    GrownPairs(ns, node);
    forall e | e in s ensures !SameKey(e, node.pair) {
      var i :| 0 <= i < |s| && s[i] == e;
      assert s[i] == ns[i + 1].pair;
    }
    InsertedSorted(s, node.pair);
  }

  // Deletion runs the same facts backwards: `rs` is the list without x, which sits after index p.

  // Level l once the predecessor skips x.
  lemma SplicedOut(rs: seq<Node>, p: nat, x: Node, l: nat, q: nat, lr: seq<seq<Node?>>)
    requires p < |rs| && Shaped(rs, lr) && l < x.height
    requires q <= p && l < rs[q].height && Succ(rs, l, q + 1) > p
    requires forall k :: 0 <= k < |rs| && k != q && l < rs[k].height ==>
      lr[k][l] == Target(InsertAt(rs, p, x), l, if k <= p then k else k + 1)
    requires lr[q][l] == Target(InsertAt(rs, p, x), l, p + 1)
    ensures LinkedAt(rs, lr, l)
  {
    forall k | 0 <= k < |rs| && l < rs[k].height ensures lr[k][l] == Target(rs, l, k) {
      if k == q {
        SkippingTarget(rs, p, x, l, q);
      } else {
        RemainingTarget(rs, p, x, l, q, k);
      }
    }
  }

  lemma LinkAtLevel(rs: seq<Node>, lr: seq<seq<Node?>>, p: nat, x: Node, xl: seq<Node?>, l: nat, k: nat)
    requires p < |rs| && Shaped(rs, lr) && Shaped(InsertAt(rs, p, x), InsertAt(lr, p, xl))
    requires LinkedAt(InsertAt(rs, p, x), InsertAt(lr, p, xl), l)
    requires k < |rs| && l < rs[k].height
    ensures lr[k][l] == Target(InsertAt(rs, p, x), l, if k <= p then k else k + 1)
  {
    var ns, ls := InsertAt(rs, p, x), InsertAt(lr, p, xl);
    var j := if k <= p then k else k + 1;
    assert ns[j] == rs[k] && ls[j] == lr[k];
  }

  // Levels x does not reach are linked the same without it.
  lemma NotReached(rs: seq<Node>, lr: seq<seq<Node?>>, p: nat, x: Node, xl: seq<Node?>, l: nat)
    requires p < |rs| && Shaped(rs, lr) && |xl| == x.height <= l
    requires Shaped(InsertAt(rs, p, x), InsertAt(lr, p, xl))
    requires LinkedAt(InsertAt(rs, p, x), InsertAt(lr, p, xl), l)
    ensures LinkedAt(rs, lr, l)
  {
    forall k | 0 <= k < |rs| && l < rs[k].height ensures lr[k][l] == Target(rs, l, k) {
      LinkAtLevel(rs, lr, p, x, xl, l, k);
      PassedTarget(rs, p, x, l, k);
    }
  }

  lemma PassedTarget(rs: seq<Node>, p: nat, x: Node, l: nat, k: nat)
    requires p < |rs| && k < |rs| && x.height <= l
    ensures Target(InsertAt(rs, p, x), l, if k <= p then k else k + 1) == Target(rs, l, k)
  {
    if k > p {
      InsertTargetsAfter(rs, p, x, l, k + 1);
    } else {
      PassedBefore(rs, p, x, l, k);
    }
  }

  lemma PassedBefore(rs: seq<Node>, p: nat, x: Node, l: nat, k: nat)
    requires k <= p < |rs| && x.height <= l
    ensures Target(InsertAt(rs, p, x), l, k) == Target(rs, l, k)
  {
    InsertTargetsBefore(rs, p, x, l, k);
  }

  // The state of a deletion that has unlinked the levels below i.
  ghost predicate Shrinking(rs: seq<Node>, lr: seq<seq<Node?>>, p: nat, x: Node, xl: seq<Node?>, i: nat) {
    && p < |rs| && Shaped(rs, lr) && |xl| == x.height
    && Shaped(InsertAt(rs, p, x), InsertAt(lr, p, xl))
    && (forall l :: 0 <= l < i ==> LinkedAt(rs, lr, l))
    && (forall l :: i <= l < MAX_LEVEL ==> LinkedAt(InsertAt(rs, p, x), InsertAt(lr, p, xl), l))
  }

  lemma UnlinkedAt(rs: seq<Node>, lr: seq<seq<Node?>>, p: nat, x: Node, xl: seq<Node?>, i: nat,
                   q: nat, lr': seq<seq<Node?>>)
    requires p < |rs| && Shaped(rs, lr) && |xl| == x.height && i < x.height
    requires Shaped(InsertAt(rs, p, x), InsertAt(lr, p, xl))
    requires LinkedAt(InsertAt(rs, p, x), InsertAt(lr, p, xl), i)
    requires q <= p && i < rs[q].height && Succ(rs, i, q + 1) > p
    requires lr' == lr[q := lr[q][i := xl[i]]]
    ensures LinkedAt(rs, lr', i)
  {
    var ns, ls := InsertAt(rs, p, x), InsertAt(lr, p, xl);
    forall k | 0 <= k < |rs| && k != q && i < rs[k].height
      ensures lr'[k][i] == Target(ns, i, if k <= p then k else k + 1)
    {
      LinkAtLevel(rs, lr, p, x, xl, i, k);
    }
    assert ns[p + 1] == x && ls[p + 1] == xl;
    SplicedOut(rs, p, x, i, q, lr');
  }

  lemma ShrinkStep(rs: seq<Node>, lr: seq<seq<Node?>>, p: nat, x: Node, xl: seq<Node?>, i: nat,
                   q: nat, lr': seq<seq<Node?>>)
    requires Shrinking(rs, lr, p, x, xl, i) && i < x.height <= MAX_LEVEL
    requires q <= p && i < rs[q].height && Succ(rs, i, q + 1) > p
    requires lr' == lr[q := lr[q][i := xl[i]]]
    ensures Shrinking(rs, lr', p, x, xl, i + 1)
  {
    var ns, ls := InsertAt(rs, p, x), InsertAt(lr, p, xl);
    assert LinkedAt(ns, ls, i);
    UnlinkedAt(rs, lr, p, x, xl, i, q, lr');
    GrownShaped(rs, lr', p, x, xl);
    SpliceKeepsSlots(lr, q, i, xl[i]);
    GrowthKeepsSlots(lr, lr', p, xl, xl, i);
    LevelsKept(rs, lr, lr', i, 0, i);
    LevelsKept(ns, ls, InsertAt(lr', p, xl), i, i + 1, MAX_LEVEL);
  }

  lemma ShrinkSkip(rs: seq<Node>, lr: seq<seq<Node?>>, p: nat, x: Node, xl: seq<Node?>, i: nat)
    requires Shrinking(rs, lr, p, x, xl, i) && x.height <= i < MAX_LEVEL
    ensures Shrinking(rs, lr, p, x, xl, i + 1)
  {
    NotReached(rs, lr, p, x, xl, i);
  }

  // zskiplist.delete's unlink loop.
  method SpliceOut(x: Node, update: seq<Node>, ghost rs: seq<Node>, ghost p: nat, ghost qs: seq<nat>)
    requires p < |rs| && Distinct(rs) && x !in rs
    requires x.height <= |update| == |qs| <= MAX_LEVEL
    requires Shrinking(rs, LinksOf(rs), p, x, x.next, 0)
    requires forall i :: 0 <= i < |qs| ==> Predecessor(InsertAt(rs, p, x), i, p, qs[i], update[i])
    modifies rs
    ensures Shrinking(rs, LinksOf(rs), p, x, x.next, |update|)
  {
    for i := 0 to |update|
      invariant Shrinking(rs, LinksOf(rs), p, x, x.next, i)
      invariant x.next == old(x.next)
    {
      ghost var lr, q := LinksOf(rs), qs[i];
      var u := update[i];
      assert Predecessor(InsertAt(rs, p, x), i, p, q, u);
      PointsAtRemoved(rs, lr, p, x, x.next, i, q);
      if u.next[i] == x {
        u.next := u.next[i := x.next[i]];
        assert LinksOf(rs) == lr[q := lr[q][i := x.next[i]]];
        ShrinkStep(rs, lr, p, x, x.next, i, q, LinksOf(rs));
      } else {
        ShrinkSkip(rs, lr, p, x, x.next, i);
      }
    }
  }

  // The predecessor points at x on exactly the levels x reaches.
  lemma PointsAtRemoved(rs: seq<Node>, lr: seq<seq<Node?>>, p: nat, x: Node, xl: seq<Node?>, i: nat, q: nat)
    requires Shrinking(rs, lr, p, x, xl, i) && i < MAX_LEVEL && x !in rs
    requires q <= p && Predecessor(InsertAt(rs, p, x), i, p, q, rs[q])
    ensures lr[q][i] == x <==> i < x.height
    ensures i < rs[q].height && Succ(rs, i, q + 1) > p
  {
    StillPredecessor(rs, p, x, i, q);
    LinkAtLevel(rs, lr, p, x, xl, i, q);
    TargetOfPredecessor(rs, p, x, i, q);
  }

  lemma StillPredecessor(rs: seq<Node>, p: nat, x: Node, i: nat, q: nat)
    requires q <= p < |rs| && Predecessor(InsertAt(rs, p, x), i, p, q, rs[q])
    ensures i < rs[q].height && Succ(rs, i, q + 1) > p
  {
    InsertSuccBefore(rs, p, x, i, q + 1);
  }

  lemma TargetOfPredecessor(rs: seq<Node>, p: nat, x: Node, i: nat, q: nat)
    requires q <= p < |rs| && Succ(rs, i, q + 1) > p && x !in rs
    ensures Target(InsertAt(rs, p, x), i, q) == x <==> i < x.height
  {
    InsertTargetsBefore(rs, p, x, i, q);
  }

  lemma FullyShrunk(rs: seq<Node>, lr: seq<seq<Node?>>, p: nat, x: Node, xl: seq<Node?>, level: nat)
    requires Shrinking(rs, lr, p, x, xl, level) && x.height <= level
    ensures forall l :: 0 <= l < MAX_LEVEL ==> LinkedAt(rs, lr, l)
  {
    forall l | level <= l < MAX_LEVEL ensures LinkedAt(rs, lr, l) {
      NotReached(rs, lr, p, x, xl, l);
    }
  }

  ghost function RemoveAt<T>(ns: seq<T>, p: nat): (rs: seq<T>)
    requires p + 1 < |ns|
    ensures |rs| == |ns| - 1 && p < |rs|
    ensures InsertAt(rs, p, ns[p + 1]) == ns
  {
    var rs := ns[..p + 1] + ns[p + 2..];
    assert InsertAt(rs, p, ns[p + 1]) == ns;
    rs
  }

  lemma RemovedNodes(ns: seq<Node>, p: nat)
    requires p + 1 < |ns| && Distinct(ns) && Heights(ns)
    ensures var rs := RemoveAt(ns, p);
      && ns[p + 1] !in rs && Distinct(rs) && Heights(rs) && rs[0] == ns[0]
      && LinksOf(ns) == InsertAt(LinksOf(rs), p, ns[p + 1].next)
  {
    var rs := RemoveAt(ns, p);
    forall k | 0 <= k < |rs| ensures rs[k] == ns[if k <= p then k else k + 1] {
      assert InsertAt(rs, p, ns[p + 1])[if k <= p then k else k + 1] == rs[k];
    }
    GrownLinks(rs, p, ns[p + 1]);
  }

  lemma RemovedMembers(ns: seq<Node>, p: nat)
    requires p + 1 < |ns|
    ensures forall n :: n in RemoveAt(ns, p) ==> n in ns
  {}

  // On level 0 the predecessor is the node just before the rank.
  lemma NextAtRank(ns: seq<Node>, ls: seq<seq<Node?>>, level: nat, p: nat, q: nat, u: Node)
    requires WellFormed(ns, ls, level) && Predecessor(ns, 0, p, q, u)
    ensures q == p && |ls[p]| >= 1
    ensures ls[p][0] == if p + 1 < |ns| then ns[p + 1] else null
  {
    assert LinkedAt(ns, ls, 0);
  }

  lemma RemovedPairs(ns: seq<Node>, p: nat, pair: Pair)
    requires p + 1 < |ns| && p == Rank(PairsOf(ns[1..]), pair) && SameKey(ns[p + 1].pair, pair)
    ensures PairsOf(RemoveAt(ns, p)[1..]) == Removed(PairsOf(ns[1..]), pair)
  {
    var rs, s := RemoveAt(ns, p), PairsOf(ns[1..]);
    assert s[p] == ns[p + 1].pair;
    assert rs[1..] == ns[1..][..p] + ns[1..][p + 1..];
  }

  lemma ReadyToShrink(ns: seq<Node>, p: nat, level: nat)
    requires WellFormed(ns, LinksOf(ns), level) && p + 1 < |ns|
    ensures Shrinking(RemoveAt(ns, p), LinksOf(RemoveAt(ns, p)), p, ns[p + 1], ns[p + 1].next, 0)
    ensures ns[p + 1] !in RemoveAt(ns, p) && Distinct(RemoveAt(ns, p)) && RemoveAt(ns, p)[0] == ns[0]
    ensures forall n :: n in RemoveAt(ns, p) ==> n in ns
  {
    RemovedNodes(ns, p);
    RemovedMembers(ns, p);
    var rs, x := RemoveAt(ns, p), ns[p + 1];
    assert InsertAt(rs, p, x) == ns && InsertAt(LinksOf(rs), p, x.next) == LinksOf(ns);
    forall k | 0 <= k < |rs| ensures |LinksOf(rs)[k]| == rs[k].height {
      var j := if k <= p then k else k + 1;
      assert ns[j] == rs[k];
      assert |LinksOf(ns)[j]| == ns[j].height;
    }
  }

  lemma Detached(ns: seq<Node>, ls: seq<seq<Node?>>, p: nat, pair: Pair, level: nat, lr: seq<seq<Node?>>,
        xl: seq<Node?>)
    requires WellFormed(ns, ls, level) && p + 1 < |ns|
    requires p == Rank(PairsOf(ns[1..]), pair) && SameKey(ns[p + 1].pair, pair)
    requires Shrinking(RemoveAt(ns, p), lr, p, ns[p + 1], xl, level)
    ensures AlmostWellFormed(RemoveAt(ns, p), lr, level)
  {
    var rs := RemoveAt(ns, p);
    RemovedNodes(ns, p);
    RemovedMembers(ns, p);
    RemovedPairs(ns, p, pair);
    RemovedSorted(PairsOf(ns[1..]), pair);
    FullyShrunk(rs, lr, p, ns[p + 1], xl, level);
    forall k | 1 <= k < |rs| ensures rs[k].height <= level {
      assert rs[k] in ns;
      var j :| 0 <= j < |ns| && ns[j] == rs[k];
      assert rs[k] != rs[0];
    }
  }

  lemma LinkTo(ns: seq<Node>, ls: seq<seq<Node?>>, level: nat, l: nat, q: nat)
    requires WellFormed(ns, ls, level) && q < |ns| && l < ns[q].height
    ensures |ls[q]| == ns[q].height && ls[q][l] == Target(ns, l, q)
    ensures Succ(ns, l, q + 1) < |ns| ==> l < ns[Succ(ns, l, q + 1)].height
  {
    assert LinkedAt(ns, ls, l);
    SuccIs(ns, l, q + 1);
  }

  // The head's link on the top level tells whether any node is that tall.
  lemma TopLevel(ns: seq<Node>, ls: seq<seq<Node?>>, level: nat)
    requires AlmostWellFormed(ns, ls, level) && level > 1
    ensures |ls[0]| >= level
    ensures ls[0][level - 1] == null ==> LevelBounds(ns, level - 1)
    ensures ls[0][level - 1] != null ==> LevelReached(ns, level)
  {
    assert LinkedAt(ns, ls, level - 1);
    SuccIs(ns, level - 1, 1);
    var k := Succ(ns, level - 1, 1);
    assert k < |ns| ==> ns[k].height == level;
  }

  class SkipList {
    const head: Node
    var level: nat
    var length: nat
    ghost var nodes: seq<Node>

    ghost predicate Valid()
      reads this, nodes
    {
      && WellFormed(nodes, LinksOf(nodes), level)
      && nodes[0] == head
      && length == |nodes| - 1
    }

    ghost function NodeSet(): (r: set<Node>)
      reads this
    {
      set n | n in nodes
    }

    // The members in rank order.
    ghost function Pairs(): (s: seq<Pair>)
      requires |nodes| >= 1
      reads this
      ensures |s| == |nodes| - 1
      ensures forall i :: 0 <= i < |s| ==> s[i] == nodes[i + 1].pair
    {
      PairsOf(nodes[1..])
    }

    constructor ()
      ensures Valid() && Pairs() == []
      ensures fresh(nodes)
    {
      head := new Node(Pair([], 0), MAX_LEVEL);
      level, length := 1, 0;
      nodes := [head];
    }

    // Where the q-th node's link on level l leads.
    lemma Leads(q: nat, l: nat)
      requires Valid() && q < |nodes| && l < nodes[q].height
      ensures l < |nodes[q].next|
      ensures
        var y, k := nodes[q].next[l], Succ(nodes, l, q + 1);
        if y == null then k == |nodes| else k < |nodes| && nodes[k] == y && l < y.height
    {
      LinkTo(nodes, LinksOf(nodes), level, l, q);
    }

    // One level of the descent: advance while the next node sorts before target.
    method Advance(start: Node, ghost from: nat, l: nat, target: Pair) returns (x: Node, ghost q: nat)
      requires Valid()
      requires from < |nodes| && nodes[from] == start && l < start.height
      requires from == 0 || Less(start.pair, target)
      ensures Stopped(nodes, l, target, q, x)
    {
      x, q := start, from;
      Leads(q, l);
      while x.next[l] != null && Less(x.next[l].pair, target)
        invariant q < |nodes| && nodes[q] == x && l < x.height && l < |x.next|
        invariant q == 0 || Less(x.pair, target)
        decreases |nodes| - q
      {
        Leads(q, l);
        x, q := x.next[l], Succ(nodes, l, q + 1);
        Leads(q, l);
      }
      Leads(q, l);
    }

    // The descent shared by insert and delete: it ends at the rank where `target`
    // belongs, and update[i] is the true predecessor on every level in use.
    method Search(target: Pair) returns (update: seq<Node>, ghost qs: seq<nat>)
      requires Valid()
      ensures |update| == |qs| == level
      ensures forall i :: 0 <= i < level ==> Predecessor(nodes, i, Rank(Pairs(), target), qs[i], update[i])
    {
      update := seq(level, _ => head);
      qs := seq(level, _ => 0);
      var x: Node := head;
      ghost var q: nat := 0;
      var i := level;
      while i > 0
        invariant 0 <= i <= level && |update| == |qs| == level
        invariant q < |nodes| && nodes[q] == x && i <= x.height
        invariant q == 0 || Less(x.pair, target)
        invariant forall j :: i <= j < level ==> Stopped(nodes, j, target, qs[j], update[j])
      {
        i := i - 1;
        x, q := Advance(x, q, i, target);
        update, qs := update[i := x], qs[i := q];
      }
      AllStopped(nodes, target, level, qs, update);
    }

    // New levels are entered from the head.
    method RaiseLevel(height: nat, found: seq<Node>, ghost p: nat, ghost foundAt: seq<nat>)
      returns (update: seq<Node>, ghost qs: seq<nat>)
      requires Valid() && 1 <= height <= MAX_LEVEL && p < |nodes|
      requires |found| == |foundAt| == level
      requires forall i :: 0 <= i < level ==> Predecessor(nodes, i, p, foundAt[i], found[i])
      modifies this`level
      ensures level == if height > old(level) then height else old(level)
      ensures |update| == |qs| == level
      ensures forall i :: 0 <= i < level ==> Predecessor(nodes, i, p, qs[i], update[i])
    {
      update, qs := found, foundAt;
      if height > level {
        for i := level to height
          invariant |update| == |qs| == i
          invariant forall j :: 0 <= j < i ==> Predecessor(nodes, j, p, qs[j], update[j])
        {
          SuccUnique(nodes, i, 1, |nodes|);
          update, qs := update + [head], qs + [0];
        }
        level := height;
      }
    }

    // zskipRandomLevel: the coin is arbitrary, so every height from 1 to MAX_LEVEL can come out.
    static method RandomLevel() returns (height: nat)
      ensures 1 <= height <= MAX_LEVEL
    {
      height := 1;
      var coin: bool := *;
      while height < MAX_LEVEL && coin
        invariant 1 <= height <= MAX_LEVEL
      {
        height := height + 1;
        coin := *;
      }
    }

    // Record the new length, and the order the links now spell out.
    method Commit(ghost ns: seq<Node>, newLength: nat)
      requires AlmostWellFormed(ns, LinksOf(ns), level) && ns[0] == head && newLength == |ns| - 1
      modifies this`length, this`nodes
      ensures nodes == ns && length == newLength && LinksOf(ns) == old(LinksOf(ns))
      ensures AlmostWellFormed(nodes, LinksOf(nodes), level)
    {
      length, nodes := newLength, ns;
    }

    // The second half of insert: link the new node in at rank p.
    method Attach(node: Node, update: seq<Node>, ghost qs: seq<nat>, ghost before: nat)
      requires WellFormed(nodes, LinksOf(nodes), before) && nodes[0] == head && length == |nodes| - 1
      requires level == if node.height > before then node.height else before
      requires node !in nodes && NewNode(node, nodes)
      requires |update| == |qs| == node.height
      requires forall i :: 0 <= i < node.height ==> Predecessor(nodes, i, Rank(Pairs(), node.pair), qs[i], update[i])
      modifies this`length, this`nodes, nodes, node
      ensures Valid()
      ensures nodes == InsertAt(old(nodes), Rank(old(Pairs()), node.pair), node)
    {
      ghost var ns, p, ls := nodes, Rank(Pairs(), node.pair), LinksOf(nodes);
      SpliceIn(node, update, ns, p, qs);
      Attached(ns, ls, node, before);
      Commit(InsertAt(ns, p, node), length + 1);
    }

    method Insert(pair: Pair)
      requires Valid()
      requires forall k :: 0 <= k < |Pairs()| ==> !SameKey(Pairs()[k], pair)
      modifies this, NodeSet()
      ensures Valid()
      ensures Pairs() == Inserted(old(Pairs()), pair)
      ensures fresh(NodeSet() - old(NodeSet()))
    {
      ghost var ns, p, before := nodes, Rank(Pairs(), pair), level;
      var update, qs := Search(pair);
      var height := RandomLevel();
      update, qs := RaiseLevel(height, update, p, qs);
      var node := new Node(pair, height);
      assert forall k :: 1 <= k < |ns| ==> ns[k].pair == Pairs()[k - 1];
      Attach(node, update[..height], qs[..height], before);
      GrownLinks(ns, p, node);
      GrownPairs(ns, node);
    }

    method Detach(x: Node, update: seq<Node>, pair: Pair, ghost qs: seq<nat>)
      requires Valid()
      requires var p := Rank(Pairs(), pair); p + 1 < |nodes| && nodes[p + 1] == x && SameKey(x.pair, pair)
      requires |update| == |qs| == level
      requires forall i :: 0 <= i < level ==> Predecessor(nodes, i, Rank(Pairs(), pair), qs[i], update[i])
      modifies this`nodes, this`length, nodes
      ensures nodes == RemoveAt(old(nodes), Rank(old(Pairs()), pair))
      ensures AlmostWellFormed(nodes, LinksOf(nodes), level) && nodes[0] == head && length == |nodes| - 1
    {
      ghost var ns, ls, p := nodes, LinksOf(nodes), Rank(Pairs(), pair);
      ghost var rs := RemoveAt(ns, p);
      ReadyToShrink(ns, p, level);
      SpliceOut(x, update, rs, p, qs);
      ghost var lr := LinksOf(rs);
      Detached(ns, ls, p, pair, level, lr, x.next);
      Commit(rs, length - 1);
    }

    // Whether the top level is empty, by the head's link on it.
    method TopIsEmpty() returns (empty: bool)
      requires AlmostWellFormed(nodes, LinksOf(nodes), level) && nodes[0] == head && level > 1
      ensures if empty then LevelBounds(nodes, level - 1) else LevelReached(nodes, level)
    {
      TopLevel(nodes, LinksOf(nodes), level);
      empty := head.next[level - 1] == null;
    }

    // Drop the levels that no node reaches any more.
    method LowerLevel()
      requires AlmostWellFormed(nodes, LinksOf(nodes), level) && nodes[0] == head && length == |nodes| - 1
      modifies this`level
      ensures Valid()
    {
      while level > 1
        invariant AlmostWellFormed(nodes, LinksOf(nodes), level)
      {
        var empty := TopIsEmpty();
        if !empty {
          return;
        }
        level := level - 1;
      }
    }

    method Delete(pair: Pair)
      requires Valid()
      modifies this, NodeSet()
      ensures Valid()
      ensures Pairs() == Removed(old(Pairs()), pair)
      ensures NodeSet() <= old(NodeSet())
    {
      ghost var ns, p := nodes, Rank(Pairs(), pair);
      var update, qs := Search(pair);
      NextAtRank(nodes, LinksOf(nodes), level, p, qs[0], update[0]);
      var x := update[0].next[0];
      if x == null || !SameKey(x.pair, pair) {
        return;
      }
      RemovedPairs(ns, p, pair);
      RemovedMembers(ns, p);
      Remove(x, update, pair, qs);
    }

    method Remove(x: Node, update: seq<Node>, pair: Pair, ghost qs: seq<nat>)
      requires Valid()
      requires var p := Rank(Pairs(), pair); p + 1 < |nodes| && nodes[p + 1] == x && SameKey(x.pair, pair)
      requires |update| == |qs| == level
      requires forall i :: 0 <= i < level ==> Predecessor(nodes, i, Rank(Pairs(), pair), qs[i], update[i])
      modifies this, NodeSet()
      ensures Valid() && nodes == RemoveAt(old(nodes), Rank(old(Pairs()), pair))
    {
      Detach(x, update, pair, qs);
      LowerLevel();
    }

    method Next(n: Node, ghost i: nat) returns (x: Node?)
      requires Valid()
      requires i < |nodes| && nodes[i] == n
      ensures At(i, x)
    {
      Level0(nodes, LinksOf(nodes), level);
      x := n.next[0];
    }

    // eachInRank's first loop: the node at rank lo, if there is one.
    method Skip(lo: nat) returns (x: Node?)
      requires Valid()
      ensures if lo <= |Pairs()| then At(lo, x) else x == null
    {
      x := Next(head, 0);
      var i := 0;
      while i < lo && x != null
        invariant i <= lo && At(i, x)
        decreases lo - i
      {
        x := Next(x, i + 1);
        i := i + 1;
      }
    }

    // eachInRank, collecting what the callback is given.
    method EachInRank(lo: nat, hi: int) returns (out: seq<Pair>)
      requires Valid()
      ensures out == Clipped(Pairs(), lo, hi + 1)
    {
      out := [];
      var x := Skip(lo);
      if x != null {
        out := Collect(x, lo, hi);
      }
    }

    // eachInRank's second loop.
    method Collect(first: Node, lo: nat, hi: int) returns (out: seq<Pair>)
      requires Valid() && At(lo, first)
      ensures out == Clipped(Pairs(), lo, hi + 1)
    {
      ghost var ps := Pairs();
      out := [];
      var x: Node? := first;
      var i := lo;
      while i <= hi && x != null
        invariant lo <= i <= |ps| && At(i, x) && out == ps[lo..i]
        invariant i <= hi + 1 || i == lo
        decreases hi - i
      {
        OneMorePair(ps, lo, i);
        out := out + [x.pair];
        x := Next(x, i + 1);
        i := i + 1;
      }
      CollectedAll(ps, lo, i, hi);
    }

    ghost predicate At(i: nat, x: Node?)
      reads this
    {
      i < |nodes| && x == if i + 1 < |nodes| then nodes[i + 1] else null
    }
  }

  // s[lo..to], clipped to the sequence.
  ghost function Clipped<T>(s: seq<T>, lo: nat, to: int): (r: seq<T>) {
    if lo >= |s| || to <= lo then []
    else if to >= |s| then s[lo..] else s[lo..to]
  }

  lemma OneMorePair(ps: seq<Pair>, lo: nat, i: nat)
    requires lo <= i < |ps|
    ensures ps[lo..i + 1] == ps[lo..i] + [ps[i]]
  {
  }

  // Stopped past hi, or at the end.
  lemma CollectedAll(ps: seq<Pair>, lo: nat, i: nat, hi: int)
    requires lo <= i <= |ps| && (i <= hi + 1 || i == lo) && (i > hi || i == |ps|)
    ensures ps[lo..i] == Clipped(ps, lo, hi + 1)
  {
  }

  lemma Level0(ns: seq<Node>, ls: seq<seq<Node?>>, level: nat)
    requires WellFormed(ns, ls, level)
    ensures forall k :: 0 <= k < |ns| ==> |ls[k]| >= 1 && ls[k][0] == if k + 1 < |ns| then ns[k + 1] else null
  {
    assert LinkedAt(ns, ls, 0);
  }

  // Where a level's search loop stops.
  ghost predicate Stopped(ns: seq<Node>, l: nat, target: Pair, q: nat, u: Node) {
    && q < |ns| && u == ns[q] && l < u.height
    && (q == 0 || Less(u.pair, target))
    && (Succ(ns, l, q + 1) < |ns| ==> !Less(ns[Succ(ns, l, q + 1)].pair, target))
  }

  lemma StoppedIsPredecessor(ns: seq<Node>, l: nat, target: Pair, q: nat, u: Node)
    requires |ns| >= 1 && Sorted(PairsOf(ns[1..]))
    requires Stopped(ns, l, target, q, u)
    ensures Predecessor(ns, l, Rank(PairsOf(ns[1..]), target), q, u)
  {
    var s := PairsOf(ns[1..]);
    var p := Rank(s, target);
    RankSplits(s, target);
    assert q > 0 ==> s[q - 1] == u.pair;
    var k := Succ(ns, l, q + 1);
    assert k < |ns| ==> s[k - 1] == ns[k].pair;
  }

  lemma AllStopped(ns: seq<Node>, target: Pair, level: nat, qs: seq<nat>, update: seq<Node>)
    requires |ns| >= 1 && Sorted(PairsOf(ns[1..]))
    requires |qs| == |update| == level
    requires forall j :: 0 <= j < level ==> Stopped(ns, j, target, qs[j], update[j])
    ensures forall j :: 0 <= j < level ==> Predecessor(ns, j, Rank(PairsOf(ns[1..]), target), qs[j], update[j])
  {
    forall j | 0 <= j < level
      ensures Predecessor(ns, j, Rank(PairsOf(ns[1..]), target), qs[j], update[j])
    {
      StoppedIsPredecessor(ns, j, target, qs[j], update[j]);
    }
  }
}
