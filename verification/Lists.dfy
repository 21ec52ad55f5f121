// The list (internal/value/list.go): a pack that promotes to a doubly linked list.
module Lists {
  import opened ByteStrings
  import opened Varints
  import opened Packs
  import opened Limits

  class ListNode {
    const value: Blob
    var prev: ListNode?
    var next: ListNode?

    constructor (value: Blob, prev: ListNode?, next: ListNode?)
      ensures this.value == value && this.prev == prev && this.next == next
    {
      this.value, this.prev, this.next := value, prev, next;
    }
  }

  ghost function At(ns: seq<ListNode>, i: int): (n: ListNode?) {
    if 0 <= i < |ns| then ns[i] else null
  }

  // A node's links, as a value.
  datatype Links = Links(prev: ListNode?, next: ListNode?)

  ghost predicate Stored(ns: seq<ListNode>, ls: seq<Links>)
    reads ns
  {
    |ls| == |ns| && forall i {:trigger ls[i]} :: 0 <= i < |ns| ==> ls[i] == Links(ns[i].prev, ns[i].next)
  }

  // The i-th node points at its neighbours, or at nothing past the ends.
  ghost predicate Joined(ns: seq<ListNode>, i: int, l: Links) {
    l == Links(At(ns, i - 1), At(ns, i + 1))
  }

  ghost predicate Chained(ns: seq<ListNode>, ls: seq<Links>) {
    |ls| == |ns| && forall i :: 0 <= i < |ns| ==> Joined(ns, i, ls[i])
  }

  ghost predicate Distinct(ns: seq<ListNode>) {
    forall i, j :: 0 <= i < j < |ns| ==> ns[i] != ns[j]
  }

  // A chain of distinct nodes with its ends and its length.
  ghost predicate Shape(ns: seq<ListNode>, ls: seq<Links>, head: ListNode?, tail: ListNode?, length: int) {
    && Chained(ns, ls) && Distinct(ns)
    && head == At(ns, 0)
    && tail == At(ns, |ns| - 1)
    && length == |ns|
  }

  // The links of a chain that n joins at the front or the back, or that loses its first or
  // last node.
  ghost function PutFirst(n: ListNode, ns: seq<ListNode>, ls: seq<Links>): (rs: seq<Links>) {
    [Links(null, At(ns, 0))] + if ls == [] then ls else ls[0 := Links(n, ls[0].next)]
  }

  ghost function PutLast(n: ListNode, ns: seq<ListNode>, ls: seq<Links>): (rs: seq<Links>) {
    var k := |ls| - 1;
    (if ls == [] then ls else ls[k := Links(ls[k].prev, n)]) + [Links(At(ns, k), null)]
  }

  ghost function CutFirst(ls: seq<Links>): (rs: seq<Links>)
    requires ls != []
  {
    (if |ls| == 1 then ls else ls[1 := Links(null, ls[1].next)])[1..]
  }

  ghost function CutLast(ls: seq<Links>): (rs: seq<Links>)
    requires ls != []
  {
    var k := |ls| - 1;
    (if k == 0 then ls else ls[k - 1 := Links(ls[k - 1].prev, null)])[..k]
  }

  lemma ChainFirst(n: ListNode, ns: seq<ListNode>, ls: seq<Links>, tail: ListNode?)
    requires Shape(ns, ls, At(ns, 0), tail, |ns|) && n !in ns
    ensures Shape([n] + ns, PutFirst(n, ns, ls), n, if ns == [] then n else tail, |ns| + 1)
  {
    var r, rs := [n] + ns, PutFirst(n, ns, ls);
    forall i | 0 <= i < |r| ensures Joined(r, i, rs[i]) {
      if i > 0 {
        assert Joined(ns, i - 1, ls[i - 1]);
      }
    }
  }

  lemma ChainLast(n: ListNode, ns: seq<ListNode>, ls: seq<Links>, head: ListNode?)
    requires Shape(ns, ls, head, At(ns, |ns| - 1), |ns|) && n !in ns
    ensures Shape(ns + [n], PutLast(n, ns, ls), if ns == [] then n else head, n, |ns| + 1)
  {
    var r, rs := ns + [n], PutLast(n, ns, ls);
    forall i | 0 <= i < |r| ensures Joined(r, i, rs[i]) {
      if i < |ns| {
        assert Joined(ns, i, ls[i]);
      }
    }
  }

  lemma UnchainFirst(ns: seq<ListNode>, ls: seq<Links>, tail: ListNode?)
    requires Shape(ns, ls, At(ns, 0), tail, |ns|) && ns != []
    ensures Shape(ns[1..], CutFirst(ls), At(ns, 1), if |ns| == 1 then null else tail, |ns| - 1)
  {
    var r, rs := ns[1..], CutFirst(ls);
    forall i | 0 <= i < |r| ensures Joined(r, i, rs[i]) {
      assert Joined(ns, i + 1, ls[i + 1]);
    }
  }

  lemma UnchainLast(ns: seq<ListNode>, ls: seq<Links>, head: ListNode?)
    requires Shape(ns, ls, head, At(ns, |ns| - 1), |ns|) && ns != []
    ensures var k := |ns| - 1; Shape(ns[..k], CutLast(ls), if k == 0 then null else head, At(ns, k - 1), k)
  {
    var k := |ns| - 1;
    var r, rs := ns[..k], CutLast(ls);
    forall i | 0 <= i < |r| ensures Joined(r, i, rs[i]) {
      assert Joined(ns, i, ls[i]);
    }
  }

  ghost function ValuesOf(ns: seq<ListNode>): (s: seq<Blob>)
    ensures |s| == |ns| && forall i :: 0 <= i < |ns| ==> s[i] == ns[i].value
  {
    seq(|ns|, i requires 0 <= i < |ns| => ns[i].value)
  }

  ghost function Members(ns: seq<ListNode>): (r: set<ListNode>) {
    set n | n in ns
  }

  lemma Prepended(n: ListNode, ns: seq<ListNode>)
    ensures ValuesOf([n] + ns) == [n.value] + ValuesOf(ns)
    ensures Members([n] + ns) == {n} + Members(ns)
  {}

  lemma Appended(ns: seq<ListNode>, n: ListNode)
    ensures ValuesOf(ns + [n]) == ValuesOf(ns) + [n.value]
    ensures Members(ns + [n]) == Members(ns) + {n}
  {}

  lemma Rest(ns: seq<ListNode>)
    requires ns != []
    ensures ValuesOf(ns[1..]) == ValuesOf(ns)[1..]
    ensures Members(ns[1..]) <= Members(ns)
  {}

  lemma Front(ns: seq<ListNode>, k: nat)
    requires k <= |ns|
    ensures ValuesOf(ns[..k]) == ValuesOf(ns)[..k]
    ensures Members(ns[..k]) <= Members(ns)
  {}

  class FullList {
    var head: ListNode?
    var tail: ListNode?
    var length: nat
    ghost var nodes: seq<ListNode>
    ghost var links: seq<Links>

    ghost predicate Valid()
      reads this, nodes
    {
      Shape(nodes, links, head, tail, length) && Stored(nodes, links)
    }

    ghost function Elements(): (s: seq<Blob>)
      reads this
    {
      ValuesOf(nodes)
    }

    ghost function NodeSet(): (r: set<ListNode>)
      reads this
    {
      Members(nodes)
    }

    constructor ()
      ensures Valid() && Elements() == [] && nodes == []
    {
      head, tail, length, nodes, links := null, null, 0, [], [];
    }

    // The chain is now ns.
    method Become(ghost ns: seq<ListNode>, ghost ls: seq<Links>, newLength: nat)
      requires Shape(ns, ls, head, tail, newLength) && Stored(ns, ls)
      modifies this`nodes, this`links, this`length
      ensures Valid() && nodes == ns
    {
      nodes, links, length := ns, ls, newLength;
    }

    method LinkFirst(b: Blob) returns (n: ListNode)
      requires Valid()
      modifies this`head, this`tail, NodeSet()
      ensures fresh(n) && n.value == b && head == n && tail == if nodes == [] then n else old(tail)
      ensures Stored([n] + nodes, PutFirst(n, nodes, links))
    {
      n := new ListNode(b, null, head);
      if head != null {
        head.prev := n;
      } else {
        tail := n;
      }
      head := n;
    }

    method PushFront(b: Blob)
      requires Valid()
      modifies this, NodeSet()
      ensures Valid() && Elements() == [b] + old(Elements())
      ensures fresh(NodeSet() - old(NodeSet()))
    {
      ghost var ns, ls, last := nodes, links, tail;
      var n := LinkFirst(b);
      ChainFirst(n, ns, ls, last);
      Become([n] + ns, PutFirst(n, ns, ls), length + 1);
      Prepended(n, ns);
    }

    method LinkLast(b: Blob) returns (n: ListNode)
      requires Valid()
      modifies this`head, this`tail, NodeSet()
      ensures fresh(n) && n.value == b && tail == n && head == if nodes == [] then n else old(head)
      ensures Stored(nodes + [n], PutLast(n, nodes, links))
    {
      n := new ListNode(b, tail, null);
      if tail != null {
        tail.next := n;
      } else {
        head := n;
      }
      tail := n;
    }

    method PushBack(b: Blob)
      requires Valid()
      modifies this, NodeSet()
      ensures Valid() && Elements() == old(Elements()) + [b]
      ensures fresh(NodeSet() - old(NodeSet()))
    {
      ghost var ns, ls, first := nodes, links, head;
      var n := LinkLast(b);
      ChainLast(n, ns, ls, first);
      Become(ns + [n], PutLast(n, ns, ls), length + 1);
      Appended(ns, n);
    }

    method UnlinkFirst()
      requires Valid() && head != null
      modifies this`head, this`tail, NodeSet()
      ensures head == At(nodes, 1) && tail == if |nodes| == 1 then null else old(tail)
      ensures Stored(nodes[1..], CutFirst(links))
    {
      assert Joined(nodes, 0, links[0]);
      head := head.next;
      if head != null {
        head.prev := null;
      } else {
        tail := null;
      }
    }

    method PopFront() returns (b: Blob, ok: bool)
      requires Valid()
      modifies this, NodeSet()
      ensures Valid() && ok == (old(Elements()) != [])
      ensures ok ==> b == old(Elements())[0] && Elements() == old(Elements())[1..]
      ensures !ok ==> Elements() == []
      ensures NodeSet() <= old(NodeSet())
    {
      if head == null {
        return [], false;
      }
      ghost var ns, ls, last := nodes, links, tail;
      b, ok := head.value, true;
      UnlinkFirst();
      UnchainFirst(ns, ls, last);
      Become(ns[1..], CutFirst(ls), length - 1);
      Rest(ns);
    }

    method UnlinkLast()
      requires Valid() && tail != null
      modifies this`head, this`tail, NodeSet()
      ensures tail == At(nodes, |nodes| - 2) && head == if |nodes| == 1 then null else old(head)
      ensures Stored(nodes[..|nodes| - 1], CutLast(links))
    {
      assert Joined(nodes, |nodes| - 1, links[|nodes| - 1]);
      tail := tail.prev;
      if tail != null {
        tail.next := null;
      } else {
        head := null;
      }
    }

    method PopBack() returns (b: Blob, ok: bool)
      requires Valid()
      modifies this, NodeSet()
      ensures Valid() && ok == (old(Elements()) != [])
      ensures ok ==> var s := old(Elements()); b == s[|s| - 1] && Elements() == s[..|s| - 1]
      ensures !ok ==> Elements() == []
      ensures NodeSet() <= old(NodeSet())
    {
      if tail == null {
        return [], false;
      }
      ghost var ns, ls, first, k := nodes, links, head, |nodes| - 1;
      b, ok := tail.value, true;
      UnlinkLast();
      UnchainLast(ns, ls, first);
      Become(ns[..k], CutLast(ls), length - 1);
      Front(ns, k);
    }

    // rangeElems's first loop.
    method Skip(lo: nat) returns (n: ListNode?)
      requires Valid() && lo <= |nodes|
      ensures n == At(nodes, lo)
    {
      n := head;
      for i := 0 to lo
        invariant n == At(nodes, i)
      {
        assert Joined(nodes, i, links[i]);
        n := n.next;
      }
    }

    // rangeElems's second loop.
    method Collect(first: ListNode?, lo: nat, hi: nat) returns (out: seq<Blob>)
      requires Valid() && first == At(nodes, lo) && lo <= hi < |nodes|
      ensures out == Elements()[lo..hi + 1]
    {
      out := [];
      var n := first;
      for i := lo to hi + 1
        invariant n == At(nodes, i)
        invariant out == Elements()[lo..i]
      {
        assert Joined(nodes, i, links[i]);
        out := out + [n.value];
        n := n.next;
      }
    }

    method RangeElems(start: int, stop: int) returns (out: seq<Blob>)
      requires Valid()
      ensures out == Selected(Elements(), start, stop) && IsWindow(Elements(), start, stop, out)
    {
      SelectedIsWindow(Elements(), start, stop);
      match NormalizeRange(start, stop, length)
      case Empty =>
        out := [];
      case Span(lo, hi) =>
        var n := Skip(lo);
        out := Collect(n, lo, hi);
    }
  }

  lemma SuffixSlices(b: Bytes, off: nat, h: Bytes, e: Bytes, tail: Bytes)
    requires off <= |b| && b[off..] == h + e + tail
    ensures var d := off + |h|; d + |e| <= |b| && b[d..d + |e|] == e && b[d + |e|..] == tail
  {
    var d := off + |h|;
    assert b[d..d + |e|] == b[off..][|h|..|h| + |e|];
    assert b[d + |e|..] == b[off..][|h| + |e|..];
  }

  // Where the k-th element starts and where its bytes lie.
  ghost predicate FoundAt(elems: seq<Blob>, pack: Bytes, k: nat, start: nat, dataOff: nat, dataLen: nat)
    requires k < |elems|
  {
    && start == |PackOf(elems[..k])| && start <= dataOff && dataOff + dataLen <= |pack|
    && pack[dataOff..dataOff + dataLen] == elems[k]
  }

  // One step of PopBack's scan, standing before the k-th element.
  lemma ScanStep(elems: seq<Blob>, pack: Bytes, k: nat, off: nat)
    requires pack == PackOf(elems) && k <= |elems| && off < |pack| && off == |PackOf(elems[..k])|
    requires pack[off..] == PackOf(elems[k..])
    ensures
      var head := ReadUvarint(pack[off..]);
      && k < |elems| && head.Value? && |head.rest| <= |pack| - off
      && var data := |pack| - |head.rest|;
      && FoundAt(elems, pack, k, off, data, head.value)
      && data + head.value == |PackOf(elems[..k + 1])|
      && pack[data + head.value..] == PackOf(elems[k + 1..])
  {
    PackHead(elems[k..]);
    assert elems[k..][0] == elems[k] && elems[k..][1..] == elems[k + 1..];
    PackSplit(elems, k + 1);
    assert elems[..k + 1] == elems[..k] + [elems[k]];
    PackAppend(elems[..k], elems[k]);
    var tail := PackOf(elems[k + 1..]);
    SuffixSlices(pack, off, Uvarint(|elems[k]|), elems[k], tail);
  }

  // PopBack's scan for the last element: where it starts and where its bytes lie.
  method FindLast(pack: Bytes, ghost elems: seq<Blob>) returns (lastOff: nat, dataOff: nat, dataLen: nat)
    requires pack == PackOf(elems) && elems != []
    ensures lastOff <= dataOff && dataOff + dataLen <= |pack|
    ensures var k := |elems| - 1; pack[dataOff..dataOff + dataLen] == elems[k] && pack[..lastOff] == PackOf(elems[..k])
  {
    lastOff, dataOff, dataLen := 0, 0, 0;
    var off := 0;
    ghost var k := 0;
    while off < |pack|
      invariant k <= |elems| && off <= |pack| && off == |PackOf(elems[..k])|
      invariant pack[off..] == PackOf(elems[k..])
      invariant k > 0 ==> FoundAt(elems, pack, k - 1, lastOff, dataOff, dataLen)
      decreases |pack| - off
    {
      ScanStep(elems, pack, k, off);
      var head := ReadUvarint(pack[off..]);
      var w := |pack| - off - |head.rest|;
      lastOff, dataOff, dataLen := off, off + w, head.value;
      off := off + w + head.value;
      k := k + 1;
    }
    assert k == |elems|;
    PackSplit(elems, k - 1);
  }

  class List {
    var pack: Bytes
    var count: nat
    var full: FullList?
    const max: Thresholds
    // What the packed bytes spell out, while packed.
    ghost var elems: seq<Blob>

    // The abstract value.
    ghost function Elements(): (s: seq<Blob>)
      reads this, full
    {
      if full == null then elems else full.Elements()
    }

    ghost function Repr(): (r: set<object>)
      reads this, full
    {
      {this} + if full == null then {} else {full} + full.NodeSet()
    }

    ghost predicate Packed()
      reads this
    {
      full == null && pack == PackOf(elems) && count == |elems|
    }

    // A list that is still packed is within its thresholds.
    ghost predicate Small()
      reads this
    {
      && (count > 0 ==> count <= max.maxEntries)
      && forall i :: 0 <= i < |elems| ==> |elems[i]| <= max.maxBytes
    }

    ghost predicate Valid()
      reads this, full, Repr()
    {
      if full == null then Packed() && Small()
      else full.Valid() && pack == [] && count == 0
    }

    constructor (max: Thresholds)
      ensures Valid() && Elements() == [] && full == null && this.max == max
    {
      this.max := max;
      pack, count, full, elems := [], 0, null, [];
    }

    method Len() returns (n: nat)
      requires Valid()
      ensures n == |Elements()|
    {
      n := if full != null then full.length else count;
    }

    // promote's scan, pushing every packed element onto a fresh linked list.
    static method Load(packed: Bytes, ghost es: seq<Blob>) returns (f: FullList)
      requires packed == PackOf(es)
      ensures f.Valid() && f.Elements() == es && fresh(f) && fresh(f.NodeSet())
    {
      f := new FullList();
      var buf := packed;
      ghost var k := 0;
      while buf != []
        invariant k <= |es| && buf == PackOf(es[k..])
        invariant f.Valid() && f.Elements() == es[..k] && fresh(f) && fresh(f.NodeSet())
        decreases |buf|
      {
        var e;
        e, buf := ReadElement(buf, es, k);
        assert es[..k + 1] == es[..k] + [es[k]];
        f.PushBack(e);
        k := k + 1;
      }
    }

    method Promote()
      requires Packed()
      modifies this
      ensures Valid() && full != null && fresh(Repr() - {this})
      ensures Elements() == old(elems)
    {
      var f := Load(pack, elems);
      full := f;
      pack, count := [], 0;
    }

    method PromoteIfNeeded(elemSize: nat)
      requires Packed()
      requires forall i :: 0 <= i < |elems| ==> |elems[i]| <= max.maxBytes || |elems[i]| == elemSize
      modifies this
      ensures Valid() && fresh(Repr() - {this})
      ensures Elements() == old(elems)
      ensures full == null <==> |old(elems)| <= max.maxEntries && elemSize <= max.maxBytes
    {
      if max.Exceeded(count, elemSize) {
        Promote();
      }
    }

    method PushFront(b: Blob)
      requires Valid()
      modifies Repr()
      ensures Valid() && fresh(Repr() - old(Repr()))
      ensures Elements() == [b] + old(Elements())
      ensures old(full) != null ==> full == old(full)
      ensures full == null <==> old(full) == null && |Elements()| <= max.maxEntries && |b| <= max.maxBytes
    {
      if full != null {
        full.PushFront(b);
        return;
      }
      pack := Element(b) + pack;
      count := count + 1;
      elems := [b] + elems;
      PromoteIfNeeded(|b|);
    }

    method PushBack(b: Blob)
      requires Valid()
      modifies Repr()
      ensures Valid() && fresh(Repr() - old(Repr()))
      ensures Elements() == old(Elements()) + [b]
      ensures old(full) != null ==> full == old(full)
      ensures full == null <==> old(full) == null && |Elements()| <= max.maxEntries && |b| <= max.maxBytes
    {
      if full != null {
        full.PushBack(b);
        return;
      }
      PackAppend(elems, b);
      pack := pack + Element(b);
      count := count + 1;
      elems := elems + [b];
      PromoteIfNeeded(|b|);
    }

    method PopFront() returns (b: Blob, ok: bool)
      requires Valid()
      modifies Repr()
      ensures Valid() && Repr() <= old(Repr()) && full == old(full)
      ensures ok == (old(Elements()) != [])
      ensures ok ==> b == old(Elements())[0] && Elements() == old(Elements())[1..]
      ensures !ok ==> Elements() == []
    {
      if full != null {
        b, ok := full.PopFront();
        return;
      }
      if count == 0 {
        return [], false;
      }
      assert elems[0..] == elems;
      b, pack := ReadElement(pack, elems, 0);
      count := count - 1;
      elems := elems[1..];
      ok := true;
    }

    method PopBack() returns (b: Blob, ok: bool)
      requires Valid()
      modifies Repr()
      ensures Valid() && Repr() <= old(Repr()) && full == old(full)
      ensures ok == (old(Elements()) != [])
      ensures ok ==> var s := old(Elements()); b == s[|s| - 1] && Elements() == s[..|s| - 1]
      ensures !ok ==> Elements() == []
    {
      if full != null {
        b, ok := full.PopBack();
        return;
      }
      if count == 0 {
        return [], false;
      }
      var lastOff, dataOff, dataLen := FindLast(pack, elems);
      b := pack[dataOff..dataOff + dataLen];
      pack := pack[..lastOff];
      count := count - 1;
      elems := elems[..|elems| - 1];
      ok := true;
    }

    method PackedRange(lo: nat, hi: nat) returns (out: seq<Blob>)
      requires Packed() && lo <= hi < |elems|
      ensures out == elems[lo..hi + 1]
    {
      out := [];
      var buf, i := pack, 0;
      while buf != [] && i <= hi
        invariant i <= hi + 1 && buf == PackOf(elems[i..])
        invariant out == if i <= lo then [] else elems[lo..i]
        decreases |buf|
      {
        var e;
        e, buf := ReadElement(buf, elems, i);
        if i >= lo {
          out := out + [e];
        }
        i := i + 1;
      }
    }

    method Range(start: int, stop: int) returns (out: seq<Blob>)
      requires Valid()
      ensures out == Selected(Elements(), start, stop) && IsWindow(Elements(), start, stop, out)
    {
      SelectedIsWindow(Elements(), start, stop);
      if full != null {
        out := full.RangeElems(start, stop);
        return;
      }
      match NormalizeRange(start, stop, count)
      case Empty =>
        out := [];
      case Span(lo, hi) =>
        out := PackedRange(lo, hi);
    }
  }
}
