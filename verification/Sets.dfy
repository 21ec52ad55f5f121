// The set (internal/value/set.go): a pack of distinct members that promotes to a map.
module Sets {
  import opened ByteStrings
  import opened Varints
  import opened Packs
  import opened Limits

  datatype FullSet = NotPromoted | Promoted(members: set<Blob>)

  // es lists the members of s once each, in some order.
  ghost predicate Enumerates(es: seq<Blob>, s: set<Blob>) {
    && (forall i, j :: 0 <= i < j < |es| ==> es[i] != es[j])
    && (forall e :: e in es <==> e in s)
  }

  lemma {:induction false} EnumerationSize(es: seq<Blob>, s: set<Blob>)
    requires Enumerates(es, s)
    ensures |es| == |s|
    decreases |es|
  {
    if es == [] {
      assert s == {};
    } else {
      var k := |es| - 1;
      EnumerationFront(es, s);
      EnumerationSize(es[..k], s - {es[k]});
    }
  }

  lemma EnumerationFront(es: seq<Blob>, s: set<Blob>)
    requires Enumerates(es, s) && es != []
    ensures var k := |es| - 1; es[k] in s && Enumerates(es[..k], s - {es[k]})
  {
    var k := |es| - 1;
    assert es == es[..k] + [es[k]];
    assert es[k] in es;
    forall e ensures e in es[..k] <==> e in s - {es[k]} {
      assert e in es <==> e in s;
    }
  }

  lemma EnumerationAppend(es: seq<Blob>, s: set<Blob>, e: Blob)
    requires Enumerates(es, s) && e !in s
    ensures Enumerates(es + [e], s + {e})
  {
    forall x ensures x in es + [e] <==> x in s + {e} {
      assert x in es <==> x in s;
    }
    forall i, j | 0 <= i < j < |es + [e]| ensures (es + [e])[i] != (es + [e])[j] {
      assert es[i] in es;
    }
  }

  class Set {
    var pack: Bytes
    var count: nat
    var full: FullSet
    const max: Thresholds
    // What the packed bytes spell out, while packed.
    ghost var elems: seq<Blob>
    // The abstract value.
    ghost var contents: set<Blob>

    ghost predicate Packed()
      reads this
    {
      full.NotPromoted? && pack == PackOf(elems) && count == |elems| && Enumerates(elems, contents)
    }

    // A set that is still packed is within its thresholds.
    ghost predicate Small()
      reads this
    {
      && (count > 0 ==> count <= max.maxEntries)
      && forall e :: e in contents ==> |e| <= max.maxBytes
    }

    ghost predicate Valid()
      reads this
    {
      match full
      case NotPromoted => Packed() && Small()
      case Promoted(members) => members == contents && pack == [] && count == 0
    }

    constructor (max: Thresholds)
      ensures Valid() && contents == {} && full.NotPromoted? && this.max == max
    {
      this.max := max;
      pack, count, full := [], 0, NotPromoted;
      elems, contents := [], {};
    }

    method Len() returns (n: nat)
      requires Valid()
      ensures n == |contents|
    {
      match full
      case NotPromoted =>
        EnumerationSize(elems, contents);
        n := count;
      case Promoted(members) =>
        n := |members|;
    }

    method ScanContains(member: Blob) returns (found: bool)
      requires Packed()
      ensures found == (member in contents)
    {
      var buf := pack;
      ghost var k := 0;
      while buf != []
        invariant k <= |elems| && buf == PackOf(elems[k..])
        invariant member !in elems[..k]
        decreases |buf|
      {
        var e;
        e, buf := ReadElement(buf, elems, k);
        if e == member {
          return true;
        }
        k := k + 1;
      }
      assert elems[..k] == elems;
      found := false;
    }

    method Contains(member: Blob) returns (found: bool)
      requires Valid()
      ensures found == (member in contents)
    {
      match full
      case NotPromoted => found := ScanContains(member);
      case Promoted(members) => found := member in members;
    }

    // promote's scan.
    method Load() returns (members: set<Blob>)
      requires Packed()
      ensures members == contents
    {
      members := {};
      var buf := pack;
      ghost var k := 0;
      while buf != []
        invariant k <= |elems| && buf == PackOf(elems[k..])
        invariant forall e :: e in members <==> e in elems[..k]
        decreases |buf|
      {
        var e;
        e, buf := ReadElement(buf, elems, k);
        members := members + {e};
        k := k + 1;
      }
      assert elems[..k] == elems;
    }

    method Promote()
      requires Packed()
      modifies this
      ensures Valid() && full.Promoted? && contents == old(contents)
    {
      var members := Load();
      full := Promoted(members);
      pack, count := [], 0;
    }

    method Add(member: Blob) returns (added: bool)
      requires Valid()
      modifies this
      ensures Valid() && contents == old(contents) + {member}
      ensures added == (member !in old(contents))
      ensures full.NotPromoted? <==>
        && old(full).NotPromoted?
        && (member in old(contents) || (|contents| <= max.maxEntries && |member| <= max.maxBytes))
    {
      if full.Promoted? {
        added := member !in full.members;
        full := Promoted(full.members + {member});
        contents := contents + {member};
        return;
      }
      var found := ScanContains(member);
      if found {
        return false;
      }
      Append(member);
      if max.Exceeded(count, |member|) {
        Promote();
      }
      added := true;
    }

    method Append(member: Blob)
      requires Packed() && member !in contents
      modifies this
      ensures Packed() && contents == old(contents) + {member} && count == |contents|
    {
      PackAppend(elems, member);
      EnumerationAppend(elems, contents, member);
      pack := pack + Element(member);
      count := count + 1;
      elems, contents := elems + [member], contents + {member};
      EnumerationSize(elems, contents);
    }

    // Remove's scan: what is packed without `member`.
    method Filter(member: Blob) returns (rebuilt: Bytes, found: bool, ghost kept: seq<Blob>)
      requires Packed()
      ensures found == (member in contents)
      ensures rebuilt == PackOf(kept) && Enumerates(kept, contents - {member})
    {
      rebuilt, found, kept := [], false, [];
      var buf := pack;
      ghost var k := 0;
      while buf != []
        invariant k <= |elems| && buf == PackOf(elems[k..])
        invariant found == (member in elems[..k])
        invariant rebuilt == PackOf(kept)
        invariant forall e :: e in kept <==> e in elems[..k] && e != member
        invariant forall i, j :: 0 <= i < j < |kept| ==> kept[i] != kept[j]
        decreases |buf|
      {
        var e;
        e, buf := ReadElement(buf, elems, k);
        assert elems[..k + 1] == elems[..k] + [e];
        assert e !in elems[..k];
        if e == member {
          found := true;
        } else {
          assert e !in kept;
          PackAppend(kept, e);
          rebuilt := rebuilt + Element(e);
          kept := kept + [e];
        }
        k := k + 1;
      }
      assert elems[..k] == elems;
    }

    method Remove(member: Blob) returns (removed: bool)
      requires Valid()
      modifies this
      ensures Valid() && contents == old(contents) - {member}
      ensures removed == (member in old(contents))
      ensures full.Promoted? == old(full).Promoted?
    {
      if full.Promoted? {
        removed := member in full.members;
        full := Promoted(full.members - {member});
        contents := contents - {member};
        return;
      }
      var rebuilt, found, kept := Filter(member);
      if !found {
        return false;
      }
      EnumerationSize(elems, contents);
      EnumerationSize(kept, contents - {member});
      pack := rebuilt;
      count := count - 1;
      elems, contents := kept, contents - {member};
      removed := true;
    }

    // The order in which a map is ranged over is unspecified.
    static method ListAll(members: set<Blob>) returns (out: seq<Blob>)
      ensures Enumerates(out, members)
    {
      out := [];
      var left := members;
      while left != {}
        invariant left <= members && Enumerates(out, members - left)
        decreases |left|
      {
        var e :| e in left;
        EnumerationAppend(out, members - left, e);
        assert members - left + {e} == members - (left - {e});
        out, left := out + [e], left - {e};
      }
      assert members - left == members;
    }

    method Members() returns (out: seq<Blob>)
      requires Valid()
      ensures Enumerates(out, contents)
    {
      if full.Promoted? {
        out := ListAll(full.members);
        return;
      }
      out := [];
      var buf := pack;
      while buf != []
        invariant |out| <= |elems| && out == elems[..|out|] && buf == PackOf(elems[|out|..])
        decreases |buf|
      {
        var e;
        e, buf := ReadElement(buf, elems, |out|);
        out := out + [e];
      }
    }
  }
}
