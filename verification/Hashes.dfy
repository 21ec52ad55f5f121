// The hash (internal/value/hash.go): a pack of alternating fields and values that
// promotes to a map.
module Hashes {
  import opened ByteStrings
  import opened Varints
  import opened Packs
  import opened Limits

  datatype Entry = Entry(field: Blob, value: Blob)

  datatype FullHash = NotPromoted | Promoted(fields: map<Blob, Blob>)

  // The flat element sequence field0, value0, field1, value1, ...
  function Flat(es: seq<Entry>): (r: seq<Blob>) {
    if es == [] then [] else [es[0].field, es[0].value] + Flat(es[1..])
  }

  lemma {:induction false} FlatAppend(es: seq<Entry>, e: Entry)
    ensures Flat(es + [e]) == Flat(es) + [e.field, e.value]
  {
    if es == [] {
      assert es + [e] == [e];
    } else {
      assert (es + [e])[0] == es[0] && (es + [e])[1..] == es[1..] + [e];
      FlatAppend(es[1..], e);
    }
  }

  lemma PackFlatAppend(es: seq<Entry>, e: Entry)
    ensures PackOf(Flat(es + [e])) == PackOf(Flat(es)) + Element(e.field) + Element(e.value)
  {
    FlatAppend(es, e);
    PackAppend(Flat(es), e.field);
    PackAppend(Flat(es) + [e.field], e.value);
    assert Flat(es) + [e.field, e.value] == Flat(es) + [e.field] + [e.value];
  }

  // One pair of scanPairs, standing before the k-th.
  method ReadEntry(buf: Bytes, ghost es: seq<Entry>, ghost k: nat) returns (e: Entry, rest: Bytes)
    requires k <= |es| && buf == PackOf(Flat(es[k..])) && buf != []
    ensures k < |es| && e == es[k] && rest == PackOf(Flat(es[k + 1..])) && |rest| < |buf|
  {
    ghost var flat := Flat(es[k..]);
    assert es[k..][1..] == es[k + 1..];
    assert flat == [es[k].field, es[k].value] + Flat(es[k + 1..]);
    assert flat[0..] == flat && flat[2..] == Flat(es[k + 1..]) && flat[1..] != [];
    var field, value;
    field, rest := ReadElement(buf, flat, 0);
    value, rest := ReadElement(rest, flat, 1);
    e := Entry(field, value);
  }

  // es lists the entries of m, one per field, in some order.
  ghost predicate Enumerates(es: seq<Entry>, m: map<Blob, Blob>) {
    && (forall i, j :: 0 <= i < j < |es| ==> es[i].field != es[j].field)
    && (forall e :: e in es <==> Holds(m, e))
  }

  ghost predicate Holds(m: map<Blob, Blob>, e: Entry) {
    e.field in m && m[e.field] == e.value
  }

  lemma {:induction false} EnumerationSize(es: seq<Entry>, m: map<Blob, Blob>)
    requires Enumerates(es, m)
    ensures |es| == |m|
    decreases |es|
  {
    if es == [] {
      if f :| f in m {
        EveryFieldListed(es, m, f);
      }
      assert m == map[];
    } else {
      var k := |es| - 1;
      EnumerationFront(es, m);
      EnumerationSize(es[..k], m - {es[k].field});
      assert (m - {es[k].field}).Keys == m.Keys - {es[k].field};
      assert |m.Keys| == |m| && |(m - {es[k].field}).Keys| == |m - {es[k].field}|;
    }
  }

  lemma EveryFieldListed(es: seq<Entry>, m: map<Blob, Blob>, f: Blob)
    requires Enumerates(es, m) && f in m
    ensures exists i :: 0 <= i < |es| && es[i] == Entry(f, m[f])
  {
    assert Holds(m, Entry(f, m[f]));
  }

  lemma EnumerationFront(es: seq<Entry>, m: map<Blob, Blob>)
    requires Enumerates(es, m) && es != []
    ensures var k := |es| - 1; es[k].field in m && Enumerates(es[..k], m - {es[k].field})
  {
    var k := |es| - 1;
    var m' := m - {es[k].field};
    assert es == es[..k] + [es[k]];
    assert es[k] in es;
    forall e ensures e in es[..k] <==> Holds(m', e) {
      assert e in es <==> Holds(m, e);
      if e in es[..k] {
        var i :| 0 <= i < k && es[i] == e;
      }
    }
  }

  lemma EnumerationAppend(es: seq<Entry>, m: map<Blob, Blob>, e: Entry)
    requires Enumerates(es, m) && e.field !in m
    ensures Enumerates(es + [e], m[e.field := e.value])
  {
    var t, m' := es + [e], m[e.field := e.value];
    forall x ensures x in t <==> Holds(m', x) {
      assert x in es <==> Holds(m, x);
    }
    forall i, j | 0 <= i < j < |t| ensures t[i].field != t[j].field {
      assert es[i] in es;
    }
  }

  // Replacing a field's value in place.
  lemma EnumerationReplace(es: seq<Entry>, m: map<Blob, Blob>, e: Entry, t: seq<Entry>)
    requires Enumerates(es, m) && e.field in m && |t| == |es|
    requires forall i :: 0 <= i < |es| ==> t[i] == if es[i].field == e.field then e else es[i]
    ensures Enumerates(t, m[e.field := e.value])
  {
    var m' := m[e.field := e.value];
    forall x ensures x in t <==> Holds(m', x) {
      if x in t {
        var i :| 0 <= i < |t| && t[i] == x;
        assert es[i] in es;
      }
      if Holds(m', x) {
        EveryFieldListed(es, m, x.field);
        var i :| 0 <= i < |es| && es[i] == Entry(x.field, m[x.field]);
        assert t[i] == x;
      }
    }
  }

  ghost function Without(es: seq<Entry>, f: Blob): (r: seq<Entry>) {
    if es == [] then []
    else
      var k := |es| - 1;
      if es[k].field == f then Without(es[..k], f) else Without(es[..k], f) + [es[k]]
  }

  lemma WithoutStep(es: seq<Entry>, k: nat, f: Blob)
    requires k < |es|
    ensures Without(es[..k + 1], f) ==
      if es[k].field == f then Without(es[..k], f) else Without(es[..k], f) + [es[k]]
  {
    assert es[..k + 1][..k] == es[..k];
  }

  // Some entry is for this field.
  ghost predicate Names(es: seq<Entry>, f: Blob) {
    exists i :: 0 <= i < |es| && es[i].field == f
  }

  lemma NamesStep(es: seq<Entry>, k: nat, f: Blob)
    ensures k < |es| ==> (Names(es[..k + 1], f) <==> Names(es[..k], f) || es[k].field == f)
  {
    if k < |es| {
      assert es[..k + 1] == es[..k] + [es[k]];
      assert es[k].field == f ==> es[..k + 1][k].field == f;
    }
  }

  ghost function Replacement(e: Entry, f: Blob, v: Blob): (r: Entry) {
    if e.field == f then Entry(f, v) else e
  }

  // The entries with the new value under f.
  ghost function Replaced(es: seq<Entry>, f: Blob, v: Blob): (r: seq<Entry>)
    ensures |r| == |es| && forall i :: 0 <= i < |es| ==> r[i] == Replacement(es[i], f, v)
  {
    seq(|es|, i requires 0 <= i < |es| => Replacement(es[i], f, v))
  }

  // One turn of Set's scan.
  lemma RebuildStep(es: seq<Entry>, k: nat, f: Blob, v: Blob)
    requires k < |es|
    ensures
      var e := Replacement(es[k], f, v);
      PackOf(Flat(Replaced(es[..k + 1], f, v)))
        == PackOf(Flat(Replaced(es[..k], f, v))) + Element(e.field) + Element(e.value)
    ensures Names(es[..k + 1], f) <==> Names(es[..k], f) || es[k].field == f
  {
    assert Replaced(es[..k + 1], f, v) == Replaced(es[..k], f, v) + [Replacement(es[k], f, v)];
    PackFlatAppend(Replaced(es[..k], f, v), Replacement(es[k], f, v));
    NamesStep(es, k, f);
  }

  // One turn of Delete's scan.
  lemma FilterStep(es: seq<Entry>, k: nat, f: Blob)
    requires k < |es|
    ensures PackOf(Flat(Without(es[..k + 1], f))) ==
      if es[k].field == f then PackOf(Flat(Without(es[..k], f)))
      else PackOf(Flat(Without(es[..k], f))) + Element(es[k].field) + Element(es[k].value)
    ensures Names(es[..k + 1], f) <==> Names(es[..k], f) || es[k].field == f
  {
    WithoutStep(es, k, f);
    PackFlatAppend(Without(es[..k], f), es[k]);
    NamesStep(es, k, f);
  }

  lemma NamesListed(es: seq<Entry>, m: map<Blob, Blob>, f: Blob)
    requires Enumerates(es, m)
    ensures Names(es, f) <==> f in m
  {
    if f in m {
      EveryFieldListed(es, m, f);
    }
    forall i | 0 <= i < |es| ensures es[i].field in m {
      assert es[i] in es;
    }
  }

  lemma {:induction false} WithoutEnumerates(es: seq<Entry>, m: map<Blob, Blob>, f: Blob)
    requires Enumerates(es, m)
    ensures Enumerates(Without(es, f), m - {f})
    ensures |Without(es, f)| == if f in m then |es| - 1 else |es|
    decreases |es|
  {
    if es == [] {
      EnumerationSize(es, m);
    } else {
      var k := |es| - 1;
      var e := es[k];
      EnumerationFront(es, m);
      assert e in es;
      var m' := m - {e.field};
      WithoutEnumerates(es[..k], m', f);
      if e.field == f {
        assert m' - {f} == m - {f};
      } else {
        EnumerationAppend(Without(es[..k], f), m' - {f}, e);
        assert (m' - {f})[e.field := e.value] == m - {f};
      }
    }
  }

  class Hash {
    var pack: Bytes
    var count: nat
    var full: FullHash
    const max: Thresholds
    // What the packed bytes spell out, while packed.
    ghost var entries: seq<Entry>
    // The abstract value.
    ghost var contents: map<Blob, Blob>

    ghost predicate Packed()
      reads this
    {
      && full.NotPromoted? && pack == PackOf(Flat(entries)) && count == |entries|
      && Enumerates(entries, contents)
    }

    // A hash that is still packed is within its thresholds.
    ghost predicate Small()
      reads this
    {
      && (count > 0 ==> count <= max.maxEntries)
      && forall f :: f in contents ==> |f| <= max.maxBytes && |contents[f]| <= max.maxBytes
    }

    ghost predicate Valid()
      reads this
    {
      match full
      case NotPromoted => Packed() && Small()
      case Promoted(fields) => fields == contents && pack == [] && count == 0
    }

    constructor (max: Thresholds)
      ensures Valid() && contents == map[] && full.NotPromoted? && this.max == max
    {
      this.max := max;
      pack, count, full := [], 0, NotPromoted;
      entries, contents := [], map[];
    }

    method Len() returns (n: nat)
      requires Valid()
      ensures n == |contents|
    {
      match full
      case NotPromoted =>
        EnumerationSize(entries, contents);
        n := count;
      case Promoted(fields) =>
        n := |fields|;
    }

    method Get(field: Blob) returns (value: Blob, found: bool)
      requires Valid()
      ensures found == (field in contents)
      ensures found ==> value == contents[field]
    {
      value, found := [], false;
      if full.Promoted? {
        if field in full.fields {
          value, found := full.fields[field], true;
        }
        return;
      }
      var buf := pack;
      ghost var k := 0;
      while buf != []
        invariant k <= |entries| && buf == PackOf(Flat(entries[k..]))
        invariant forall i :: 0 <= i < k ==> entries[i].field != field
        decreases |buf|
      {
        var e;
        e, buf := ReadEntry(buf, entries, k);
        if e.field == field {
          assert Holds(contents, e);
          return e.value, true;
        }
        k := k + 1;
      }
      if field in contents {
        EveryFieldListed(entries, contents, field);
      }
    }

    // Set's scan: every entry copied, with the new value under `field`.
    method Rebuild(field: Blob, val: Blob) returns (rebuilt: Bytes, existed: bool)
      requires Packed()
      ensures rebuilt == PackOf(Flat(Replaced(entries, field, val)))
      ensures existed == (field in contents)
    {
      rebuilt, existed := [], false;
      var buf := pack;
      ghost var k := 0;
      while buf != []
        invariant k <= |entries| && buf == PackOf(Flat(entries[k..]))
        invariant rebuilt == PackOf(Flat(Replaced(entries[..k], field, val)))
        invariant existed == Names(entries[..k], field)
        decreases |buf|
      {
        var e;
        e, buf := ReadEntry(buf, entries, k);
        RebuildStep(entries, k, field, val);
        if e.field == field {
          existed := true;
          e := Entry(field, val);
        }
        rebuilt := rebuilt + Element(e.field) + Element(e.value);
        k := k + 1;
      }
      assert entries[..k] == entries;
      NamesListed(entries, contents, field);
    }

    method Load() returns (fields: map<Blob, Blob>)
      requires Packed()
      ensures fields == contents
    {
      fields := map[];
      var buf := pack;
      ghost var k := 0;
      while buf != []
        invariant k <= |entries| && buf == PackOf(Flat(entries[k..]))
        invariant forall i :: 0 <= i < k ==> entries[i].field in fields
        invariant forall f :: f in fields ==> f in contents && fields[f] == contents[f]
        decreases |buf|
      {
        var e;
        e, buf := ReadEntry(buf, entries, k);
        assert Holds(contents, e);
        fields := fields[e.field := e.value];
        k := k + 1;
      }
      forall f | f in contents ensures f in fields {
        EveryFieldListed(entries, contents, f);
      }
    }

    method Promote()
      requires Packed()
      modifies this
      ensures Valid() && full.Promoted? && contents == old(contents)
    {
      var fields := Load();
      full := Promoted(fields);
      pack, count := [], 0;
    }

    method SetPacked(field: Blob, val: Blob) returns (added: bool)
      requires Packed()
      modifies this
      ensures Packed() && contents == old(contents)[field := val]
      ensures added == (field !in old(contents)) && count == |contents|
    {
      var rebuilt, existed := Rebuild(field, val);
      ghost var es := Replaced(entries, field, val);
      added := !existed;
      if existed {
        EnumerationReplace(entries, contents, Entry(field, val), es);
      } else {
        assert es == entries by {
          forall i | 0 <= i < |es| ensures es[i] == entries[i] {
            assert entries[i] in entries;
          }
        }
        EnumerationAppend(entries, contents, Entry(field, val));
        PackFlatAppend(entries, Entry(field, val));
        rebuilt := rebuilt + Element(field) + Element(val);
        es := es + [Entry(field, val)];
        count := count + 1;
      }
      pack := rebuilt;
      entries, contents := es, contents[field := val];
      EnumerationSize(entries, contents);
    }

    method Set(field: Blob, val: Blob) returns (added: bool)
      requires Valid()
      modifies this
      ensures Valid() && contents == old(contents)[field := val]
      ensures added == (field !in old(contents))
      ensures full.NotPromoted? <==>
        && old(full).NotPromoted? && |contents| <= max.maxEntries
        && |field| <= max.maxBytes && |val| <= max.maxBytes
    {
      if full.Promoted? {
        added := field !in full.fields;
        full := Promoted(full.fields[field := val]);
        contents := contents[field := val];
        return;
      }
      added := SetPacked(field, val);
      var big := if |val| > |field| then |val| else |field|;
      if max.Exceeded(count, big) {
        Promote();
      }
    }

    // Delete's scan: what is packed without `field`.
    method Filter(field: Blob) returns (rebuilt: Bytes, found: bool)
      requires Packed()
      ensures found == (field in contents)
      ensures rebuilt == PackOf(Flat(Without(entries, field)))
    {
      rebuilt, found := [], false;
      var buf := pack;
      ghost var k := 0;
      while buf != []
        invariant k <= |entries| && buf == PackOf(Flat(entries[k..]))
        invariant rebuilt == PackOf(Flat(Without(entries[..k], field)))
        invariant found == Names(entries[..k], field)
        decreases |buf|
      {
        var e;
        e, buf := ReadEntry(buf, entries, k);
        FilterStep(entries, k, field);
        if e.field == field {
          found := true;
        } else {
          rebuilt := rebuilt + Element(e.field) + Element(e.value);
        }
        k := k + 1;
      }
      assert entries[..k] == entries;
      NamesListed(entries, contents, field);
    }

    method Delete(field: Blob) returns (removed: bool)
      requires Valid()
      modifies this
      ensures Valid() && contents == old(contents) - {field}
      ensures removed == (field in old(contents))
      ensures full.Promoted? == old(full).Promoted?
    {
      if full.Promoted? {
        removed := field in full.fields;
        full := Promoted(full.fields - {field});
        contents := contents - {field};
        return;
      }
      removed := DeletePacked(field);
    }

    method DeletePacked(field: Blob) returns (removed: bool)
      requires Packed() && Small()
      modifies this
      ensures Packed() && Small() && contents == old(contents) - {field}
      ensures removed == (field in old(contents))
    {
      var rebuilt, found := Filter(field);
      if !found {
        assert contents - {field} == contents;
        return false;
      }
      WithoutEnumerates(entries, contents, field);
      pack := rebuilt;
      count := count - 1;
      entries, contents := Without(entries, field), contents - {field};
      removed := true;
    }

    static method ListAll(fields: map<Blob, Blob>) returns (out: seq<Entry>)
      ensures Enumerates(out, fields)
    {
      out := [];
      var left := fields.Keys;
      ghost var m: map<Blob, Blob> := map[];
      while left != {}
        invariant left <= fields.Keys && m.Keys == fields.Keys - left && Enumerates(out, m)
        invariant forall f :: f in m ==> m[f] == fields[f]
        decreases |left|
      {
        var f :| f in left;
        EnumerationAppend(out, m, Entry(f, fields[f]));
        m := m[f := fields[f]];
        out, left := out + [Entry(f, fields[f])], left - {f};
      }
      assert m == fields;
    }

    // The field/value pairs, in unspecified order.
    method Pairs() returns (out: seq<Entry>)
      requires Valid()
      ensures Enumerates(out, contents)
    {
      if full.Promoted? {
        out := ListAll(full.fields);
        return;
      }
      out := [];
      var buf := pack;
      while buf != []
        invariant |out| <= |entries| && out == entries[..|out|] && buf == PackOf(Flat(entries[|out|..]))
        decreases |buf|
      {
        var e;
        e, buf := ReadEntry(buf, entries, |out|);
        out := out + [e];
      }
    }
  }
}
