// The flat length-prefixed encoding behind small collections (internal/value/pack.go).
module Packs {
  import opened ByteStrings
  import opened Varints

  // packAppend's contribution: a length header and the bytes.
  function Element(e: Blob): (r: Bytes)
    ensures |r| > |e|
  {
    Uvarint(|e|) + e
  }

  function PackOf(es: seq<Blob>): (r: Bytes)
    ensures r == [] <==> es == []
  {
    if es == [] then [] else Element(es[0]) + PackOf(es[1..])
  }

  lemma Associative(a: Bytes, b: Bytes, c: Bytes)
    ensures a + (b + c) == a + b + c
  {}

  lemma {:induction false} PackOfConcat(es: seq<Blob>, fs: seq<Blob>)
    ensures PackOf(es + fs) == PackOf(es) + PackOf(fs)
  {
    if es == [] {
      assert es + fs == fs;
    } else {
      assert (es + fs)[0] == es[0] && (es + fs)[1..] == es[1..] + fs;
      PackOfConcat(es[1..], fs);
      Associative(Element(es[0]), PackOf(es[1..]), PackOf(fs));
    }
  }

  lemma PackAppend(es: seq<Blob>, e: Blob)
    ensures PackOf(es + [e]) == PackOf(es) + Element(e)
  {
    PackOfConcat(es, [e]);
  }

  // The head of a pack is recovered whole, and what follows it packs the rest.
  lemma PackHead(es: seq<Blob>)
    requires es != []
    ensures ReadUvarint(PackOf(es)) == Value(|es[0]|, es[0] + PackOf(es[1..]))
  {
    assert PackOf(es) == Uvarint(|es[0]|) + (es[0] + PackOf(es[1..]));
    UvarintRoundTrip(|es[0]|, es[0] + PackOf(es[1..]));
  }

  // One turn of packEach's loop, standing before the k-th element.
  method ReadElement(buf: Bytes, ghost es: seq<Blob>, ghost k: nat) returns (elem: Blob, rest: Bytes)
    requires k <= |es| && buf == PackOf(es[k..]) && buf != []
    ensures k < |es| && elem == es[k] && rest == PackOf(es[k + 1..]) && |rest| < |buf|
  {
    PackHead(es[k..]);
    assert es[k..][1..] == es[k + 1..];
    var head := ReadUvarint(buf);
    elem := head.rest[..head.value];
    rest := head.rest[head.value..];
  }

  // Where the elements sit inside a pack.
  lemma PackSplit(es: seq<Blob>, k: nat)
    requires k <= |es|
    ensures |PackOf(es[..k])| <= |PackOf(es)|
    ensures PackOf(es)[..|PackOf(es[..k])|] == PackOf(es[..k])
    ensures PackOf(es)[|PackOf(es[..k])|..] == PackOf(es[k..])
  {
    PackOfConcat(es[..k], es[k..]);
    assert es[..k] + es[k..] == es;
  }

  // A pack determines its elements.
  lemma {:induction false} PackInjective(es: seq<Blob>, fs: seq<Blob>)
    requires PackOf(es) == PackOf(fs)
    ensures es == fs
  {
    if es != [] && fs != [] {
      PackHead(es);
      PackHead(fs);
      assert es[0] == (es[0] + PackOf(es[1..]))[..|es[0]|];
      assert fs[0] == (fs[0] + PackOf(fs[1..]))[..|fs[0]|];
      assert PackOf(es[1..]) == (es[0] + PackOf(es[1..]))[|es[0]|..];
      assert PackOf(fs[1..]) == (fs[0] + PackOf(fs[1..]))[|fs[0]|..];
      PackInjective(es[1..], fs[1..]);
      assert es == [es[0]] + es[1..] && fs == [fs[0]] + fs[1..];
    }
  }
}
