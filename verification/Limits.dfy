// Compact-encoding thresholds and Redis index ranges (internal/value/limits.go, value.go).
module Limits {

  datatype Thresholds = Thresholds(maxEntries: int, maxBytes: int) {
    predicate Exceeded(count: int, elemSize: int) {
      count > maxEntries || elemSize > maxBytes
    }
  }

  datatype Span = Empty | Span(lo: nat, hi: nat) {
    predicate Covers(i: int) {
      Span? && lo <= i <= hi
    }
  }

  // A negative index counts back from the end.
  function Resolve(index: int, length: nat): (i: int) {
    if index < 0 then length + index else index
  }

  // normalizeRange: exactly the positions between the two resolved indices.
  function NormalizeRange(start: int, stop: int, length: nat): (r: Span)
    ensures forall i :: r.Covers(i) <==> 0 <= i < length && Resolve(start, length) <= i <= Resolve(stop, length)
    ensures r.Span? ==> r.lo <= r.hi < length
  {
    if length == 0 then Empty
    else
      var lo := if start < 0 then length + start else start;
      var hi := if stop < 0 then length + stop else stop;
      var lo' := if lo < 0 then 0 else lo;
      var hi' := if hi >= length then length - 1 else hi;
      if lo' > hi' || lo' >= length then Empty else Span(lo', hi')
  }

  // What a range query must return, position by position: negative indices count back from
  // the end, the first is at least 0 and the last at most the last position.
  ghost predicate IsWindow<T>(s: seq<T>, start: int, stop: int, out: seq<T>) {
    var n := |s|;
    var lo := if start >= 0 then start else if n + start >= 0 then n + start else 0;
    var hi := if stop < 0 then n + stop else if stop < n then stop else n - 1;
    |out| == (if lo <= hi then hi - lo + 1 else 0) && forall i :: 0 <= i < |out| ==> out[i] == s[lo + i]
  }

  // The elements a range query must return.
  function Selected<T>(s: seq<T>, start: int, stop: int): (r: seq<T>) {
    match NormalizeRange(start, stop, |s|)
    case Empty => []
    case Span(lo, hi) => s[lo..hi + 1]
  }

  lemma WindowUnique<T>(s: seq<T>, start: int, stop: int, a: seq<T>, b: seq<T>)
    requires IsWindow(s, start, stop, a) && IsWindow(s, start, stop, b)
    ensures a == b
  {
  }

  lemma SelectedIsWindow<T>(s: seq<T>, start: int, stop: int)
    ensures IsWindow(s, start, stop, Selected(s, start, stop))
  {
    var r := NormalizeRange(start, stop, |s|);
    if r.Span? {
      assert r.Covers(r.lo) && r.Covers(r.hi);
    }
  }
}
