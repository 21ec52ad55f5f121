// Byte strings, their lexicographic order, and the little-endian 64-bit words
// that the packed sorted set and the snapshot format embed.
module ByteStrings {

  type Byte = b: int | 0 <= b < 256
  type Bytes = seq<Byte>

  const TWO63: int := 0x8000_0000_0000_0000
  const TWO64: int := 0x1_0000_0000_0000_0000

  // Go's `<` on strings.
  predicate LexLess(a: Bytes, b: Bytes) {
    if b == [] then false
    else if a == [] then true
    else if a[0] != b[0] then a[0] < b[0]
    else LexLess(a[1..], b[1..])
  }

  lemma {:induction false} LexIrreflexive(a: Bytes)
    ensures !LexLess(a, a)
  {
    if a != [] {
      LexIrreflexive(a[1..]);
    }
  }

  lemma {:induction false} LexTransitive(a: Bytes, b: Bytes, c: Bytes)
    requires LexLess(a, b) && LexLess(b, c)
    ensures LexLess(a, c)
  {
    if a != [] && a[0] == b[0] == c[0] {
      LexTransitive(a[1..], b[1..], c[1..]);
    }
  }

  lemma {:induction false} LexTotal(a: Bytes, b: Bytes)
    ensures LexLess(a, b) || LexLess(b, a) || a == b
  {
    if a != [] && b != [] && a[0] == b[0] {
      LexTotal(a[1..], b[1..]);
      assert a == [a[0]] + a[1..] && b == [b[0]] + b[1..];
    }
  }

  // At position k, the first where they differ, a ends or has the smaller byte.
  ghost predicate FirstDiffersAt(a: Bytes, b: Bytes, k: nat) {
    k <= |a| && k < |b| && a[..k] == b[..k] && (k == |a| || a[k] < b[k])
  }

  ghost predicate Before(a: Bytes, b: Bytes) {
    exists k :: FirstDiffersAt(a, b, k)
  }

  lemma SameFirst(a: Bytes, b: Bytes, k: nat)
    requires k > 0 && FirstDiffersAt(a, b, k)
    ensures a != [] && a[0] == b[0]
  {
    assert a[..k][0] == b[..k][0];
  }

  lemma {:induction false} LexIsBefore(a: Bytes, b: Bytes)
    ensures LexLess(a, b) <==> Before(a, b)
    decreases |a|
  {
    if a == [] || b == [] || a[0] != b[0] {
      if LexLess(a, b) {
        assert FirstDiffersAt(a, b, 0);
      }
      forall k: nat | FirstDiffersAt(a, b, k) ensures k == 0 {
        if k > 0 {
          SameFirst(a, b, k);
        }
      }
    } else {
      LexIsBefore(a[1..], b[1..]);
      if Before(a[1..], b[1..]) {
        var k: nat :| FirstDiffersAt(a[1..], b[1..], k);
        assert a[..k + 1] == [a[0]] + a[1..][..k] && b[..k + 1] == [b[0]] + b[1..][..k];
        assert FirstDiffersAt(a, b, k + 1);
      }
      assert !FirstDiffersAt(a, b, 0);
      forall k: nat | k > 0 && FirstDiffersAt(a, b, k) ensures FirstDiffersAt(a[1..], b[1..], k - 1) {
        assert a[1..][..k - 1] == a[..k][1..] && b[1..][..k - 1] == b[..k][1..];
      }
    }
  }

  type Word = w: int | 0 <= w < TWO64

  // binary.LittleEndian.PutUint64, `n` bytes at a time.
  function LittleEndian(w: nat, n: nat): (r: Bytes)
    ensures |r| == n
  {
    if n == 0 then [] else [w % 256] + LittleEndian(w / 256, n - 1)
  }

  function FromLittleEndian(b: Bytes): (w: nat) {
    if b == [] then 0 else b[0] + 256 * FromLittleEndian(b[1..])
  }

  function Power256(n: nat): (r: nat)
    ensures r > 0
  {
    if n == 0 then 1 else 256 * Power256(n - 1)
  }

  // A value that fits in n bytes is recovered from them.
  lemma {:induction false} LittleEndianRoundTrip(w: nat, n: nat)
    requires w < Power256(n)
    ensures FromLittleEndian(LittleEndian(w, n)) == w
  {
    if n != 0 {
      LittleEndianRoundTrip(w / 256, n - 1);
      assert LittleEndian(w, n)[1..] == LittleEndian(w / 256, n - 1);
    }
  }

  lemma EightBytesHoldAWord()
    ensures Power256(8) == TWO64
  {
    assert Power256(1) == 256;
    assert Power256(3) == 0x100_0000;
    assert Power256(5) == 0x100_0000_0000;
    assert Power256(7) == 0x100_0000_0000_0000;
  }

  function Word64(w: Word): (r: Bytes)
    ensures |r| == 8
    ensures FromLittleEndian(r) == w
  {
    EightBytesHoldAWord();
    LittleEndianRoundTrip(w, 8);
    LittleEndian(w, 8)
  }
}
