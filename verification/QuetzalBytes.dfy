/** Bytes as the save-file checker reads them: clamped slices, big-endian
    numbers, exclusive-or. */
module QuetzalBytes {
  import opened Prelude

  function Min(a: int, b: int): int {
    if a < b then a else b
  }

  /** A slice with both ends clamped to the data, for non-negative bounds. */
  function Slice(data: seq<Byte>, lo: nat, hi: nat): (s: seq<Byte>)
    ensures lo <= hi <= |data| ==> s == data[lo..hi]
    ensures |s| <= |data|
  {
    var h := Min(hi, |data|);
    if lo < h then data[lo..h] else []
  }

  /** A slice of a slice. */
  lemma Sub(s: seq<Byte>, lo: nat, hi: nat, i: nat, j: nat)
    requires lo <= hi <= |s| && i <= j <= hi - lo
    ensures s[lo..hi][i..j] == s[lo + i..lo + j]
  {
    var (a, b) := (s[lo..hi][i..j], s[lo + i..lo + j]);
    assert |a| == |b| && forall k | 0 <= k < |a| :: a[k] == s[lo + i + k] == b[k];
    assert a == b;
  }

  /** Big-endian value. */
  function Value(s: seq<Byte>): nat {
    if s == [] then 0 else 256 * Value(s[..|s| - 1]) + s[|s| - 1]
  }

  /** `n` big-endian bytes at `off`, fewer if the data ends first. */
  function Be(data: seq<Byte>, off: nat, n: nat): nat {
    Value(Slice(data, off, off + n))
  }

  /** The bytes of a two-, three- or four-byte number, most significant first. */
  lemma BeSpelled(data: seq<Byte>, off: nat)
    ensures off + 2 <= |data| ==> Be(data, off, 2) == Two(data[off], data[off + 1])
    ensures off + 3 <= |data| ==> Be(data, off, 3) == 256 * Two(data[off], data[off + 1]) + data[off + 2]
    ensures off + 4 <= |data| ==>
      Be(data, off, 4) == 0x1_0000 * Two(data[off], data[off + 1]) + Two(data[off + 2], data[off + 3])
  {
    if off + 2 <= |data| { ValueMore(data, off, 0); ValueMore(data, off, 1); }
    if off + 3 <= |data| { ValueMore(data, off, 2); }
    if off + 4 <= |data| { ValueMore(data, off, 3); }
  }

  function Two(hi: int, lo: int): int {
    256 * hi + lo
  }

  lemma ValueMore(data: seq<Byte>, off: nat, n: nat)
    requires off + n < |data|
    ensures Value(data[off..off + n + 1]) == 256 * Value(data[off..off + n]) + data[off + n]
    ensures n == 0 ==> Value(data[off..off + n]) == 0
  {
    assert data[off..off + n + 1][..n] == data[off..off + n];
  }

  /** `v` in `n` big-endian bytes. */
  function Bytes(v: nat, n: nat): (s: seq<Byte>)
    ensures |s| == n
  {
    if n == 0 then [] else Bytes(v / 256, n - 1) + [v % 256]
  }

  function Pow256(n: nat): (p: nat)
    ensures p > 0
  {
    if n == 0 then 1 else 256 * Pow256(n - 1)
  }

  /** A number that fits is read back. */
  lemma {:induction false} ValueOfBytes(v: nat, n: nat)
    requires v < Pow256(n)
    ensures Value(Bytes(v, n)) == v
  {
    if n > 0 {
      ValueOfBytes(v / 256, n - 1);
      assert Bytes(v, n)[..n - 1] == Bytes(v / 256, n - 1);
    }
  }

  /** Bytes are what they spell. */
  lemma {:induction false} BytesOfValue(s: seq<Byte>)
    ensures Bytes(Value(s), |s|) == s && Value(s) < Pow256(|s|)
  {
    if s != [] {
      var front := s[..|s| - 1];
      BytesOfValue(front);
      var v: int := Value(s);
      var last: int := s[|s| - 1];
      assert v == 256 * Value(front) + last;
      assert v / 256 == Value(front) && v % 256 == last;
      assert s == front + [s[|s| - 1]];
    }
  }

  lemma Halves(y: nat, d: nat)
    requires d < 2
    ensures (d + 2 * y) / 2 == y && (d + 2 * y) % 2 == d
  {
  }

  lemma DigitTwice(a: nat, b: nat, y: nat)
    ensures ((a + b) % 2 + 2 * y + b) % 2 == a % 2
  {
  }

  lemma XorOnce(a: nat, b: nat, k: nat)
    requires k > 0
    ensures XorDigits(a, b, k) == (a + b) % 2 + 2 * XorDigits(a / 2, b / 2, k - 1)
  {
  }

  /** Exclusive-or with the same number twice gives the number back. */
  lemma {:induction false} XorTwice(a: nat, b: nat, k: nat)
    requires a < Pow2(k)
    ensures XorDigits(XorDigits(a, b, k), b, k) == a
  {
    if k > 0 {
      hide XorDigits;
      var y := XorDigits(a / 2, b / 2, k - 1);
      var x := XorDigits(a, b, k);
      XorOnce(a, b, k);
      XorOnce(x, b, k);
      Halves(y, (a + b) % 2);
      DigitTwice(a, b, y);
      XorTwice(a / 2, b / 2, k - 1);
    }
  }

  lemma XorUndone(a: Byte, b: Byte)
    ensures Xor(Xor(a, b), b) == a
  {
    assert Pow2(8) == 256;
    XorTwice(a, b, 8);
  }

  /** Byte by byte, as far as both go. */
  function XorAll(s: seq<Byte>, t: seq<Byte>): (r: seq<Byte>)
    ensures |r| == Min(|s|, |t|) && forall k | 0 <= k < |r| :: r[k] == Xor(s[k], t[k])
  {
    seq(Min(|s|, |t|), k requires 0 <= k < Min(|s|, |t|) => Xor(s[k], t[k]))
  }
}
