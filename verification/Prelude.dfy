/** Definitions shared by several models. */
module Prelude {
  type Byte = n: int | 0 <= n < 256

  datatype Option<T> = None | Some(value: T)

  function Copies<T>(x: T, n: nat): (s: seq<T>)
    ensures |s| == n && forall i :: 0 <= i < n ==> s[i] == x
  {
    seq(n, _ => x)
  }

  function Zeros(n: nat): (s: seq<Byte>)
    ensures |s| == n && forall p :: 0 <= p < n ==> s[p] == 0
  {
    seq(n, _ => 0)
  }

  function Pow2(k: nat): (p: nat)
    ensures p > 0
  {
    if k == 0 then 1 else 2 * Pow2(k - 1)
  }

  /** Exclusive-or of the low `k` binary digits. */
  function XorDigits(a: nat, b: nat, k: nat): nat {
    if k == 0 then 0 else (a + b) % 2 + 2 * XorDigits(a / 2, b / 2, k - 1)
  }

  lemma {:induction false} XorBound(a: nat, b: nat, k: nat)
    ensures XorDigits(a, b, k) < Pow2(k)
  {
    if k > 0 {
      XorBound(a / 2, b / 2, k - 1);
    }
  }

  function Xor(a: Byte, b: Byte): Byte {
    XorBound(a, b, 8);
    assert Pow2(8) == 256;
    XorDigits(a, b, 8)
  }
}
