/** Byte strings, suffixes, and big-endian numbers. */
module Bytes {
  type byte = x: int | 0 <= x < 256
  type Bytes = seq<byte>

  const TWO_8: nat := 0x100
  const TWO_16: nat := 0x1_0000
  const TWO_31: nat := 0x8000_0000
  const TWO_32: nat := 0x1_0000_0000
  const TWO_63: nat := 0x8000_0000_0000_0000
  const TWO_64: nat := 0x1_0000_0000_0000_0000

  /** `r` is what is left of `b` after some bytes were read from its front. */
  predicate IsSuffix(r: Bytes, b: Bytes) {
    |r| <= |b| && r == b[|b| - |r|..]
  }

  lemma SuffixTransitive(r: Bytes, m: Bytes, b: Bytes)
    requires IsSuffix(r, m) && IsSuffix(m, b)
    ensures IsSuffix(r, b)
  {
    assert r == b[|b| - |m|..][|m| - |r|..];
  }

  lemma TailIsSuffix(b: Bytes)
    requires b != []
    ensures IsSuffix(b[1..], b)
  {
  }

  lemma Assoc(a: Bytes, b: Bytes, c: Bytes)
    ensures (a + b) + c == a + (b + c)
  {
  }

  function Repeat(x: byte, n: nat): (b: Bytes)
    ensures |b| == n
    ensures forall i :: 0 <= i < n ==> b[i] == x
  {
    if n == 0 then [] else [x] + Repeat(x, n - 1)
  }

  function Pow256(k: nat): (r: nat)
    ensures r >= 1
  {
    if k == 0 then 1 else 256 * Pow256(k - 1)
  }

  /** The last `k` base-256 digits of `n`, most significant first. */
  function ToBe(n: nat, k: nat): (b: Bytes)
    ensures |b| == k
    decreases k
  {
    if k == 0 then [] else ToBe(n / 256, k - 1) + [n % 256]
  }

  /** The number written by `b` in base 256, most significant digit first. */
  function FromBe(b: Bytes): nat {
    if b == [] then 0 else 256 * FromBe(b[..|b| - 1]) + b[|b| - 1]
  }

  lemma {:induction false} FromToBe(n: nat, k: nat)
    requires n < Pow256(k)
    ensures FromBe(ToBe(n, k)) == n
    decreases k
  {
    if k > 0 {
      FromToBe(n / 256, k - 1);
      assert ToBe(n, k)[..k - 1] == ToBe(n / 256, k - 1);
    }
  }

  /** The first byte counts most. */
  lemma {:induction false} FirstDigit(b: Bytes)
    requires b != []
    ensures FromBe(b) == b[0] * Pow256(|b| - 1) + FromBe(b[1..])
  {
    if |b| == 1 {
      assert b[..0] == [];
    } else {
      var front := b[..|b| - 1];
      FirstDigit(front);
      assert front[1..] == b[1..][..|b| - 2];
      assert 256 * (b[0] * Pow256(|b| - 2)) == b[0] * (256 * Pow256(|b| - 2));
    }
  }

  lemma {:induction false} ToFromBe(b: Bytes)
    ensures FromBe(b) < Pow256(|b|)
    ensures ToBe(FromBe(b), |b|) == b
  {
    if b == [] {
    } else {
      ToFromBe(b[..|b| - 1]);
      assert FromBe(b) / 256 == FromBe(b[..|b| - 1]);
      assert FromBe(b) % 256 == b[|b| - 1];
    }
  }
}
