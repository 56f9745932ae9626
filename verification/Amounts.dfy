/** Token amounts: natural numbers of any size, their byte form, their wire form and their fees. */
module Amounts {
  import opened Wrappers
  import opened Bytes
  import opened Cbor

  const POS_BIGNUM := 2

  function Digits(n: nat): Bytes {
    if n == 0 then [] else Digits(n / 256) + [n % 256]
  }

  /** Big-endian and without leading zeros; zero itself is one zero byte. */
  function ToVec(n: nat): Bytes { if n == 0 then [0] else Digits(n) }

  function FromVec(b: Bytes): nat { FromBe(b) }

  function Strip(b: Bytes): Bytes {
    if b != [] && b[0] == 0 then Strip(b[1..]) else b
  }

  lemma {:induction false} DigitsRoundTrip(n: nat)
    ensures FromBe(Digits(n)) == n && (n > 0 ==> Digits(n) != [] && Digits(n)[0] != 0)
  {
    if n > 0 {
      DigitsRoundTrip(n / 256);
      assert Digits(n)[..|Digits(n)| - 1] == Digits(n / 256);
      if n / 256 == 0 {
        assert Digits(n) == [n % 256] && n % 256 == n;
      }
    }
  }

  /** The byte form of a number is read back as the number, and has no leading zero. */
  lemma VecRoundTrip(n: nat)
    ensures FromVec(ToVec(n)) == n && ToVec(n) != [] && (ToVec(n)[0] == 0 ==> n == 0)
  {
    DigitsRoundTrip(n);
    assert [0][..0] == [];
  }

  lemma {:induction false} DigitsOf(b: Bytes)
    requires b == [] || b[0] != 0
    ensures Digits(FromBe(b)) == b
  {
    if b == [] {
    } else {
      var most := b[..|b| - 1];
      DigitsOf(most);
      assert FromBe(b) / 256 == FromBe(most) && FromBe(b) % 256 == b[|b| - 1];
      assert b == most + [b[|b| - 1]];
      if most == [] {
        assert FromBe(b) == b[0];
      } else {
        NotZero(most);
      }
    }
  }

  lemma {:induction false} NotZero(b: Bytes)
    requires b != [] && b[0] != 0
    ensures FromBe(b) > 0
  {
    if |b| > 1 {
      NotZero(b[..|b| - 1]);
    }
  }

  lemma {:induction false} LeadingZero(b: Bytes)
    requires b != [] && b[0] == 0
    ensures FromBe(b) == FromBe(b[1..])
  {
    if |b| > 1 {
      LeadingZero(b[..|b| - 1]);
      assert b[1..][..|b| - 2] == b[..|b| - 1][1..];
    }
  }

  /** Reading bytes and writing them back strips the leading zeros, save a last one. */
  lemma {:induction false} StripLeadingZeros(b: Bytes)
    ensures ToVec(FromVec(b)) == if Strip(b) == [] then [0] else Strip(b)
  {
    if b != [] && b[0] == 0 {
      LeadingZero(b);
      StripLeadingZeros(b[1..]);
    } else {
      DigitsOf(b);
      if b != [] {
        NotZero(b);
      }
    }
  }

  // -------------------------------------------------------------------------------------------
  // On the wire
  // -------------------------------------------------------------------------------------------

  /** The byte string of a number has a length that a head can state. */
  predicate Writable(n: nat) { |ToVec(n)| < TWO_64 }

  function Encode(n: nat): Bytes
    requires Writable(n)
  {
    if n < TWO_64 then EncodeUint(n) else HeadBytes(TAG, POS_BIGNUM) + EncodeString(BYTES, ToVec(n))
  }

  function Decode(b: Bytes): Option<(nat, Bytes)> {
    if b == [] then None
    else if b[0] / 32 == TAG then
      var (t, rest) :- ReadTag(b);
      if t != POS_BIGNUM then None
      else
        var (x, left) :- ReadString(rest, BYTES);
        Some((FromVec(x), left))
    else
      var (n, rest) :- ReadUint(b, TWO_64);
      Some((n, rest))
  }

  /** Either way of writing a number is read back as it, whatever follows. */
  lemma RoundTrip(n: nat, s: Bytes)
    requires Writable(n)
    ensures Decode(Encode(n) + s) == Some((n, s))
  {
    hide ReadUint, ReadString, ReadHead, HeadBytes, ToVec, FromBe;
    if n < TWO_64 {
      UintRoundTrip(n, TWO_64, s);
      assert (Encode(n) + s)[0] == HeadBytes(UNSIGNED, n)[0];
    } else {
      var text := EncodeString(BYTES, ToVec(n));
      var b := Encode(n) + s;
      Assoc(HeadBytes(TAG, POS_BIGNUM), text, s);
      HeadRoundTrip(TAG, POS_BIGNUM, text + s);
      StringRoundTrip(BYTES, ToVec(n), s);
      assert b[0] == HeadBytes(TAG, POS_BIGNUM)[0];
      VecRoundTrip(n);
    }
  }

  method EncodeInto(e: Encoder, n: nat)
    requires Writable(n)
    modifies e
    ensures e.buf == old(e.buf) + Encode(n)
  {
    hide HeadBytes, EncodeString, ToVec;
    if n < TWO_64 {
      e.Head(UNSIGNED, n);
    } else {
      Assoc(e.buf, HeadBytes(TAG, POS_BIGNUM), EncodeString(BYTES, ToVec(n)));
      e.Head(TAG, POS_BIGNUM);
      e.Str(BYTES, ToVec(n));
    }
  }

  method DecodeFrom(d: Decoder) returns (r: Option<nat>)
    modifies d
    ensures ReadAs(Decode(old(d.rest)), r, d.rest)
  {
    hide ReadTag, ReadString, ReadUint, FromVec;
    if d.rest == [] {
      return None;
    }
    if d.rest[0] / 32 == TAG {
      var t :- d.Tag();
      if t != POS_BIGNUM {
        return None;
      }
      var x :- d.Str(BYTES);
      return Some(FromVec(x));
    }
    var n :- d.Uint(TWO_64);
    return Some(n);
  }

  // -------------------------------------------------------------------------------------------
  // Fees
  // -------------------------------------------------------------------------------------------

  type U32 = n: int | 0 <= n < TWO_32

  /** A percentage as a binary fraction: 32 bits before the point and 32 after it. */
  function Percent(whole: U32, fraction: U32): U64 { whole * TWO_32 + fraction }

  function PercentOf(amount: nat, bits: U64): nat { amount * bits / TWO_32 }

  function Fees(fixed: Option<nat>, percent: Option<U64>, amount: nat): nat {
    (if fixed.Some? then fixed.value else 0) + (if percent.Some? then PercentOf(amount, percent.value) else 0)
  }

  /** The fixed part, and of the percent part the largest number of whole units it amounts to. */
  method CalculateFees(fixed: Option<nat>, percent: Option<U64>, amount: nat) returns (fees: nat)
    ensures fees == Fees(fixed, percent, amount)
    ensures var rest := fees - if fixed.Some? then fixed.value else 0;
            if percent.Some? then 0 <= rest && rest * TWO_32 <= amount * percent.value < (rest + 1) * TWO_32
            else rest == 0
  {
    fees := if fixed.Some? then fixed.value else 0;
    if percent.Some? {
      PercentIsFloor(amount, percent.value);
      fees := fees + PercentOf(amount, percent.value);
    }
  }

  function Total(parts: seq<nat>): nat { if parts == [] then 0 else parts[0] + Total(parts[1..]) }

  function TotalPercent(parts: seq<nat>, bits: U64): nat {
    if parts == [] then 0 else PercentOf(parts[0], bits) + TotalPercent(parts[1..], bits)
  }

  /** The percent part is the floor of the exact product. */
  lemma PercentIsFloor(amount: nat, bits: U64)
    ensures PercentOf(amount, bits) * TWO_32 <= amount * bits < (PercentOf(amount, bits) + 1) * TWO_32
  {
    var x := amount * bits;
    assert x == x / TWO_32 * TWO_32 + x % TWO_32;
  }

  /** The whole part multiplies, and the fraction adds the floor of its share. */
  lemma PercentParts(amount: nat, whole: U32, fraction: U32)
    ensures PercentOf(amount, Percent(whole, fraction)) == amount * whole + amount * fraction / TWO_32
  {
    var x := amount * fraction;
    assert amount * (whole * TWO_32 + fraction) == amount * whole * TWO_32 + x;
    AddMultiple(amount * whole, x);
  }

  lemma AddMultiple(k: nat, x: nat)
    ensures (k * TWO_32 + x) / TWO_32 == k + x / TWO_32
  {
  }

  /** A greater amount never pays less. */
  lemma FeesMonotone(fixed: Option<nat>, percent: Option<U64>, a: nat, b: nat)
    requires a <= b
    ensures Fees(fixed, percent, a) <= Fees(fixed, percent, b)
  {
    if percent.Some? {
      var bits := percent.value;
      assert a * bits <= b * bits;
      DivideMonotone(a * bits, b * bits);
    }
  }

  lemma DivideMonotone(x: nat, y: nat)
    requires x <= y
    ensures x / TWO_32 <= y / TWO_32
  {
  }

  lemma SplitInTwo(a: nat, b: nat, bits: U64)
    ensures PercentOf(a, bits) + PercentOf(b, bits) <= PercentOf(a + b, bits) <=
            PercentOf(a, bits) + PercentOf(b, bits) + 1
  {
    assert (a + b) * bits == a * bits + b * bits;
    DivideSum(a * bits, b * bits);
  }

  lemma DivideSum(x: nat, y: nat)
    ensures x / TWO_32 + y / TWO_32 <= (x + y) / TWO_32 <= x / TWO_32 + y / TWO_32 + 1
  {
  }

  /** Splitting a payment into n parts saves at most n - 1 units of the percent part, and costs none. */
  lemma {:induction false} SplitPayment(parts: seq<nat>, bits: U64)
    ensures TotalPercent(parts, bits) <= PercentOf(Total(parts), bits)
    ensures parts != [] ==> PercentOf(Total(parts), bits) <= TotalPercent(parts, bits) + |parts| - 1
  {
    hide PercentOf;
    if parts == [] {
      NothingCosts(bits);
    } else {
      SplitPayment(parts[1..], bits);
      SplitInTwo(parts[0], Total(parts[1..]), bits);
      if parts[1..] == [] {
        NothingCosts(bits);
        assert Total(parts) == parts[0];
      }
    }
  }

  lemma NothingCosts(bits: U64)
    ensures PercentOf(0, bits) == 0
  {
  }

  /** A number that fits 64 bits is a CBOR integer; a larger one is tag 2 and its big-endian bytes. */
  lemma WireForm(n: nat)
    requires Writable(n)
    ensures n < TWO_64 ==> Encode(n) == EncodeUint(n)
    ensures n >= TWO_64 ==> Encode(n) == [0xC2] + EncodeString(BYTES, ToVec(n))
    ensures FromBe(ToVec(n)) == n && (n > 0 ==> ToVec(n)[0] != 0)
  {
    hide EncodeString;
    VecRoundTrip(n);
  }
}
