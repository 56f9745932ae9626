/** The RFC 4648 base32 alphabet without padding (section 6), written in lower case. */
module Base32 {
  import opened Wrappers
  import opened Bytes

  type Digit = d: int | 0 <= d < 32

  /** Five bytes as eight five-bit digits. */
  function Block(b: Bytes): (d: seq<Digit>)
    requires |b| == 5
    ensures |d| == 8
  {
    [ b[0] / 8,
      b[0] % 8 * 4 + b[1] / 64,
      b[1] / 2 % 32,
      b[1] % 2 * 16 + b[2] / 16,
      b[2] % 16 * 2 + b[3] / 128,
      b[3] / 4 % 32,
      b[3] % 4 * 8 + b[4] / 32,
      b[4] % 32 ]
  }

  function Unblock(d: seq<Digit>): (b: Bytes)
    requires |d| == 8
    ensures |b| == 5
  {
    var x: seq<int> := d;
    [ x[0] * 8 + x[1] / 4,
      x[1] % 4 * 64 + x[2] * 2 + x[3] / 16,
      x[3] % 16 * 16 + x[4] / 2,
      x[4] % 2 * 128 + x[5] * 4 + x[6] / 8,
      x[6] % 8 * 32 + x[7] ]
  }

  lemma SplitAcrossThree(hi: nat, b: byte, lo: nat)
    requires hi < 8 && lo < 16
    ensures (hi * 4 + b / 64) % 4 * 64 + b / 2 % 32 * 2 + (b % 2 * 16 + lo) / 16 == b
    ensures (hi * 4 + b / 64) / 4 == hi && (b % 2 * 16 + lo) % 16 == lo
  {
  }

  lemma SplitAcrossTwo(hi: nat, b: byte, lo: nat)
    requires hi < 2 && lo < 2
    ensures (hi * 16 + b / 16) % 16 * 16 + (b % 16 * 2 + lo) / 2 == b
    ensures (hi * 16 + b / 16) / 16 == hi && (b % 16 * 2 + lo) % 2 == lo
  {
  }

  lemma SplitAcrossThreeLow(hi: nat, b: byte, lo: nat)
    requires hi < 16 && lo < 8
    ensures (hi * 2 + b / 128) % 2 * 128 + b / 4 % 32 * 4 + (b % 4 * 8 + lo) / 8 == b
    ensures (hi * 2 + b / 128) / 2 == hi && (b % 4 * 8 + lo) % 8 == lo
  {
  }

  lemma UnblockBlock(b: Bytes)
    requires |b| == 5
    ensures Unblock(Block(b)) == b
  {
    SplitAcrossThree(b[0] % 8, b[1], b[2] / 16);
    SplitAcrossTwo(b[1] % 2, b[2], b[3] / 128);
    SplitAcrossThreeLow(b[2] % 16, b[3], b[4] / 32);
    assert b == [b[0], b[1], b[2], b[3], b[4]];
  }

  /** How many digits carry the bits of `n` trailing bytes. */
  function DigitCount(n: nat): nat {
    (n * 8 + 4) / 5
  }

  function Digits(b: Bytes): (d: seq<Digit>)
    ensures |d| == DigitCount(|b|)
  {
    if |b| >= 5 then Block(b[..5]) + Digits(b[5..])
    else Block(b + Repeat(0, 5 - |b|))[..DigitCount(|b|)]
  }

  function Zeros(n: nat): (d: seq<Digit>)
    ensures |d| == n
    ensures forall i :: 0 <= i < n ==> d[i] == 0
  {
    if n == 0 then [] else [0] + Zeros(n - 1)
  }

  function Undigits(d: seq<Digit>): (b: Bytes)
    ensures |b| == |d| * 5 / 8
  {
    if |d| >= 8 then Unblock(d[..8]) + Undigits(d[8..])
    else Unblock(d + Zeros(8 - |d|))[..|d| * 5 / 8]
  }

  lemma TrailingZeros(b: Bytes, n: nat)
    requires |b| == 5 && n < 5
    requires forall i :: n <= i < 5 ==> b[i] == 0
    ensures forall i :: DigitCount(n) <= i < 8 ==> Block(b)[i] == 0
  {
  }

  lemma PadTail(d: seq<Digit>, n: nat)
    requires n <= |d| && forall i :: n <= i < |d| ==> d[i] == 0
    ensures d[..n] + Zeros(|d| - n) == d
  {
  }

  /** The digits that carry a tail give back as many bytes. */
  lemma CountBack(n: nat)
    requires n < 5
    ensures DigitCount(n) < 8 && DigitCount(n) * 5 / 8 == n
  {
    assert n == 0 || n == 1 || n == 2 || n == 3 || n == 4;
  }

  lemma ShortDigits(b: Bytes)
    requires |b| < 5
    ensures Digits(b) == Block(b + Repeat(0, 5 - |b|))[..DigitCount(|b|)]
  {
    hide Block;
  }

  lemma ShortUndigits(d: seq<Digit>)
    requires |d| < 8
    ensures Undigits(d) == Unblock(d + Zeros(8 - |d|))[..|d| * 5 / 8]
  {
    hide Unblock;
  }

  lemma ShortTail(b: Bytes)
    requires |b| < 5
    ensures Undigits(Digits(b)) == b
  {
    hide Block, Unblock, DigitCount, Digits, Undigits, Zeros;
    var full := b + Repeat(0, 5 - |b|);
    var n := DigitCount(|b|);
    CountBack(|b|);
    TrailingZeros(full, |b|);
    PadTail(Block(full), n);
    ShortDigits(b);
    ShortUndigits(Block(full)[..n]);
    UnblockBlock(full);
    assert full[..|b|] == b;
  }

  lemma {:induction false} DigitsRoundTrip(b: Bytes)
    ensures Undigits(Digits(b)) == b
  {
    if |b| < 5 {
      ShortTail(b);
    } else {
      DigitsRoundTrip(b[5..]);
      UnblockBlock(b[..5]);
      assert Digits(b)[..8] == Block(b[..5]) && Digits(b)[8..] == Digits(b[5..]);
      assert b == b[..5] + b[5..];
    }
  }

  function Letter(d: Digit): (c: char)
    ensures 'a' <= c <= 'z' || '2' <= c <= '7'
  {
    if d < 26 then 'a' + d as char else '2' + (d - 26) as char
  }

  /** The reader takes letters of either case. */
  function DigitOf(c: char): Option<Digit> {
    if 'a' <= c <= 'z' then Some((c - 'a') as int)
    else if 'A' <= c <= 'Z' then Some((c - 'A') as int)
    else if '2' <= c <= '7' then Some((c - '2') as int + 26)
    else None
  }

  function Letters(d: seq<Digit>): (s: string)
    ensures |s| == |d|
    ensures forall i :: 0 <= i < |s| ==> 'a' <= s[i] <= 'z' || '2' <= s[i] <= '7'
  {
    if d == [] then [] else [Letter(d[0])] + Letters(d[1..])
  }

  function DigitsOf(s: string): Option<seq<Digit>> {
    if s == [] then Some([])
    else
      var d :- DigitOf(s[0]);
      var rest :- DigitsOf(s[1..]);
      Some([d] + rest)
  }

  lemma {:induction false} LettersRoundTrip(d: seq<Digit>)
    ensures DigitsOf(Letters(d)) == Some(d)
  {
    if d == [] {
    } else {
      LettersRoundTrip(d[1..]);
      assert Letters(d)[1..] == Letters(d[1..]);
      assert d == [d[0]] + d[1..];
    }
  }

  function Encode(b: Bytes): (s: string)
    ensures |s| == DigitCount(|b|)
    ensures forall i :: 0 <= i < |s| ==> 'a' <= s[i] <= 'z' || '2' <= s[i] <= '7'
  {
    Letters(Digits(b))
  }

  function Decode(s: string): Option<Bytes> {
    var d :- DigitsOf(s);
    Some(Undigits(d))
  }

  /** Every byte string survives being written and read. */
  lemma RoundTrip(b: Bytes)
    ensures Decode(Encode(b)) == Some(b)
  {
    LettersRoundTrip(Digits(b));
    DigitsRoundTrip(b);
  }
}
