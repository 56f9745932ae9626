/**
 * CBOR items (sections 3 and 3.1 of RFC 8949): the head that starts every item, and the
 * encoder buffer and decoder cursor through which the codecs of the project read and write it.
 *
 * The writer always picks the shortest head; the reader accepts every head length.
 */
module Cbor {
  import opened Wrappers
  import opened Bytes

  const UNSIGNED := 0
  const NEGATIVE := 1
  const BYTES := 2
  const TEXT := 3
  const ARRAY := 4
  const MAP := 5
  const TAG := 6

  const FALSE_BYTE: byte := 0xF4
  const TRUE_BYTE: byte := 0xF5
  const NULL_BYTE: byte := 0xF6
  const BREAK_BYTE: byte := 0xFF

  type Major = m: int | 0 <= m < 8
  type U64 = n: int | 0 <= n < TWO_64

  /** An item head: its major type and argument, `None` standing for an indefinite length. */
  datatype Head = Head(major: Major, arg: Option<U64>)

  // -------------------------------------------------------------------------------------------
  // Heads
  // -------------------------------------------------------------------------------------------

  function HeadBytes(major: Major, n: U64): (b: Bytes)
    ensures |b| >= 1 && b[0] / 32 == major
  {
    if n < 24 then [32 * major + n]
    else if n < TWO_8 then [32 * major + 24] + ToBe(n, 1)
    else if n < TWO_16 then [32 * major + 25] + ToBe(n, 2)
    else if n < TWO_32 then [32 * major + 26] + ToBe(n, 4)
    else [32 * major + 27] + ToBe(n, 8)
  }

  /** The number of argument bytes that follow an initial byte with this additional information. */
  function ArgWidth(info: nat): nat
    requires 24 <= info <= 27
  {
    if info == 24 then 1 else if info == 25 then 2 else if info == 26 then 4 else 8
  }

  function ReadHead(b: Bytes): (r: Option<(Head, Bytes)>)
    ensures r.Some? ==> IsSuffix(r.value.1, b) && |r.value.1| < |b|
    ensures r.Some? ==> r.value.0.major == b[0] / 32
  {
    if b == [] then None
    else
      var major := b[0] / 32;
      var info := b[0] % 32;
      if info < 24 then Some((Head(major, Some(info)), b[1..]))
      else if info <= 27 then
        var w := ArgWidth(info);
        if |b| < 1 + w then None
        else
          ArgFits(b[1..1 + w]);
          Some((Head(major, Some(FromBe(b[1..1 + w]))), b[1 + w..]))
      else if info == 31 then Some((Head(major, None), b[1..]))
      else None
  }

  lemma PowTable()
    ensures Pow256(1) == TWO_8 && Pow256(2) == TWO_16 && Pow256(4) == TWO_32 && Pow256(8) == TWO_64
  {
    assert Pow256(3) == 256 * Pow256(2);
    assert Pow256(5) == 256 * Pow256(4);
    assert Pow256(6) == 256 * Pow256(5);
    assert Pow256(7) == 256 * Pow256(6);
  }

  lemma ArgFits(b: Bytes)
    requires |b| == 1 || |b| == 2 || |b| == 4 || |b| == 8
    ensures FromBe(b) < TWO_64
  {
    PowTable();
    ToFromBe(b);
  }

  /** Reading a written head gives it back and leaves what follows it untouched. */
  lemma HeadRoundTrip(major: Major, n: U64, s: Bytes)
    ensures ReadHead(HeadBytes(major, n) + s) == Some((Head(major, Some(n)), s))
  {
    var b := HeadBytes(major, n) + s;
    PowTable();
    if n < 24 {
      assert b[1..] == s;
    } else {
      var w := if n < TWO_8 then 1 else if n < TWO_16 then 2 else if n < TWO_32 then 4 else 8;
      assert b == [b[0]] + ToBe(n, w) + s;
      assert b[1..1 + w] == ToBe(n, w);
      assert b[1 + w..] == s;
      FromToBe(n, w);
    }
  }

  // -------------------------------------------------------------------------------------------
  // Items without children
  // -------------------------------------------------------------------------------------------

  function EncodeUint(n: U64): Bytes {
    HeadBytes(UNSIGNED, n)
  }

  /** An unsigned integer below `bound`: `d.u8()`, `d.u32()` and `d.u64()`. */
  function ReadUint(b: Bytes, bound: nat): (r: Option<(U64, Bytes)>)
    ensures r.Some? ==> IsSuffix(r.value.1, b) && |r.value.1| < |b| && r.value.0 < bound
  {
    var (h, rest) :- ReadHead(b);
    if h.major == UNSIGNED && h.arg.Some? && h.arg.value < bound then Some((h.arg.value, rest)) else None
  }

  predicate IsInt(i: int, bound: int) {
    -bound <= i < bound
  }

  function EncodeInt(i: int): Bytes
    requires IsInt(i, TWO_63)
  {
    if i >= 0 then HeadBytes(UNSIGNED, i) else HeadBytes(NEGATIVE, -1 - i)
  }

  /** A signed integer in `-bound .. bound`: `d.i8()` and `d.i64()`. */
  function ReadInt(b: Bytes, bound: nat): (r: Option<(int, Bytes)>)
    ensures r.Some? ==> IsSuffix(r.value.1, b) && |r.value.1| < |b| && IsInt(r.value.0, bound)
  {
    var (h, rest) :- ReadHead(b);
    if h.arg.None? || h.arg.value >= bound then None
    else if h.major == UNSIGNED then Some((h.arg.value, rest))
    else if h.major == NEGATIVE then Some((-1 - h.arg.value, rest))
    else None
  }

  /** A definite-length byte or text string: its head, then its bytes. */
  function EncodeString(major: Major, s: Bytes): Bytes
    requires |s| < TWO_64
  {
    HeadBytes(major, |s|) + s
  }

  function ReadString(b: Bytes, major: Major): (r: Option<(Bytes, Bytes)>)
    ensures r.Some? ==> IsSuffix(r.value.1, b) && |r.value.1| < |b| && |r.value.0| < TWO_64
  {
    var (h, rest) :- ReadHead(b);
    if h.major != major || h.arg.None? || |rest| < h.arg.value then None
    else
      assert rest[h.arg.value..] == b[|b| - |rest| + h.arg.value..];
      Some((rest[..h.arg.value], rest[h.arg.value..]))
  }

  /** A UTF-8 text item; `d.str()` rejects other bytes. */
  function ReadText(b: Bytes): (r: Option<(Bytes, Bytes)>)
    ensures r.Some? ==> IsSuffix(r.value.1, b) && |r.value.1| < |b| && ValidText(r.value.0)
  {
    var (s, rest) :- ReadString(b, TEXT);
    if IsUtf8(s) then Some((s, rest)) else None
  }

  function ReadTag(b: Bytes): (r: Option<(U64, Bytes)>)
    ensures r.Some? ==> IsSuffix(r.value.1, b) && |r.value.1| < |b|
  {
    var (h, rest) :- ReadHead(b);
    if h.major == TAG && h.arg.Some? then Some((h.arg.value, rest)) else None
  }

  /** An array or map head; `None` as its length means that a break ends it. */
  function ReadContainer(b: Bytes, major: Major): (r: Option<(Option<U64>, Bytes)>)
    ensures r.Some? ==> IsSuffix(r.value.1, b) && |r.value.1| < |b|
  {
    var (h, rest) :- ReadHead(b);
    if h.major == major then Some((h.arg, rest)) else None
  }

  predicate IsContinuation(b: byte) {
    0x80 <= b <= 0xBF
  }

  /** Well-formed UTF-8, as in section 4 of RFC 3629. */
  predicate IsUtf8(s: Bytes)
    decreases |s|
  {
    if s == [] then true
    else if s[0] < 0x80 then IsUtf8(s[1..])
    else if 0xC2 <= s[0] <= 0xDF then |s| >= 2 && IsContinuation(s[1]) && IsUtf8(s[2..])
    else if 0xE0 <= s[0] <= 0xEF then
      && |s| >= 3
      && IsContinuation(s[1]) && IsContinuation(s[2])
      && (s[0] == 0xE0 ==> s[1] >= 0xA0)
      && (s[0] == 0xED ==> s[1] <= 0x9F)
      && IsUtf8(s[3..])
    else if 0xF0 <= s[0] <= 0xF4 then
      && |s| >= 4
      && IsContinuation(s[1]) && IsContinuation(s[2]) && IsContinuation(s[3])
      && (s[0] == 0xF0 ==> s[1] >= 0x90)
      && (s[0] == 0xF4 ==> s[1] <= 0x8F)
      && IsUtf8(s[4..])
    else false
  }

  /** A Rust `String`: UTF-8 bytes whose length fits a 64-bit size. */
  predicate ValidText(s: Bytes) {
    |s| < TWO_64 && IsUtf8(s)
  }

  lemma UintRoundTrip(n: U64, bound: nat, s: Bytes)
    requires n < bound
    ensures ReadUint(EncodeUint(n) + s, bound) == Some((n, s))
  {
    HeadRoundTrip(UNSIGNED, n, s);
  }

  lemma IntRoundTrip(i: int, bound: nat, s: Bytes)
    requires IsInt(i, bound) && bound <= TWO_63
    ensures ReadInt(EncodeInt(i) + s, bound) == Some((i, s))
  {
    HeadRoundTrip(UNSIGNED, if i >= 0 then i else 0, s);
    HeadRoundTrip(NEGATIVE, if i >= 0 then 0 else -1 - i, s);
  }

  lemma StringRoundTrip(major: Major, t: Bytes, s: Bytes)
    requires |t| < TWO_64
    ensures ReadString(EncodeString(major, t) + s, major) == Some((t, s))
    ensures major == TEXT && IsUtf8(t) ==> ReadText(EncodeString(major, t) + s) == Some((t, s))
  {
    assert EncodeString(major, t) + s == HeadBytes(major, |t|) + (t + s);
    HeadRoundTrip(major, |t|, t + s);
    assert (t + s)[..|t|] == t && (t + s)[|t|..] == s;
  }

  // -------------------------------------------------------------------------------------------
  // The encoder buffer and the decoder cursor
  // -------------------------------------------------------------------------------------------

  /** What a read leaves: the value and the moved cursor, or an error at an unspecified place. */
  ghost predicate ReadAs<T(!new)>(spec: Option<(T, Bytes)>, r: Option<T>, rest: Bytes) {
    match spec
    case None => r == None
    case Some((v, left)) => r == Some(v) && rest == left
  }

  class Encoder {
    var buf: Bytes

    constructor ()
      ensures buf == []
    {
      buf := [];
    }

    method Head(major: Major, n: U64)
      modifies this
      ensures buf == old(buf) + HeadBytes(major, n)
    {
      buf := buf + HeadBytes(major, n);
    }

    method Raw(b: Bytes)
      modifies this
      ensures buf == old(buf) + b
    {
      buf := buf + b;
    }

    method Int(i: int)
      requires IsInt(i, TWO_63)
      modifies this
      ensures buf == old(buf) + EncodeInt(i)
    {
      if i >= 0 {
        Head(UNSIGNED, i);
      } else {
        Head(NEGATIVE, -1 - i);
      }
    }

    method Str(major: Major, s: Bytes)
      requires |s| < TWO_64
      modifies this
      ensures buf == old(buf) + EncodeString(major, s)
    {
      Head(major, |s|);
      Raw(s);
    }
  }

  class Decoder {
    /** The bytes at and after the cursor. */
    var rest: Bytes

    constructor (input: Bytes)
      ensures rest == input
    {
      rest := input;
    }

    method Skip()
      requires rest != []
      modifies this
      ensures rest == old(rest)[1..]
    {
      rest := rest[1..];
    }

    method Int(bound: nat) returns (r: Option<int>)
      modifies this
      ensures ReadAs(ReadInt(old(rest), bound), r, rest)
    {
      match ReadInt(rest, bound)
      case None => r := None;
      case Some((i, left)) => r, rest := Some(i), left;
    }

    method Uint(bound: nat) returns (r: Option<U64>)
      modifies this
      ensures ReadAs(ReadUint(old(rest), bound), r, rest)
    {
      match ReadUint(rest, bound)
      case None => r := None;
      case Some((n, left)) => r, rest := Some(n), left;
    }

    method Str(major: Major) returns (r: Option<Bytes>)
      modifies this
      ensures ReadAs(ReadString(old(rest), major), r, rest)
    {
      match ReadString(rest, major)
      case None => r := None;
      case Some((s, left)) => r, rest := Some(s), left;
    }

    method Text() returns (r: Option<Bytes>)
      modifies this
      ensures ReadAs(ReadText(old(rest)), r, rest)
    {
      match ReadText(rest)
      case None => r := None;
      case Some((s, left)) => r, rest := Some(s), left;
    }

    method Tag() returns (r: Option<U64>)
      modifies this
      ensures ReadAs(ReadTag(old(rest)), r, rest)
    {
      match ReadTag(rest)
      case None => r := None;
      case Some((t, left)) => r, rest := Some(t), left;
    }

    method Container(major: Major) returns (r: Option<Option<U64>>)
      modifies this
      ensures ReadAs(ReadContainer(old(rest), major), r, rest)
    {
      match ReadContainer(rest, major)
      case None => r := None;
      case Some((len, left)) => r, rest := Some(len), left;
    }
  }
}
