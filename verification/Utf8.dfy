/** Well-formed text is exactly what the characters of some Unicode text are encoded as. */
module Utf8 {
  import opened Bytes
  import opened Cbor

  /** A Unicode scalar value: a code point that is no surrogate. */
  type Scalar = c: nat | c < 0xD800 || 0xE000 <= c < 0x11_0000

  /** The last six bits of a number, and the others. */
  function Low(n: nat): (r: nat)
    ensures r < 0x40
  {
    n % 0x40
  }

  function High(n: nat): (q: nat)
    ensures n == 0x40 * q + Low(n)
  {
    n / 0x40
  }

  lemma Parts(q: nat, r: nat)
    requires r < 0x40
    ensures High(0x40 * q + r) == q && Low(0x40 * q + r) == r
  {
  }

  /** The encoding of one character, as in section 3 of RFC 3629: its bits in groups of six, from the last. */
  function EncodeChar(c: Scalar): (b: Bytes)
    ensures 1 <= |b| <= 4
  {
    hide Low, High;
    var six := High(c);
    var twelve := High(six);
    if c < 0x80 then [c]
    else if c < 0x800 then [0xC0 + six, 0x80 + Low(c)]
    else if c < 0x1_0000 then [0xE0 + twelve, 0x80 + Low(six), 0x80 + Low(c)]
    else [0xF0 + High(twelve), 0x80 + Low(twelve), 0x80 + Low(six), 0x80 + Low(c)]
  }

  function EncodeText(cs: seq<Scalar>): Bytes {
    if cs == [] then [] else EncodeChar(cs[0]) + EncodeText(cs[1..])
  }

  /** The length and the bytes of well-formed sequences, by their first byte. */
  lemma Utf8Head(b: Bytes, s: Bytes)
    requires 1 <= |b| <= 4
    requires |b| == 1 ==> b[0] < 0x80
    requires |b| == 2 ==> 0xC2 <= b[0] <= 0xDF && IsContinuation(b[1])
    requires |b| == 3 ==> 0xE0 <= b[0] <= 0xEF && IsContinuation(b[1]) && IsContinuation(b[2])
    requires |b| == 3 ==> (b[0] == 0xE0 ==> b[1] >= 0xA0) && (b[0] == 0xED ==> b[1] <= 0x9F)
    requires |b| == 4 ==> 0xF0 <= b[0] <= 0xF4
    requires |b| == 4 ==> IsContinuation(b[1]) && IsContinuation(b[2]) && IsContinuation(b[3])
    requires |b| == 4 ==> (b[0] == 0xF0 ==> b[1] >= 0x90) && (b[0] == 0xF4 ==> b[1] <= 0x8F)
    ensures IsUtf8(b + s) <==> IsUtf8(s)
  {
    assert (b + s)[|b|..] == s;
  }

  lemma CharThenMore(c: Scalar, s: Bytes)
    ensures IsUtf8(EncodeChar(c) + s) <==> IsUtf8(s)
  {
    hide IsUtf8, Low, High;
    Utf8Head(EncodeChar(c), s);
  }

  lemma {:induction false} TextIsUtf8(cs: seq<Scalar>)
    ensures IsUtf8(EncodeText(cs))
  {
    if cs == [] {
    } else {
      TextIsUtf8(cs[1..]);
      CharThenMore(cs[0], EncodeText(cs[1..]));
    }
  }

  /** The first character of well-formed bytes. */
  lemma FirstChar(s: Bytes) returns (c: Scalar)
    requires s != [] && IsUtf8(s)
    ensures EncodeChar(c) <= s
  {
    hide Low, High;
    if s[0] < 0x80 {
      c := s[0];
    } else if s[0] <= 0xDF {
      var x: nat, y: nat := s[0] as int - 0xC0, s[1] as int - 0x80;
      Parts(x, y);
      c := 0x40 * x + y;
    } else if s[0] <= 0xEF {
      var x: nat, y: nat, z: nat := s[0] as int - 0xE0, s[1] as int - 0x80, s[2] as int - 0x80;
      Parts(x, y);
      Parts(0x40 * x + y, z);
      c := 0x40 * (0x40 * x + y) + z;
    } else {
      var w: nat, x: nat := s[0] as int - 0xF0, s[1] as int - 0x80;
      var y: nat, z: nat := s[2] as int - 0x80, s[3] as int - 0x80;
      Parts(w, x);
      Parts(0x40 * w + x, y);
      Parts(0x40 * (0x40 * w + x) + y, z);
      c := 0x40 * (0x40 * (0x40 * w + x) + y) + z;
    }
  }

  lemma {:induction false} Utf8IsText(s: Bytes) returns (cs: seq<Scalar>)
    requires IsUtf8(s)
    ensures EncodeText(cs) == s
    decreases |s|
  {
    if s == [] {
      cs := [];
    } else {
      var c := FirstChar(s);
      var n := |EncodeChar(c)|;
      assert s == EncodeChar(c) + s[n..];
      CharThenMore(c, s[n..]);
      cs := Utf8IsText(s[n..]);
      cs := [c] + cs;
    }
  }

  /** The bytes accepted as text are those that encode some sequence of characters. */
  lemma Utf8Iff(s: Bytes)
    ensures IsUtf8(s) <==> exists cs :: EncodeText(cs) == s
  {
    if IsUtf8(s) {
      var cs := Utf8IsText(s);
    }
    forall cs | EncodeText(cs) == s ensures IsUtf8(s) {
      TextIsUtf8(cs);
    }
  }
}
