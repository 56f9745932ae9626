/** Published test vectors, and values that the repository's own tests fix. */
module KnownAnswers {
  import opened Bytes
  import opened Cbor
  import A = Address
  import Base32

  /** How a digit is written, for the digits used here. */
  lemma LettersOf(d: seq<Base32.Digit>, s: string)
    requires |d| == |s| && forall i :: 0 <= i < |d| ==> Base32.Letter(d[i]) == s[i]
    ensures Base32.Letters(d) == s
    decreases |d|
  {
    if d == [] {
    } else {
      LettersOf(d[1..], s[1..]);
      assert s == [s[0]] + s[1..];
    }
  }

  lemma Encoded(b: Bytes, d: seq<Base32.Digit>, s: string)
    requires Base32.Digits(b) == d
    requires |d| == |s| && forall i :: 0 <= i < |d| ==> Base32.Letter(d[i]) == s[i]
    ensures Base32.Encode(b) == s
  {
    hide Base32.Digits, Base32.Letters;
    LettersOf(d, s);
  }

  lemma OneByte()
    ensures Base32.Digits([0x66]) == [12, 24]
  {
    assert [0x66] + Repeat(0, 4) == [0x66, 0, 0, 0, 0];
    assert Base32.Block([0x66, 0, 0, 0, 0])[..2] == [12, 24];
  }

  lemma ThreeBytes()
    ensures Base32.Digits([0x66, 0x6F, 0x6F]) == [12, 25, 23, 22, 30]
  {
    assert [0x66, 0x6F, 0x6F] + Repeat(0, 2) == [0x66, 0x6F, 0x6F, 0, 0];
    assert Base32.Block([0x66, 0x6F, 0x6F, 0, 0])[..5] == [12, 25, 23, 22, 30];
  }

  lemma OneMoreByte()
    ensures Base32.Digits([0x72]) == [14, 8]
  {
    assert [0x72] + Repeat(0, 4) == [0x72, 0, 0, 0, 0];
    assert Base32.Block([0x72, 0, 0, 0, 0])[..2] == [14, 8];
  }

  lemma SixBytes()
    ensures Base32.Digits([0x66, 0x6F, 0x6F, 0x62, 0x61, 0x72]) == [12, 25, 23, 22, 30, 24, 19, 1, 14, 8]
  {
    hide Repeat;
    var b: Bytes := [0x66, 0x6F, 0x6F, 0x62, 0x61, 0x72];
    assert b[..5] == [0x66, 0x6F, 0x6F, 0x62, 0x61] && b[5..] == [0x72];
    assert Base32.Block([0x66, 0x6F, 0x6F, 0x62, 0x61]) == [12, 25, 23, 22, 30, 24, 19, 1];
    OneMoreByte();
  }

  /** Vectors of section 10 of RFC 4648, in lower case and without padding: "f", "foo" and "foobar". */
  lemma Base32Vectors()
    ensures Base32.Encode([0x66]) == "my"
    ensures Base32.Encode([0x66, 0x6F, 0x6F]) == "mzxw6"
    ensures Base32.Encode([0x66, 0x6F, 0x6F, 0x62, 0x61, 0x72]) == "mzxw6ytboi"
  {
    hide Base32.Digits, Base32.Encode;
    OneByte();
    Encoded([0x66], [12, 24], "my");
    ThreeBytes();
    Encoded([0x66, 0x6F, 0x6F], [12, 25, 23, 22, 30], "mzxw6");
    SixBytes();
    Encoded([0x66, 0x6F, 0x6F, 0x62, 0x61, 0x72], [12, 25, 23, 22, 30, 24, 19, 1, 14, 8], "mzxw6ytboi");
  }

  lemma CrcNext(b: Bytes, x: byte)
    ensures A.Crc16(b + [x]) == A.CrcBits(A.Crc16(b) ^ (x as bv16), 8)
  {
    assert (b + [x])[..|b|] == b;
  }

  lemma FirstBits()
    ensures A.CrcBits(0x31, 8) == 0xD4C1
  {
  }

  lemma SecondBits()
    ensures A.CrcBits(0xD4F3, 8) == 0x4594
  {
  }

  /** The checksums of one and of two bytes, on the way to the check value of this CRC. */
  lemma CrcVectors()
    ensures A.Crc16([0x31]) == 0xD4C1
    ensures A.Crc16([0x31, 0x32]) == 0x4594
  {
    hide A.CrcBits, A.Crc16;
    assert [] + [0x31] == [0x31];
    CrcNext([], 0x31);
    NoCrc();
    FirstBits();
    assert [0x31] + [0x32] == [0x31, 0x32];
    CrcNext([0x31], 0x32);
    SecondBits();
  }

  lemma NoCrc()
    ensures A.Crc16([]) == 0
  {
  }

  lemma IllegalCrc()
    ensures A.Crc16([2]) == 0xC181
  {
    assert [] + [2] == [2];
    CrcNext([], 2);
    assert A.CrcBits(2, 8) == 0xC181;
  }

  lemma IllegalChecksum()
    ensures A.CrcBytes([2]) == [0xC1, 0x81] && Base32.Encode([0xC1, 0x81])[..2] == "yg"
  {
    hide A.Crc16, Repeat;
    IllegalCrc();
    TwoBytes();
    Encoded([0xC1, 0x81], [24, 6, 0, 16], "ygaq");
  }

  lemma TwoBytes()
    ensures Base32.Digits([0xC1, 0x81]) == [24, 6, 0, 16]
  {
    assert [0xC1, 0x81] + Repeat(0, 3) == [0xC1, 0x81, 0, 0, 0];
    assert Base32.Block([0xC1, 0x81, 0, 0, 0])[..4] == [24, 6, 0, 16];
  }

  /** The illegal address is written "maiyg". */
  lemma IllegalText()
    ensures A.ToText(A.ILLEGAL) == "maiyg"
  {
    hide A.CrcBytes, Base32.Encode;
    A.IllegalIsNotAnAlias();
    IllegalChecksum();
  }

  lemma Heads()
    ensures HeadBytes(UNSIGNED, 1000) == [0x19, 0x03, 0xE8]
    ensures HeadBytes(UNSIGNED, 1000000) == [0x1A, 0x00, 0x0F, 0x42, 0x40]
    ensures HeadBytes(NEGATIVE, 99) == [0x38, 0x63]
  {
    assert ToBe(1000, 2) == ToBe(3, 1) + [0xE8];
    assert ToBe(1000000, 4) == ToBe(3906, 3) + [0x40];
    assert ToBe(3906, 3) == ToBe(15, 2) + [0x42];
    assert ToBe(15, 2) == ToBe(0, 1) + [15];
    assert ToBe(0, 1) == ToBe(0, 0) + [0];
    assert ToBe(3, 1) == ToBe(0, 0) + [3];
    assert ToBe(99, 1) == ToBe(0, 0) + [99];
  }

  /** Heads of examples in appendix A of RFC 8949: integers, strings, containers, a tag and simple values. */
  lemma CborVectors()
    ensures EncodeInt(23) == [0x17] && EncodeInt(-10) == [0x29] && EncodeInt(-100) == [0x38, 0x63]
    ensures EncodeInt(1000) == [0x19, 0x03, 0xE8] && EncodeInt(1000000) == [0x1A, 0x00, 0x0F, 0x42, 0x40]
    ensures HeadBytes(BYTES, 4) == [0x44] && HeadBytes(TEXT, 4) == [0x64]
    ensures HeadBytes(ARRAY, 3) == [0x83] && HeadBytes(MAP, 2) == [0xA2] && HeadBytes(TAG, 1) == [0xC1]
    ensures FALSE_BYTE == 0xF4 && TRUE_BYTE == 0xF5 && NULL_BYTE == 0xF6 && BREAK_BYTE == 0xFF
  {
    Heads();
    hide ToBe;
  }
}
