/** Addresses and timestamps on the wire. */
module AddressCbor {
  import opened Wrappers
  import opened Bytes
  import opened Cbor
  import A = Address

  const IDENTITY_TAG := 10000
  const TIMESTAMP_TAG := 1

  function EncodeAddress(a: A.Address): Bytes
    requires A.Valid(a)
  {
    HeadBytes(TAG, IDENTITY_TAG) + EncodeString(BYTES, A.ToVec(a))
  }

  function AsChars(t: Bytes): string {
    seq(|t|, i requires 0 <= i < |t| => t[i] as char)
  }

  /** Any number of tags, then a text, or bytes if one of the tags was the identity tag. */
  function DecodeTagged(b: Bytes, tagged: bool): (r: Option<(A.Address, Bytes)>)
    ensures r.Some? ==> |r.value.1| < |b| && A.Valid(r.value.0)
    decreases |b|
  {
    if b == [] then None
    else if b[0] / 32 == TAG then
      var (t, rest) :- ReadTag(b);
      DecodeTagged(rest, tagged || t == IDENTITY_TAG)
    else if b[0] / 32 == TEXT then
      var (t, rest) :- ReadText(b);
      var a :- A.FromText(AsChars(t));
      A.FromTextCanonical(AsChars(t));
      Some((a, rest))
    else if !tagged then None
    else
      var (x, rest) :- ReadString(b, BYTES);
      var a :- A.FromBytes(x);
      A.FromBytesCanonical(x);
      Some((a, rest))
  }

  function DecodeAddress(b: Bytes): (r: Option<(A.Address, Bytes)>)
    ensures r.Some? ==> |r.value.1| < |b| && A.Valid(r.value.0)
  {
    DecodeTagged(b, false)
  }

  lemma AddressRoundTrip(a: A.Address, s: Bytes)
    requires A.Valid(a)
    ensures DecodeAddress(EncodeAddress(a) + s) == Some((a, s))
  {
    hide A.ToVec, A.FromBytes, A.FromText, A.Valid;
    var x := EncodeString(BYTES, A.ToVec(a));
    Assoc(HeadBytes(TAG, IDENTITY_TAG), x, s);
    HeadRoundTrip(TAG, IDENTITY_TAG, x + s);
    StringRoundTrip(BYTES, A.ToVec(a), s);
    A.BytesRoundTrip(a);
    assert DecodeTagged(x + s, true) == Some((a, s));
  }

  function EncodeTimestamp(secs: U64): Bytes {
    HeadBytes(TAG, TIMESTAMP_TAG) + EncodeUint(secs)
  }

  function DecodeTimestamp(b: Bytes): (r: Option<(U64, Bytes)>)
    ensures r.Some? ==> |r.value.1| < |b|
  {
    var (t, rest) :- ReadTag(b);
    if t != TIMESTAMP_TAG then None else ReadUint(rest, TWO_64)
  }

  lemma TimestampRoundTrip(secs: U64, s: Bytes)
    ensures DecodeTimestamp(EncodeTimestamp(secs) + s) == Some((secs, s))
  {
    Assoc(HeadBytes(TAG, TIMESTAMP_TAG), EncodeUint(secs), s);
    HeadRoundTrip(TAG, TIMESTAMP_TAG, EncodeUint(secs) + s);
    UintRoundTrip(secs, TWO_64, s);
  }

  // -------------------------------------------------------------------------------------------
  // Other forms
  // -------------------------------------------------------------------------------------------

  lemma {:induction false} AsciiIsUtf8(b: Bytes)
    requires forall i :: 0 <= i < |b| ==> b[i] < 128
    ensures IsUtf8(b)
  {
    if b == [] {
    } else {
      AsciiIsUtf8(b[1..]);
    }
  }

  lemma TextIsAscii(a: A.Address, text: Bytes)
    requires A.Valid(a) && AsChars(text) == A.ToText(a)
    ensures forall i :: 0 <= i < |text| ==> text[i] < 128
  {
    hide A.ToText, A.Valid;
    A.TextAlphabet(a);
    forall i | 0 <= i < |text| ensures text[i] < 128 {
      assert AsChars(text)[i] == text[i] as char;
    }
  }

  lemma AfterTag(t: U64, b: Bytes)
    ensures DecodeAddress(HeadBytes(TAG, t) + b) == DecodeTagged(b, t == IDENTITY_TAG)
  {
    hide HeadBytes, A.FromText, A.FromBytes, ReadText, ReadString;
    HeadRoundTrip(TAG, t, b);
    assert (HeadBytes(TAG, t) + b)[0] == HeadBytes(TAG, t)[0];
    assert DecodeTagged(HeadBytes(TAG, t) + b, false) == DecodeTagged(b, t == IDENTITY_TAG);
  }

  /** The text form of an address is read as the address, with any tag in front or none; untagged bytes are not. */
  lemma AddressForms(a: A.Address, text: Bytes, x: Bytes, t: U64, s: Bytes)
    requires A.Valid(a) && AsChars(text) == A.ToText(a) && |text| < TWO_64 && |x| < TWO_64
    ensures DecodeAddress(EncodeString(TEXT, text) + s) == Some((a, s))
    ensures DecodeAddress(HeadBytes(TAG, t) + (EncodeString(TEXT, text) + s)) == Some((a, s))
    ensures DecodeAddress(EncodeString(BYTES, x) + s) == None
  {
    hide A.ToText, A.FromText, A.Valid, A.FromBytes, HeadBytes, AsChars, IsUtf8;
    TextIsAscii(a, text);
    AsciiIsUtf8(text);
    A.TextRoundTrip(a);
    var b := EncodeString(TEXT, text) + s;
    StringRoundTrip(TEXT, text, s);
    assert b[0] == HeadBytes(TEXT, |text|)[0];
    assert forall tagged :: DecodeTagged(b, tagged) == Some((a, s));
    AfterTag(t, b);
    assert (EncodeString(BYTES, x) + s)[0] == HeadBytes(BYTES, |x|)[0];
  }
}
