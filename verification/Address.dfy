/**
 * Identity addresses: a 32-byte array whose first byte says what it is. The byte form drops
 * the unused tail, the text form is base32 with a two-letter checksum, and a subresource packs
 * a 31-bit id into the first byte and the last three.
 */
module Address {
  import opened Wrappers
  import opened Bytes
  import Base32

  const MAX_SUBRESOURCE_ID: nat := 0x7FFF_FFFF
  const ANONYMOUS_KIND: byte := 0
  const PUBLIC_KEY_KIND: byte := 1
  const ILLEGAL_KIND: byte := 2

  type U32 = n: int | 0 <= n < TWO_32
  type Hash = h: Bytes | |h| == 28 witness Repeat(0, 28)
  type Raw = b: Bytes | |b| == 32 witness Repeat(0, 32)

  datatype Address = Address(bytes: Raw)

  const ANONYMOUS: Address := Address(Repeat(ANONYMOUS_KIND, 32))
  const ILLEGAL: Address := Address(Repeat(ILLEGAL_KIND, 32))

  predicate IsAnonymous(a: Address) { a.bytes[0] == ANONYMOUS_KIND }
  predicate IsIllegal(a: Address) { a.bytes[0] == ILLEGAL_KIND }
  predicate IsPublicKey(a: Address) { a.bytes[0] == PUBLIC_KEY_KIND }
  predicate IsSubresource(a: Address) { a.bytes[0] >= 0x80 }

  /** The addresses the constructors can build. */
  predicate Valid(a: Address) {
    || a == ANONYMOUS
    || a == ILLEGAL
    || (IsPublicKey(a) && a.bytes[29..] == [0, 0, 0])
    || IsSubresource(a)
  }

  lemma AnonymousIsUnique(a: Address)
    requires Valid(a) && IsAnonymous(a)
    ensures a == ANONYMOUS
  {
  }

  // -------------------------------------------------------------------------------------------
  // Keys and subresources
  // -------------------------------------------------------------------------------------------

  function PublicKey(hash: Hash): (a: Address)
    ensures IsPublicKey(a) && Valid(a)
  {
    Address([PUBLIC_KEY_KIND] + hash + [0, 0, 0])
  }

  method BuildPublicKey(hash: Hash) returns (a: Address)
    ensures a == PublicKey(hash)
  {
    var bytes := new byte[32](_ => 0);
    bytes[0] := PUBLIC_KEY_KIND;
    var len := 28;
    while len > 0
      invariant 0 <= len <= 28
      invariant bytes[0] == PUBLIC_KEY_KIND
      invariant bytes[1 + len..29] == hash[len..]
      invariant forall i :: 29 <= i < 32 ==> bytes[i] == 0
    {
      len := len - 1;
      bytes[1 + len] := hash[len];
      assert bytes[1 + len..29] == [hash[len]] + bytes[2 + len..29];
    }
    assert bytes[..] == [bytes[0]] + bytes[1..29] + [bytes[29], bytes[30], bytes[31]];
    a := Address(bytes[..]);
  }

  /** The first byte of a subresource: its high bit set, then the id's top seven bits. */
  function Discriminant(id: U32): (d: byte)
    ensures d >= 0x80
  {
    0x80 + id / 0x100_0000 % 0x80
  }

  function Subresource(hash: Hash, id: U32): (a: Address)
    ensures IsSubresource(a) && Valid(a)
  {
    Address([Discriminant(id)] + hash + [id / 0x1_0000 % 0x100, id / 0x100 % 0x100, id % 0x100])
  }

  /** Where the parts of a subresource are. */
  lemma SubresourceParts(hash: Hash, id: U32)
    ensures var b := Subresource(hash, id).bytes;
            && b[0] == Discriminant(id) && b[1..29] == hash
            && b[29] == id / 0x1_0000 % 0x100 && b[30] == id / 0x100 % 0x100 && b[31] == id % 0x100
  {
  }

  lemma SameParts(x: Raw, y: Raw)
    requires x[0] == y[0] && x[1..29] == y[1..29] && x[29] == y[29] && x[30] == y[30] && x[31] == y[31]
    ensures x == y
  {
    assert x == [x[0]] + x[1..29] + [x[29], x[30], x[31]];
    assert y == [y[0]] + y[1..29] + [y[29], y[30], y[31]];
  }

  method BuildSubresource(hash: Hash, id: U32) returns (a: Address)
    ensures a == Subresource(hash, id)
  {
    hide Subresource, Discriminant;
    var key := BuildPublicKey(hash);
    var bytes: Raw := key.bytes;
    assert bytes[1..29] == hash;
    bytes := bytes[0 := Discriminant(id)];
    bytes := bytes[29 := id / 0x1_0000 % 0x100];
    bytes := bytes[30 := id / 0x100 % 0x100];
    bytes := bytes[31 := id % 0x100];
    assert bytes[1..29] == hash;
    SubresourceParts(hash, id);
    SameParts(bytes, Subresource(hash, id).bytes);
    a := Address(bytes);
  }

  /** The public key hash of a key or of one of its subresources. */
  function KeyHash(a: Address): Option<Hash> {
    if IsPublicKey(a) || IsSubresource(a) then Some(a.bytes[1..29]) else None
  }

  method ReadKeyHash(a: Address) returns (h: Option<Hash>)
    ensures h == KeyHash(a)
  {
    if !IsPublicKey(a) && !IsSubresource(a) {
      return None;
    }
    var hash := new byte[28](_ => 0);
    var len := 28;
    while len > 0
      invariant 0 <= len <= 28
      invariant hash[len..] == a.bytes[1 + len..29]
    {
      len := len - 1;
      hash[len] := a.bytes[1 + len];
      assert hash[len..] == [a.bytes[1 + len]] + hash[len + 1..];
    }
    h := Some(hash[..]);
  }

  /** Four bytes as a number, most significant first. */
  function Be32(b0: int, b1: int, b2: int, b3: int): int {
    b0 * 0x100_0000 + b1 * 0x1_0000 + b2 * 0x100 + b3
  }

  function SubresourceId(a: Address): Option<U32> {
    if IsSubresource(a) then
      Some(Be32(a.bytes[0] % 0x80, a.bytes[29], a.bytes[30], a.bytes[31]))
    else None
  }

  function WithSubresourceId(a: Address, id: nat): Option<Address> {
    var hash :- KeyHash(a);
    if id > MAX_SUBRESOURCE_ID then None else Some(Subresource(hash, id))
  }

  function IntoPublicKey(a: Address): Option<Address> {
    var hash :- KeyHash(a);
    Some(PublicKey(hash))
  }

  /** Packing an id and reading it back is exact, and keeps the key. */
  lemma SubresourceExact(a: Address, id: nat)
    requires id <= MAX_SUBRESOURCE_ID && (IsPublicKey(a) || IsSubresource(a))
    ensures var s := WithSubresourceId(a, id);
            && s.Some?
            && SubresourceId(s.value) == Some(id)
            && KeyHash(s.value) == KeyHash(a)
            && IntoPublicKey(s.value) == IntoPublicKey(a)
  {
    hide Subresource, PublicKey, SubresourceId;
    IdReadBack(a.bytes[1..29], id);
  }

  lemma IdReadBack(hash: Hash, id: nat)
    requires id <= MAX_SUBRESOURCE_ID
    ensures SubresourceId(Subresource(hash, id)) == Some(id) && KeyHash(Subresource(hash, id)) == Some(hash)
  {
    hide Subresource, Be32, Discriminant;
    SubresourceParts(hash, id);
    TopBits(id);
    Rebuild(id);
  }

  lemma TopBits(id: nat)
    requires id <= MAX_SUBRESOURCE_ID
    ensures Discriminant(id) % 0x80 == id / 0x100_0000 % 0x80
  {
  }

  /** A 31-bit number is its top seven bits and its three low bytes. */
  lemma Rebuild(id: nat)
    requires id < TWO_31
    ensures id == Be32(id / 0x100_0000 % 0x80, id / 0x1_0000 % 0x100, id / 0x100 % 0x100, id % 0x100)
  {
    assert id / 0x100 / 0x100 == id / 0x1_0000;
    assert id / 0x1_0000 / 0x100 == id / 0x100_0000;
  }

  /** Distinct hashes or distinct ids give distinct addresses. */
  lemma SubresourceInjective(h1: Hash, id1: nat, h2: Hash, id2: nat)
    requires id1 <= MAX_SUBRESOURCE_ID && id2 <= MAX_SUBRESOURCE_ID
    requires Subresource(h1, id1) == Subresource(h2, id2)
    ensures h1 == h2 && id1 == id2
  {
    assert Subresource(h1, id1).bytes[1..29] == h1 && Subresource(h2, id2).bytes[1..29] == h2;
    SubresourceExact(PublicKey(h1), id1);
    SubresourceExact(PublicKey(h2), id2);
    assert PublicKey(h1).bytes[1..29] == h1 && PublicKey(h2).bytes[1..29] == h2;
  }

  // -------------------------------------------------------------------------------------------
  // Equality and matching
  // -------------------------------------------------------------------------------------------

  /** The hand-written equality, which looks at no more bytes than the kind uses. */
  predicate Eq(a: Address, b: Address) {
    if a.bytes[0] == ANONYMOUS_KIND && b.bytes[0] == ANONYMOUS_KIND then true
    else if a.bytes[0] == PUBLIC_KEY_KIND && b.bytes[0] == PUBLIC_KEY_KIND then a.bytes[1..29] == b.bytes[1..29]
    else if a.bytes[0] == ILLEGAL_KIND && b.bytes[0] == ILLEGAL_KIND then true
    else if a.bytes[0] >= 0x80 && a.bytes[0] == b.bytes[0] then a.bytes[1..] == b.bytes[1..]
    else false
  }

  /** On every address that can be built, that equality is equality of the arrays. */
  lemma EqIsByteEquality(a: Address, b: Address)
    requires Valid(a) && Valid(b)
    ensures Eq(a, b) <==> a == b
  {
    hide Repeat;
    if Eq(a, b) && IsPublicKey(a) {
      SameCuts(a.bytes, b.bytes);
    } else if Eq(a, b) && IsSubresource(a) {
      assert a.bytes == [a.bytes[0]] + a.bytes[1..] && b.bytes == [b.bytes[0]] + b.bytes[1..];
    }
  }

  lemma SameCuts(x: Raw, y: Raw)
    requires x[0] == y[0] && x[1..29] == y[1..29] && x[29..] == y[29..]
    ensures x == y
  {
    assert x == [x[0]] + x[1..29] + x[29..] && y == [y[0]] + y[1..29] + y[29..];
  }

  /** Equality up to subresource ids. */
  predicate Matches(a: Address, b: Address) {
    if IsAnonymous(a) then IsAnonymous(b)
    else if IsIllegal(a) then IsIllegal(b)
    else KeyHash(a) == KeyHash(b)
  }

  /** The kinds of address `Matches` tells apart. */
  datatype Class = AnonymousClass | IllegalClass | KeyClass(hash: Hash)

  function ClassOf(a: Address): Class
    requires Valid(a)
  {
    if IsAnonymous(a) then AnonymousClass
    else if IsIllegal(a) then IllegalClass
    else KeyClass(KeyHash(a).value)
  }

  lemma PublicKeyHash(hash: Hash)
    ensures KeyHash(PublicKey(hash)) == Some(hash)
  {
    assert PublicKey(hash).bytes[1..29] == hash;
  }

  /** Matching is having the same class, hence an equivalence; a key matches its subresources. */
  lemma MatchesIsSameClass(a: Address, b: Address)
    requires Valid(a) && Valid(b)
    ensures Matches(a, b) <==> ClassOf(a) == ClassOf(b)
    ensures Matches(a, b) <==>
              || (a == ANONYMOUS && b == ANONYMOUS)
              || (a == ILLEGAL && b == ILLEGAL)
              || (IntoPublicKey(a).Some? && IntoPublicKey(a) == IntoPublicKey(b))
  {
    hide PublicKey;
    if KeyHash(a).Some? && KeyHash(b).Some? {
      PublicKeyHash(KeyHash(a).value);
      PublicKeyHash(KeyHash(b).value);
    }
  }

  // -------------------------------------------------------------------------------------------
  // Byte form
  // -------------------------------------------------------------------------------------------

  function ToVec(a: Address): (b: Bytes)
    requires Valid(a)
    ensures |b| == 1 || |b| == 29 || |b| == 32
  {
    if IsAnonymous(a) then [ANONYMOUS_KIND]
    else if IsPublicKey(a) then [PUBLIC_KEY_KIND] + a.bytes[1..29]
    else if IsIllegal(a) then [ILLEGAL_KIND]
    else a.bytes
  }

  function FromBytes(b: Bytes): Option<Address> {
    if b == [] then None
    else if b[0] == ANONYMOUS_KIND then if |b| > 1 then None else Some(ANONYMOUS)
    else if b[0] == PUBLIC_KEY_KIND then if |b| != 29 then None else Some(PublicKey(b[1..29]))
    else if b[0] == ILLEGAL_KIND then if |b| > 1 then None else Some(ILLEGAL)
    else if b[0] >= 0x80 then
      if |b| != 32 then None
      else Some(Subresource(b[1..29], Be32(b[0], b[29], b[30], b[31])))
    else None
  }

  lemma Be32Bytes(b0: int, b1: byte, b2: byte, b3: byte)
    requires 0 <= b0 < 256
    ensures var n := Be32(b0, b1, b2, b3);
            0 <= n < TWO_32 && n / 0x100_0000 == b0 && n / 0x1_0000 % 0x100 == b1 && n / 0x100 % 0x100 == b2 &&
              n % 0x100 == b3
  {
    var n := Be32(b0, b1, b2, b3);
    assert n / 0x100 == b0 * 0x1_0000 + b1 * 0x100 + b2;
    assert n / 0x1_0000 == b0 * 0x100 + b1;
  }

  lemma DiscriminantOf(b0: byte, b1: byte, b2: byte, b3: byte)
    requires b0 >= 0x80
    ensures 0 <= Be32(b0, b1, b2, b3) < TWO_32 && Discriminant(Be32(b0, b1, b2, b3)) == b0
  {
    hide Be32;
    Be32Bytes(b0, b1, b2, b3);
  }

  /** Reading four bytes as a number and packing it again restores the four bytes. */
  lemma Repack(b: Bytes)
    requires |b| == 32 && b[0] >= 0x80
    ensures Subresource(b[1..29], Be32(b[0], b[29], b[30], b[31])).bytes == b
  {
    hide Subresource, Be32, Discriminant;
    var id := Be32(b[0], b[29], b[30], b[31]);
    DiscriminantOf(b[0], b[29], b[30], b[31]);
    Be32Bytes(b[0], b[29], b[30], b[31]);
    SubresourceParts(b[1..29], id);
    SameParts(Subresource(b[1..29], id).bytes, b);
  }

  lemma BytesRoundTrip(a: Address)
    requires Valid(a)
    ensures FromBytes(ToVec(a)) == Some(a)
  {
    hide Subresource, Be32, Repeat, PublicKey;
    if IsPublicKey(a) {
      KeyParts(a.bytes);
      assert ToVec(a)[1..29] == a.bytes[1..29];
    } else if IsSubresource(a) {
      Repack(a.bytes);
    }
  }

  /** A key address is determined by its hash. */
  lemma KeyParts(b: Raw)
    requires b[0] == PUBLIC_KEY_KIND && b[29..] == [0, 0, 0]
    ensures PublicKey(b[1..29]).bytes == b
  {
    assert b == [b[0]] + b[1..29] + b[29..];
  }

  lemma KeyBytes(hash: Hash)
    ensures PublicKey(hash).bytes[1..29] == hash
  {
  }

  /** Nothing else is accepted: the bytes are those of the address they decode to. */
  lemma FromBytesCanonical(b: Bytes)
    ensures FromBytes(b).Some? ==> Valid(FromBytes(b).value) && ToVec(FromBytes(b).value) == b
  {
    hide Subresource, Be32, Repeat, PublicKey;
    if FromBytes(b).Some? {
      if b[0] == PUBLIC_KEY_KIND {
        KeyBytes(b[1..29]);
        assert b == [b[0]] + b[1..29];
      } else if b[0] >= 0x80 {
        Repack(b);
      }
    }
  }

  /**
   * The byte strings that are addresses: one zero, one two, a one and 28 bytes, or 32 bytes that begin
   * with the high bit. Each form is read as the address whose array begins with it.
   */
  lemma FromBytesIff(b: Bytes)
    ensures FromBytes(b).Some? <==>
            b == [0] || b == [2] || (|b| == 29 && b[0] == 1) || (|b| == 32 && b[0] >= 0x80)
    ensures FromBytes(b).Some? && |b| > 1 ==> FromBytes(b).value.bytes == b + Repeat(0, 32 - |b|)
    ensures FromBytes([0]) == Some(ANONYMOUS) && FromBytes([2]) == Some(ILLEGAL)
  {
    hide Subresource, Be32;
    if |b| == 29 && b[0] == 1 {
      assert b == [b[0]] + b[1..29];
      assert Repeat(0, 3) == [0, 0, 0];
    } else if |b| == 32 && b[0] >= 0x80 {
      Repack(b);
      assert b + Repeat(0, 0) == b;
    }
  }

  // -------------------------------------------------------------------------------------------
  // Text form
  // -------------------------------------------------------------------------------------------

  function CrcBits(crc: bv16, n: nat): bv16
    decreases n
  {
    if n == 0 then crc
    else CrcBits(if crc & 1 == 1 then (crc >> 1) ^ 0xA001 else crc >> 1, n - 1)
  }

  /** The CRC-16 with polynomial 0x8005, reflected, starting from zero. */
  function Crc16(b: Bytes): bv16 {
    if b == [] then 0 else CrcBits(Crc16(b[..|b| - 1]) ^ (b[|b| - 1] as bv16), 8)
  }

  function CrcBytes(b: Bytes): (r: Bytes)
    ensures |r| == 2
  {
    var crc := Crc16(b) as int;
    [crc / 256, crc % 256]
  }

  function Checksum(b: Bytes): (s: string)
    ensures |s| == 2
    ensures forall i :: 0 <= i < 2 ==> 'a' <= s[i] <= 'z' || '2' <= s[i] <= '7'
  {
    Base32.Encode(CrcBytes(b))[..2]
  }

  function ToText(a: Address): (s: string)
    requires Valid(a)
    ensures |s| >= 3 && s[0] == 'm'
  {
    if IsAnonymous(a) then "maa"
    else "m" + Base32.Encode(ToVec(a)) + Checksum(ToVec(a))
  }

  /** Only letters and digits: in particular no slash. */
  lemma TextAlphabet(a: Address)
    requires Valid(a)
    ensures forall i :: 0 <= i < |ToText(a)| ==> 'a' <= ToText(a)[i] <= 'z' || '2' <= ToText(a)[i] <= '7'
  {
    hide Base32.Encode, Checksum, ToVec, Valid;
  }

  function FromText(s: string): Option<Address> {
    if s == [] || s[0] != 'm' || |s| < 3 then None
    else if s[1..] == "aa" || s[1..] == "aaaa" then Some(ANONYMOUS)
    else
      var data :- Base32.Decode(s[1..|s| - 2]);
      var a :- FromBytes(data);
      FromBytesCanonical(data);
      if ToText(a) != s then None else Some(a)
  }

  lemma IllegalIsNotAnAlias()
    ensures Base32.Encode([ILLEGAL_KIND]) == "ai"
  {
    assert Base32.Digits([2]) == [0, 8] by {
      assert [2] + Repeat(0, 4) == [2, 0, 0, 0, 0];
      assert Base32.Block([2, 0, 0, 0, 0])[..2] == [0, 8];
    }
    assert Base32.Letters([8]) == "i";
  }

  /** Only the anonymous address is written like one of the short forms. */
  lemma TextShape(a: Address)
    requires Valid(a) && !IsAnonymous(a)
    ensures var s := ToText(a);
            s[1..|s| - 2] == Base32.Encode(ToVec(a)) && s[1..] != "aa" && s[1..] != "aaaa"
  {
    hide Base32.Encode, Checksum, Valid;
    var s := ToText(a);
    var data := Base32.Encode(ToVec(a));
    assert s == "m" + data + Checksum(ToVec(a));
    assert s[1..|s| - 2] == data;
    if IsIllegal(a) {
      IllegalIsNotAnAlias();
      assert s[1..][1] == 'i';
    } else {
      assert |data| > 4 by { assert |ToVec(a)| >= 29; }
    }
  }

  lemma TextRoundTrip(a: Address)
    requires Valid(a)
    ensures FromText(ToText(a)) == Some(a)
  {
    if !IsAnonymous(a) {
      hide Base32.Encode, Base32.Decode, ToText, FromBytes, ToVec, Valid;
      TextShape(a);
      Base32.RoundTrip(ToVec(a));
      BytesRoundTrip(a);
    }
  }

  /** Every accepted text is the one the address is written as, except one alias of "maa". */
  lemma FromTextCanonical(s: string)
    ensures FromText(s).Some? ==>
              var a := FromText(s).value;
              Valid(a) && (s == ToText(a) || (a == ANONYMOUS && s == "maaaa"))
  {
    if FromText(s).Some? {
      assert s == [s[0]] + s[1..];
      if s[1..] != "aa" && s[1..] != "aaaa" {
        FromBytesCanonical(Base32.Decode(s[1..|s| - 2]).value);
      }
    }
  }

  lemma TextInjective(a: Address, b: Address)
    requires Valid(a) && Valid(b) && ToText(a) == ToText(b)
    ensures a == b
  {
    TextRoundTrip(a);
    TextRoundTrip(b);
  }

  /** The addresses the constructors and readers yield. */
  type Id = a: Address | Valid(a) witness PublicKey(Repeat(0, 28))
}
