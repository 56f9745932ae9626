/** Attribute-related indices: an attribute and up to four numbers, nested in pairs on the wire. */
module RelatedIndex {
  import opened Wrappers
  import opened Bytes
  import opened Cbor

  type U32 = n: int | 0 <= n < TWO_32

  datatype Index = Index(attribute: U32, indices: seq<U32>)

  predicate Valid(i: Index) { |i.indices| <= 4 }

  /** A fifth number is dropped. */
  function WithIndex(i: Index, n: U32): (r: Index)
    requires Valid(i)
    ensures Valid(r)
  {
    if |i.indices| < 4 then i.(indices := i.indices + [n]) else i
  }

  function WithAll(i: Index, ns: seq<U32>): (r: Index)
    requires Valid(i)
    ensures Valid(r)
    decreases |ns|
  {
    if ns == [] then i else WithAll(WithIndex(i, ns[0]), ns[1..])
  }

  /** The last two numbers make a pair; each one before makes a pair with what follows. */
  function Nest(ns: seq<U32>): Bytes
    requires ns != []
  {
    if |ns| == 1 then EncodeUint(ns[0])
    else HeadBytes(ARRAY, 2) + (EncodeUint(ns[0]) + Nest(ns[1..]))
  }

  function Encode(i: Index): Bytes { Nest([i.attribute] + i.indices) }

  /** Numbers and pair heads until the number that closes the innermost pair. */
  function ReadChain(b: Bytes, i: Index): (r: Option<(Index, Bytes)>)
    requires Valid(i)
    ensures r.Some? ==> Valid(r.value.0)
    decreases |b|
  {
    if b == [] then None
    else if b[0] / 32 == ARRAY then
      var (len, rest) :- ReadContainer(b, ARRAY);
      if len != Some(2) then None
      else
        var (n, left) :- ReadUint(rest, TWO_32);
        ReadChain(left, WithIndex(i, n))
    else if b[0] / 32 == UNSIGNED then
      var (n, rest) :- ReadUint(b, TWO_32);
      Some((WithIndex(i, n), rest))
    else None
  }

  function Decode(b: Bytes): (r: Option<(Index, Bytes)>)
    ensures r.Some? ==> Valid(r.value.0)
  {
    if b == [] then None
    else if b[0] / 32 == ARRAY then
      var (len, rest) :- ReadContainer(b, ARRAY);
      if len != Some(2) then None
      else
        var (n, left) :- ReadUint(rest, TWO_32);
        ReadChain(left, Index(n, []))
    else if b[0] / 32 == UNSIGNED then
      var (n, rest) :- ReadUint(b, TWO_32);
      Some((Index(n, []), rest))
    else None
  }

  lemma {:induction false} Nested(ns: seq<U32>, s: Bytes)
    requires |ns| > 1
    ensures var b := Nest(ns) + s;
            && b != [] && b[0] / 32 == ARRAY
            && ReadContainer(b, ARRAY) == Some((Some(2), EncodeUint(ns[0]) + (Nest(ns[1..]) + s)))
            && ReadUint(EncodeUint(ns[0]) + (Nest(ns[1..]) + s), TWO_32) == Some((ns[0], Nest(ns[1..]) + s))
  {
    hide ReadHead, HeadBytes, ReadUint;
    var tail := EncodeUint(ns[0]) + Nest(ns[1..]);
    Assoc(HeadBytes(ARRAY, 2), tail, s);
    Assoc(EncodeUint(ns[0]), Nest(ns[1..]), s);
    HeadRoundTrip(ARRAY, 2, tail + s);
    UintRoundTrip(ns[0], TWO_32, Nest(ns[1..]) + s);
    assert (Nest(ns) + s)[0] == HeadBytes(ARRAY, 2)[0];
  }

  lemma Closing(n: U32, s: Bytes)
    ensures var b := Nest([n]) + s;
            b != [] && b[0] / 32 == UNSIGNED && ReadUint(b, TWO_32) == Some((n, s))
  {
    hide ReadHead, HeadBytes, ReadUint;
    UintRoundTrip(n, TWO_32, s);
    assert (Nest([n]) + s)[0] == HeadBytes(UNSIGNED, n)[0];
  }

  /** A chain of any length is consumed whole, number by number. */
  lemma {:induction false} ChainRead(ns: seq<U32>, i: Index, s: Bytes)
    requires ns != [] && Valid(i)
    ensures ReadChain(Nest(ns) + s, i) == Some((WithAll(i, ns), s))
    decreases |ns|
  {
    hide ReadContainer, ReadUint, Nest, EncodeUint;
    if |ns| == 1 {
      assert ns == [ns[0]];
      Closing(ns[0], s);
      assert WithAll(i, ns) == WithIndex(i, ns[0]);
    } else {
      Nested(ns, s);
      ChainRead(ns[1..], WithIndex(i, ns[0]), s);
    }
  }

  /** Adding numbers one by one keeps the first four. */
  lemma {:induction false} KeepsFirstFour(i: Index, ns: seq<U32>)
    requires Valid(i)
    ensures var all := i.indices + ns;
            WithAll(i, ns) == Index(i.attribute, if |all| <= 4 then all else all[..4])
    decreases |ns|
  {
    if ns == [] {
      assert i.indices + ns == i.indices;
    } else {
      var next := WithIndex(i, ns[0]);
      KeepsFirstFour(next, ns[1..]);
      if |i.indices| < 4 {
        assert next.indices + ns[1..] == i.indices + ns;
      } else {
        assert (i.indices + ns)[..4] == i.indices;
        assert (i.indices + ns[1..])[..4] == i.indices;
        assert |ns[1..]| == 0 ==> i.indices + ns[1..] == i.indices;
      }
    }
  }

  /** A chain of an attribute and any numbers is read as the attribute and the first four of them. */
  lemma ChainDecodes(a: U32, ns: seq<U32>, s: Bytes)
    ensures Decode(Nest([a] + ns) + s) == Some((Index(a, if |ns| <= 4 then ns else ns[..4]), s))
  {
    hide ReadContainer, ReadUint, Nest, EncodeUint, ReadChain, WithAll;
    var all := [a] + ns;
    assert all[0] == a && all[1..] == ns;
    if ns == [] {
      assert all == [a];
      Closing(a, s);
    } else {
      Nested(all, s);
      ChainRead(ns, Index(a, []), s);
      KeepsFirstFour(Index(a, []), ns);
      assert [] + ns == ns;
    }
  }

  /** Every index is read back as it was, whatever follows it. */
  lemma RoundTrip(i: Index, s: Bytes)
    requires Valid(i)
    ensures Decode(Encode(i) + s) == Some((i, s))
  {
    hide Decode, Nest;
    ChainDecodes(i.attribute, i.indices, s);
  }

  // -------------------------------------------------------------------------------------------
  // The writer and the reader
  // -------------------------------------------------------------------------------------------

  /** Writes the numbers two at a time. */
  method EncodeInto(e: Encoder, i: Index)
    modifies e
    ensures e.buf == old(e.buf) + Encode(i)
  {
    hide HeadBytes, Nest;
    var a := i.indices;
    if a == [] {
      NestOne([i.attribute] + a);
      e.Head(UNSIGNED, i.attribute);
      return;
    }
    assert ([i.attribute] + a)[1..] == a;
    NestMore([i.attribute] + a, e.buf);
    e.Head(ARRAY, 2);
    e.Head(UNSIGNED, i.attribute);
    var n := 0;
    while n < |a|
      invariant 0 <= n <= |a|
      invariant e.buf + (if n < |a| then Nest(a[n..]) else []) == old(e.buf) + Encode(i)
    {
      assert a[n..][0] == a[n] && a[n..][1..] == a[n + 1..];
      if n + 1 == |a| {
        NestOne(a[n..]);
        e.Head(UNSIGNED, a[n]);
        n := n + 1;
      } else if n + 2 == |a| {
        NestMore(a[n..], e.buf);
        NestOne(a[n + 1..]);
        e.Head(ARRAY, 2);
        e.Head(UNSIGNED, a[n]);
        e.Head(UNSIGNED, a[n + 1]);
        n := n + 2;
      } else {
        NestMore(a[n..], e.buf);
        e.Head(ARRAY, 2);
        e.Head(UNSIGNED, a[n]);
        assert a[n + 1..][0] == a[n + 1] && a[n + 1..][1..] == a[n + 2..];
        NestMore(a[n + 1..], e.buf);
        e.Head(ARRAY, 2);
        e.Head(UNSIGNED, a[n + 1]);
        n := n + 2;
      }
    }
  }

  lemma NestOne(ns: seq<U32>)
    requires |ns| == 1
    ensures Nest(ns) == HeadBytes(UNSIGNED, ns[0])
  {
  }

  lemma NestMore(ns: seq<U32>, buf: Bytes)
    requires |ns| > 1
    ensures buf + Nest(ns) == buf + HeadBytes(ARRAY, 2) + HeadBytes(UNSIGNED, ns[0]) + Nest(ns[1..])
  {
    hide HeadBytes;
    Assoc(buf, HeadBytes(ARRAY, 2), HeadBytes(UNSIGNED, ns[0]) + Nest(ns[1..]));
    Assoc(buf + HeadBytes(ARRAY, 2), HeadBytes(UNSIGNED, ns[0]), Nest(ns[1..]));
  }

  method DecodeFrom(d: Decoder) returns (r: Option<Index>)
    modifies d
    ensures ReadAs(Decode(old(d.rest)), r, d.rest)
  {
    hide ReadContainer, ReadUint;
    if d.rest == [] {
      return None;
    }
    var major := d.rest[0] / 32;
    if major == UNSIGNED {
      var n :- d.Uint(TWO_32);
      return Some(Index(n, []));
    }
    if major != ARRAY {
      return None;
    }
    var len :- d.Container(ARRAY);
    if len != Some(2) {
      return None;
    }
    var n :- d.Uint(TWO_32);
    var index := Index(n, []);
    while true
      invariant Valid(index)
      invariant Decode(old(d.rest)) == ReadChain(d.rest, index)
      decreases |d.rest|
    {
      if d.rest == [] {
        return None;
      }
      var kind := d.rest[0] / 32;
      if kind == UNSIGNED {
        var n :- d.Uint(TWO_32);
        return Some(WithIndex(index, n));
      }
      if kind != ARRAY {
        return None;
      }
      var len :- d.Container(ARRAY);
      if len != Some(2) {
        return None;
      }
      var n :- d.Uint(TWO_32);
      index := WithIndex(index, n);
    }
  }

  /** A lone attribute is a number, one index makes a pair, and each further index a pair in its last place. */
  lemma WireForm(a: U32, b: U32, c: U32, d: U32, e: U32)
    ensures Encode(Index(a, [])) == EncodeUint(a)
    ensures Encode(Index(a, [b])) == [0x82] + (EncodeUint(a) + EncodeUint(b))
    ensures Encode(Index(a, [b, c])) == [0x82] + (EncodeUint(a) + ([0x82] + (EncodeUint(b) + EncodeUint(c))))
    ensures Encode(Index(a, [b, c, d, e])) ==
              [0x82] + (EncodeUint(a) + ([0x82] + (EncodeUint(b) + ([0x82] + (EncodeUint(c)
              + ([0x82] + (EncodeUint(d) + EncodeUint(e))))))))
  {
    hide EncodeUint;
    assert HeadBytes(ARRAY, 2) == [0x82];
    hide HeadBytes;
    assert [a] + [] == [a] && [a] + [b] == [a, b] && [a] + [b, c] == [a, b, c] && [a] + [b, c, d, e] == [a, b, c, d, e];
    assert [a, b, c, d, e][1..] == [b, c, d, e] && [b, c, d, e][1..] == [c, d, e] && [c, d, e][1..] == [d, e];
    assert [d, e][1..] == [e] && [a, b, c][1..] == [b, c] && [b, c][1..] == [c] && [a, b][1..] == [b];
    assert Nest([b, c]) == [0x82] + (EncodeUint(b) + Nest([c]));
    assert Nest([a, b, c]) == [0x82] + (EncodeUint(a) + Nest([b, c]));
    assert Nest([a, b]) == [0x82] + (EncodeUint(a) + Nest([b]));
    assert Nest([d, e]) == [0x82] + (EncodeUint(d) + EncodeUint(e));
    assert Nest([c, d, e]) == [0x82] + (EncodeUint(c) + Nest([d, e]));
    assert Nest([b, c, d, e]) == [0x82] + (EncodeUint(b) + Nest([c, d, e]));
  }
}
