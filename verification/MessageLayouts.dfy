/**
 * The bytes of requests and responses, written out: the tag, the number of fields, and each field
 * with its number in front. And what the readers make of fields in any order or number.
 */
module MessageLayouts {
  import opened Wrappers
  import opened Bytes
  import opened Cbor
  import opened CborLoops
  import opened AddressCbor
  import A = Address
  import Attributes
  import E = Errors
  import Q = Request
  import R = Response

  // -------------------------------------------------------------------------------------------
  // Heads
  // -------------------------------------------------------------------------------------------

  lemma TwoByteTag(n: nat)
    requires TWO_8 <= n < TWO_16
    ensures HeadBytes(TAG, n) == [0xD9, n / 256, n % 256]
  {
    assert ToBe(n, 2) == ToBe(n / 256, 1) + [n % 256];
    assert ToBe(n / 256, 1) == ToBe(n / 256 / 256, 0) + [n / 256 % 256];
  }

  lemma SmallMap(n: nat)
    requires n < 24
    ensures HeadBytes(MAP, n) == [0xA0 + n]
  {
  }

  /** A present field is its number and its value. */
  function Present(c: bool, key: byte, value: Bytes): Bytes {
    if c then [key] + value else []
  }

  lemma FieldBytes<P>(wire: P -> Field, c: bool, p: P, rest: seq<P>, key: Key, value: Bytes)
    requires key < 24 && (c ==> wire(p) == Field(key, value))
    ensures PartBytes(wire, Opt(c, p) + rest) == Present(c, key, value) + PartBytes(wire, rest)
  {
    hide PartBytes, Opt;
    OptBytes(wire, c, p, rest);
    if c {
      R.SmallKey(key);
    }
  }

  lemma LastField<P>(wire: P -> Field, c: bool, p: P, key: Key, value: Bytes)
    requires key < 24 && (c ==> wire(p) == Field(key, value))
    ensures PartBytes(wire, Opt(c, p) + []) == Present(c, key, value)
  {
    hide Opt, WriteField;
    FieldBytes(wire, c, p, [], key, value);
    assert PartBytes(wire, []) == [];
    assert Present(c, key, value) + [] == Present(c, key, value);
  }

  // -------------------------------------------------------------------------------------------
  // Addresses and times
  // -------------------------------------------------------------------------------------------

  /** An address is tag 10000 and its byte form; a time is tag 1 and its seconds. */
  lemma AddressLayout(a: A.Address, secs: U64)
    requires A.Valid(a)
    ensures EncodeAddress(a) == [0xD9, 0x27, 0x10] + EncodeString(BYTES, A.ToVec(a))
    ensures EncodeTimestamp(secs) == [0xC1] + EncodeUint(secs)
  {
    hide A.Valid, A.ToVec, EncodeString;
    TwoByteTag(10000);
  }

  // -------------------------------------------------------------------------------------------
  // Requests
  // -------------------------------------------------------------------------------------------

  lemma Sizes(r: Q.Request)
    requires Q.Valid(r)
    ensures |r.attributes| < TWO_64 && |r.endpoint| < TWO_64
  {
  }

  function LastFields(r: Q.Request): Bytes
    requires Q.Valid(r)
  {
    Present(r.id.Some?, 6, EncodeUint(if r.id.Some? then r.id.value else 0))
    + (Present(r.nonce.Some?, 7, EncodeString(BYTES, if r.nonce.Some? then r.nonce.value else []))
    + Present(r.attributes != [], 8, Attributes.EncodeSet(r.attributes)))
  }

  /** The fields of a request; an anonymous party, empty data and whatever is absent are left out. */
  function RequestFields(r: Q.Request, now: U64): Bytes
    requires Q.Valid(r)
  {
    var sender := if r.from.Some? then r.from.value else A.ANONYMOUS;
    Present(sender != A.ANONYMOUS, 1, EncodeAddress(sender))
    + (Present(r.to != A.ANONYMOUS, 2, EncodeAddress(r.to))
    + (Present(true, 3, EncodeString(TEXT, r.endpoint))
    + (Present(r.data != [], 4, EncodeString(BYTES, r.data))
    + (Present(true, 5, EncodeTimestamp(if r.timestamp.Some? then r.timestamp.value else now))
    + LastFields(r)))))
  }

  lemma LastFieldsWritten(r: Q.Request)
    requires Q.Valid(r)
    ensures PartBytes(Q.Wire, Q.LastParts(r)) == LastFields(r)
  {
    hide Opt, PartBytes, Attributes.EncodeSet, EncodeString, EncodeUint, A.Valid, ValidText, Attributes.ValidSet,
      Present;
    Sizes(r);
    var id := Q.Id(if r.id.Some? then r.id.value else 0);
    var nonce := Q.Nonce(if r.nonce.Some? then r.nonce.value else []);
    var t8 := Opt(r.attributes != [], Q.Attrs(r.attributes)) + [];
    var t7 := Opt(r.nonce.Some?, nonce) + t8;
    FieldBytes(Q.Wire, r.id.Some?, id, t7, 6, EncodeUint(id.id));
    FieldBytes(Q.Wire, r.nonce.Some?, nonce, t8, 7, EncodeString(BYTES, nonce.data));
    LastField(Q.Wire, r.attributes != [], Q.Attrs(r.attributes), 8, Attributes.EncodeSet(r.attributes));
  }

  lemma NotAnonymous(a: A.Address)
    requires A.Valid(a)
    ensures A.IsAnonymous(a) <==> a == A.ANONYMOUS
  {
    if A.IsAnonymous(a) {
      A.AnonymousIsUnique(a);
    }
  }

  lemma MiddleWritten(r: Q.Request, secs: U64)
    requires Q.Valid(r)
    ensures |r.endpoint| < TWO_64
    ensures PartBytes(Q.Wire, Opt(true, Q.Endpoint(r.endpoint)) + (Opt(r.data != [], Q.Argument(r.data))
              + (Opt(true, Q.Timestamp(secs)) + Q.LastParts(r)))) ==
            Present(true, 3, EncodeString(TEXT, r.endpoint))
            + (Present(r.data != [], 4, EncodeString(BYTES, r.data))
            + (Present(true, 5, EncodeTimestamp(secs))
            + LastFields(r)))
  {
    hide Opt, PartBytes, EncodeString, A.Valid, ValidText, Attributes.ValidSet, Present, EncodeTimestamp, Q.LastParts,
      LastFields;
    Sizes(r);
    var t5 := Opt(true, Q.Timestamp(secs)) + Q.LastParts(r);
    var t4 := Opt(r.data != [], Q.Argument(r.data)) + t5;
    FieldBytes(Q.Wire, true, Q.Endpoint(r.endpoint), t4, 3, EncodeString(TEXT, r.endpoint));
    FieldBytes(Q.Wire, r.data != [], Q.Argument(r.data), t5, 4, EncodeString(BYTES, r.data));
    FieldBytes(Q.Wire, true, Q.Timestamp(secs), Q.LastParts(r), 5, EncodeTimestamp(secs));
    LastFieldsWritten(r);
  }

  lemma RequestFieldsWritten(r: Q.Request, now: U64)
    requires Q.Valid(r)
    ensures PartBytes(Q.Wire, Q.Parts(r, now)) == RequestFields(r, now)
  {
    hide Opt, PartBytes, EncodeString, A.Valid, ValidText, Attributes.ValidSet, Present, EncodeAddress,
      EncodeTimestamp, Q.LastParts, LastFields, A.IsAnonymous;
    var sender := if r.from.Some? then r.from.value else A.ANONYMOUS;
    assert A.Valid(A.ANONYMOUS) by { AnonymousValid(); }
    NotAnonymous(sender);
    NotAnonymous(r.to);
    var secs := if r.timestamp.Some? then r.timestamp.value else now;
    var t3 := Opt(true, Q.Endpoint(r.endpoint))
              + (Opt(r.data != [], Q.Argument(r.data)) + (Opt(true, Q.Timestamp(secs)) + Q.LastParts(r)));
    var t2 := Opt(!A.IsAnonymous(r.to), Q.To(r.to)) + t3;
    FieldBytes(Q.Wire, Q.SendsFrom(r), Q.From(sender), t2, 1, EncodeAddress(sender));
    FieldBytes(Q.Wire, !A.IsAnonymous(r.to), Q.To(r.to), t3, 2, EncodeAddress(r.to));
    MiddleWritten(r, secs);
  }

  lemma AnonymousValid()
    ensures A.Valid(A.ANONYMOUS)
  {
  }

  /** A request is tag 10001, the number of its fields, and its fields in the order of their numbers. */
  lemma RequestLayout(r: Q.Request, now: U64)
    requires Q.Valid(r)
    ensures Q.Encode(r, now) == [0xD9, 0x27, 0x11] + [0xA0 + Q.HeaderCount(r)] + RequestFields(r, now)
  {
    hide Q.Valid, Q.HeaderCount, RequestFields, PartBytes, Q.Parts;
    TwoByteTag(10001);
    SmallMap(Q.HeaderCount(r));
    RequestFieldsWritten(r, now);
  }

  // -------------------------------------------------------------------------------------------
  // Responses
  // -------------------------------------------------------------------------------------------

  /** The fields of a response, the id that the reader has no case for among them. */
  function ResponseFields(r: R.Response, now: U64): Bytes
    requires R.Valid(r)
  {
    var receiver := if r.to.Some? then r.to.value else A.ANONYMOUS;
    Present(r.from != A.ANONYMOUS, 1, EncodeAddress(r.from))
    + (Present(receiver != A.ANONYMOUS, 2, EncodeAddress(receiver))
    + (Present(true, 4, R.EncodeOutcome(r.data))
    + (Present(true, 5, EncodeTimestamp(if r.timestamp.Some? then r.timestamp.value else now))
    + (Present(r.id.Some?, 6, EncodeUint(if r.id.Some? then r.id.value else 0))
    + Present(r.attributes != [], 8, Attributes.EncodeSet(r.attributes))))))
  }

  lemma FirstFieldsWritten(r: R.Response, now: U64)
    requires R.Valid(r)
    ensures var receiver := if r.to.Some? then r.to.value else A.ANONYMOUS;
            PartBytes(R.Wire, R.FirstParts(r, now)) ==
            Present(r.from != A.ANONYMOUS, 1, EncodeAddress(r.from))
            + (Present(receiver != A.ANONYMOUS, 2, EncodeAddress(receiver))
            + (Present(true, 4, R.EncodeOutcome(r.data))
            + Present(true, 5, EncodeTimestamp(if r.timestamp.Some? then r.timestamp.value else now))))
  {
    hide Opt, PartBytes, A.Valid, Attributes.ValidSet, Present, EncodeAddress, EncodeTimestamp, A.IsAnonymous,
      R.EncodeOutcome, R.ValidOutcome;
    var receiver := if r.to.Some? then r.to.value else A.ANONYMOUS;
    assert A.Valid(A.ANONYMOUS) by { AnonymousValid(); }
    NotAnonymous(r.from);
    NotAnonymous(receiver);
    var to := R.To(receiver);
    var time := R.Timestamp(if r.timestamp.Some? then r.timestamp.value else now);
    var t4 := Opt(true, time) + [];
    var t3 := Opt(true, R.Result(r.data)) + t4;
    var t2 := Opt(R.SendsTo(r), to) + t3;
    FieldBytes(R.Wire, !A.IsAnonymous(r.from), R.From(r.from), t2, 1, EncodeAddress(r.from));
    FieldBytes(R.Wire, R.SendsTo(r), to, t3, 2, EncodeAddress(receiver));
    FieldBytes(R.Wire, true, R.Result(r.data), t4, 4, R.EncodeOutcome(r.data));
    LastField(R.Wire, true, time, 5, EncodeTimestamp(time.secs));
  }

  lemma IdWritten(r: R.Response)
    ensures R.IdBytes(r) == Present(r.id.Some?, 6, EncodeUint(if r.id.Some? then r.id.value else 0))
  {
    hide EncodeInt, EncodeUint;
    R.SmallKey(6);
  }

  lemma AttributesWritten(r: R.Response)
    requires R.Valid(r)
    ensures PartBytes(R.Wire, R.AttributeParts(r)) ==
            Present(r.attributes != [], 8, Attributes.EncodeSet(r.attributes))
  {
    hide EncodeInt, Attributes.EncodeSet, PartBytes, R.AttributeParts;
    R.SmallKey(8);
    R.AttributeBytes(r);
  }

  /** A response is tag 10002, the number of its fields, and its fields in the order of their numbers. */
  lemma ResponseLayout(r: R.Response, now: U64)
    requires R.Valid(r)
    ensures R.Encode(r, now) == [0xD9, 0x27, 0x12] + [0xA0 + R.HeaderCount(r)] + ResponseFields(r, now)
  {
    hide R.Valid, R.HeaderCount, PartBytes, R.FirstParts, R.AttributeParts, R.IdBytes, Present, EncodeAddress,
      EncodeTimestamp, R.EncodeOutcome, EncodeUint, Attributes.EncodeSet;
    TwoByteTag(10002);
    SmallMap(R.HeaderCount(r));
    Contents(r);
    FirstFieldsWritten(r, now);
    IdWritten(r);
    AttributesWritten(r);
    var receiver := if r.to.Some? then r.to.value else A.ANONYMOUS;
    FiveParts(
      Present(r.from != A.ANONYMOUS, 1, EncodeAddress(r.from)),
      Present(receiver != A.ANONYMOUS, 2, EncodeAddress(receiver)),
      Present(true, 4, R.EncodeOutcome(r.data)),
      Present(true, 5, EncodeTimestamp(if r.timestamp.Some? then r.timestamp.value else now)),
      R.IdBytes(r) + PartBytes(R.Wire, R.AttributeParts(r)));
  }

  lemma Contents(r: R.Response)
    requires R.Valid(r)
    ensures A.Valid(r.from) && A.Valid(if r.to.Some? then r.to.value else A.ANONYMOUS)
    ensures R.ValidOutcome(r.data) && Attributes.ValidSet(r.attributes)
  {
    AnonymousValid();
  }

  lemma FiveParts(a: Bytes, b: Bytes, c: Bytes, d: Bytes, e: Bytes)
    ensures (a + (b + (c + d))) + e == a + (b + (c + (d + e)))
  {
    Assoc(a, b + (c + d), e);
    Assoc(b, c + d, e);
    Assoc(c, d, e);
  }

  lemma ErrorSizes(e: E.ManyError)
    requires E.ValidError(e)
    ensures |e.arguments| < TWO_64 && IsInt(e.code.value, TWO_63)
    ensures e.message.Some? ==> |e.message.value| < TWO_64
  {
  }

  /** An outcome is a byte string, or a map of the code, the message and the arguments of an error. */
  lemma ErrorLayout(e: E.ManyError)
    requires E.ValidError(e)
    ensures R.EncodeOutcome(R.Err(e)) ==
            [0xA1 + One(e.message.Some?) + One(e.arguments != [])]
            + (Present(true, 0, EncodeInt(e.code.value))
            + (Present(e.message.Some?, 1, EncodeString(TEXT, if e.message.Some? then e.message.value else []))
            + Present(e.arguments != [], 2, E.EncodeArguments(e.arguments))))
  {
    hide Opt, PartBytes, Present, EncodeString, EncodeInt, E.EncodeArguments, E.ValidArguments, ValidText;
    ErrorSizes(e);
    var m := E.MessagePart(if e.message.Some? then e.message.value else []);
    var t3 := Opt(e.arguments != [], E.ArgumentsPart(e.arguments)) + [];
    var t2 := Opt(e.message.Some?, m) + t3;
    FieldBytes(E.Wire, true, E.CodePart(e.code), t2, 0, EncodeInt(e.code.value));
    FieldBytes(E.Wire, e.message.Some?, m, t3, 1, EncodeString(TEXT, m.text));
    LastField(E.Wire, e.arguments != [], E.ArgumentsPart(e.arguments), 2, E.EncodeArguments(e.arguments));
    SmallMap(1 + One(e.message.Some?) + One(e.arguments != []));
  }

  // -------------------------------------------------------------------------------------------
  // Fields in any order
  // -------------------------------------------------------------------------------------------

  /** The last of some parts that is of a kind. */
  function Last<P>(ps: seq<P>, kind: P -> bool): (r: Option<P>)
    ensures r.Some? ==> kind(r.value)
  {
    if ps == [] then None
    else if kind(ps[|ps| - 1]) then Some(ps[|ps| - 1])
    else Last(ps[..|ps| - 1], kind)
  }

  predicate IsFrom(p: Q.Part) { p.From? }
  predicate IsTo(p: Q.Part) { p.To? }
  predicate IsEndpoint(p: Q.Part) { p.Endpoint? }
  predicate IsArgument(p: Q.Part) { p.Argument? }
  predicate IsTimestamp(p: Q.Part) { p.Timestamp? }
  predicate IsId(p: Q.Part) { p.Id? }
  predicate IsNonce(p: Q.Part) { p.Nonce? }
  predicate IsAttrs(p: Q.Part) { p.Attrs? }

  /** The request has, for each field, the last value given for it, and the default where there is none. */
  ghost predicate HoldsLastFields(r: Q.Request, ps: seq<Q.Part>) {
    && r.version == None
    && (var f := Last(ps, IsFrom); r.from == if f.Some? then Some(f.value.address) else None)
    && (var f := Last(ps, IsTo); r.to == if f.Some? then f.value.address else A.ANONYMOUS)
    && (var f := Last(ps, IsEndpoint); r.endpoint == if f.Some? then f.value.text else [])
    && (var f := Last(ps, IsArgument); r.data == if f.Some? then f.value.data else [])
    && (var f := Last(ps, IsTimestamp); r.timestamp == if f.Some? then Some(f.value.secs) else None)
    && (var f := Last(ps, IsId); r.id == if f.Some? then Some(f.value.id) else None)
    && (var f := Last(ps, IsNonce); r.nonce == if f.Some? then Some(f.value.data) else None)
    && (var f := Last(ps, IsAttrs); r.attributes == if f.Some? then f.value.attributes else [])
  }

  lemma LastOfMore<P>(ps: seq<P>, p: P, kind: P -> bool)
    ensures Last(ps + [p], kind) == if kind(p) then Some(p) else Last(ps, kind)
  {
    assert (ps + [p])[..|ps|] == ps;
  }

  lemma PutHoldsLast(r: Q.Request, ps: seq<Q.Part>, p: Q.Part)
    requires HoldsLastFields(r, ps)
    ensures HoldsLastFields(Q.Put(r, p), ps + [p])
  {
    hide Last;
    LastOfMore(ps, p, IsFrom);
    LastOfMore(ps, p, IsTo);
    LastOfMore(ps, p, IsEndpoint);
    LastOfMore(ps, p, IsArgument);
    LastOfMore(ps, p, IsTimestamp);
    LastOfMore(ps, p, IsId);
    LastOfMore(ps, p, IsNonce);
    LastOfMore(ps, p, IsAttrs);
  }

  lemma {:induction false} BuildHoldsLast(ps: seq<Q.Part>)
    ensures HoldsLastFields(Build(Q.Put, Q.DEFAULT, ps), ps)
  {
    if ps == [] {
    } else {
      hide Build, HoldsLastFields;
      var n := |ps| - 1;
      assert ps == ps[..n] + [ps[n]];
      BuildHoldsLast(ps[..n]);
      BuildLast(Q.Put, Q.DEFAULT, ps[..n], ps[n]);
      PutHoldsLast(Build(Q.Put, Q.DEFAULT, ps[..n]), ps[..n], ps[n]);
    }
  }

  /**
   * A request written with its fields in any order, some of them repeated, counted or closed by a
   * break, is read with the last of each.
   */
  lemma AnyFields(ps: seq<Q.Part>, s: Bytes) returns (r: Q.Request)
    requires 0 < |ps| < TWO_64 && Q.AllValid(ps)
    ensures Q.Decode([0xD9, 0x27, 0x11] + (HeadBytes(MAP, |ps|) + (PartBytes(Q.Wire, ps) + s))) == Some((r, s))
    ensures Q.Decode([0xD9, 0x27, 0x11] + ([0xBF] + (PartBytes(Q.Wire, ps) + ([0xFF] + s)))) == Some((r, s))
    ensures HoldsLastFields(r, ps)
  {
    hide Q.Step, Q.Wire, Q.Put, PartBytes, Build, ReadFields, HeadBytes, Q.ValidPart, HoldsLastFields;
    r := Build(Q.Put, Q.DEFAULT, ps);
    BuildHoldsLast(ps);
    TwoByteTag(10001);
    HeadRoundTrip(TAG, 10001, HeadBytes(MAP, |ps|) + (PartBytes(Q.Wire, ps) + s));
    HeadRoundTrip(MAP, |ps|, PartBytes(Q.Wire, ps) + s);
    forall k | 0 <= k < |ps| ensures Takes(Q.Step, Q.Wire, Q.Put, ps[k]) {
      forall acc, t ensures Q.Step(acc, Q.Wire(ps[k]).key, Q.Wire(ps[k]).value + t) == Some((Q.Put(acc, ps[k]), t)) {
        Q.PartTaken(acc, ps[k], t);
      }
    }
    FieldsRoundTrip(Q.Step, Q.Wire, Q.Put, 128, ps, Q.DEFAULT, s);
    var open := PartBytes(Q.Wire, ps) + ([0xFF] + s);
    HeadRoundTrip(TAG, 10001, [0xBF] + open);
    OpenMap(open);
    FieldsToBreak(Q.Step, Q.Wire, Q.Put, 128, ps, Q.DEFAULT, 0, s);
  }

  lemma OpenMap(b: Bytes)
    ensures ReadContainer([0xBF] + b, MAP) == Some((None, b))
  {
    assert ([0xBF] + b)[1..] == b;
  }

  /** A key without a case counts as a field, but its value is left to be read as the next key. */
  lemma OtherKeys(q: Q.Request, r: R.Response, key: Key, b: Bytes, len: nat, i: nat)
    requires i + 1 < len
    ensures key > 8 ==>
              ReadFields(Q.Step, 128, EncodeInt(key) + b, Some(len), i, q) ==
              ReadFields(Q.Step, 128, b, Some(len), i + 1, q)
    ensures key > 8 || key in {3, 6, 7} ==>
              ReadFields(R.Step, TWO_63, EncodeInt(key) + b, Some(len), i, r) ==
              ReadFields(R.Step, TWO_63, b, Some(len), i + 1, r)
  {
    hide DecodeAddress, ReadString, ReadText, DecodeTimestamp, ReadUint, Attributes.DecodeSet, E.DecodeError;
    assert (EncodeInt(key) + b)[0] != BREAK_BYTE;
    IntRoundTrip(key, 128, b);
    IntRoundTrip(key, TWO_63, b);
  }

  /** A version field is accepted in a request only if it is 1; a response may have any. */
  lemma VersionField(q: Q.Request, r: R.Response, v: nat, s: Bytes)
    requires v < 256
    ensures Q.Step(q, 0, EncodeUint(v) + s) == if v == 1 then Some((q.(version := Some(1)), s)) else None
    ensures R.Step(r, 0, EncodeUint(v) + s) == Some((r.(version := Some(v)), s))
  {
    hide EncodeUint, ReadUint;
    UintRoundTrip(v, 256, s);
  }
}
