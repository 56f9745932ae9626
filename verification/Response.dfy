/**
 * Response messages. The writer emits the request id that a response answers, but the reader has
 * no case for it and leaves its value in front of the cursor; what that does to the rest of the
 * message is stated exactly.
 */
module Response {
  import opened Wrappers
  import opened Bytes
  import opened Cbor
  import opened CborLoops
  import opened AddressCbor
  import opened Errors
  import A = Address
  import Attributes

  const RESPONSE_TAG := 10002

  datatype Outcome = Ok(data: Bytes) | Err(error: ManyError)

  datatype Response = Response(
    version: Option<nat>,
    from: A.Address,
    to: Option<A.Address>,
    data: Outcome,
    timestamp: Option<U64>,
    id: Option<U64>,
    attributes: seq<Attributes.Attribute>)

  const DEFAULT := Response(None, A.ANONYMOUS, None, Outcome.Ok([]), None, None, [])

  predicate ValidOutcome(o: Outcome) {
    match o
    case Ok(d) => |d| < TWO_64
    case Err(e) => ValidError(e)
  }

  predicate Valid(r: Response) {
    && A.Valid(r.from)
    && (r.to.Some? ==> A.Valid(r.to.value))
    && ValidOutcome(r.data)
    && Attributes.ValidSet(r.attributes)
  }

  datatype Part =
    | From(address: A.Address)
    | To(address: A.Address)
    | Result(outcome: Outcome)
    | Timestamp(secs: U64)
    | Attrs(attributes: seq<Attributes.Attribute>)

  predicate ValidPart(p: Part) {
    match p
    case From(a) => A.Valid(a)
    case To(a) => A.Valid(a)
    case Result(o) => ValidOutcome(o)
    case Timestamp(_) => true
    case Attrs(s) => Attributes.ValidSet(s)
  }

  function EncodeOutcome(o: Outcome): Bytes
    requires ValidOutcome(o)
  {
    match o
    case Ok(d) => EncodeString(BYTES, d)
    case Err(e) => EncodeError(e)
  }

  function NormalOutcome(o: Outcome): Outcome {
    match o
    case Ok(d) => o
    case Err(e) => Outcome.Err(NormalError(e))
  }

  function Wire(p: Part): Field {
    if !ValidPart(p) then Field(0, [])
    else match p
      case From(a) => Field(1, EncodeAddress(a))
      case To(a) => Field(2, EncodeAddress(a))
      case Result(o) => Field(4, EncodeOutcome(o))
      case Timestamp(n) => Field(5, EncodeTimestamp(n))
      case Attrs(s) => Field(8, Attributes.EncodeSet(s))
  }

  function Put(r: Response, p: Part): Response {
    match p
    case From(a) => r.(from := a)
    case To(a) => r.(to := Some(a))
    case Result(o) => r.(data := NormalOutcome(o))
    case Timestamp(n) => r.(timestamp := Some(n))
    case Attrs(s) => r.(attributes := s)
  }

  // -------------------------------------------------------------------------------------------
  // Writer
  // -------------------------------------------------------------------------------------------

  predicate SendsTo(r: Response) {
    r.to.Some? && !A.IsAnonymous(r.to.value)
  }

  /** The length put in the map header. */
  function HeaderCount(r: Response): (n: nat)
    ensures 2 <= n <= 6
  {
    2
    + One(!A.IsAnonymous(r.from))
    + One(!(r.to.None? || A.Eq(r.to.value, A.ANONYMOUS)))
    + One(r.id.Some?)
    + One(r.attributes != [])
  }

  /** The fields before the id; a missing timestamp becomes `now`. */
  function FirstParts(r: Response, now: U64): seq<Part> {
    Opt(!A.IsAnonymous(r.from), From(r.from))
    + (Opt(SendsTo(r), To(if r.to.Some? then r.to.value else A.ANONYMOUS))
    + (Opt(true, Result(r.data))
    + (Opt(true, Timestamp(if r.timestamp.Some? then r.timestamp.value else now)) + [])))
  }

  function IdBytes(r: Response): Bytes {
    if r.id.Some? then EncodeInt(6) + EncodeUint(r.id.value) else []
  }

  function AttributeParts(r: Response): seq<Part> {
    Opt(r.attributes != [], Attrs(r.attributes)) + []
  }

  function Encode(r: Response, now: U64): Bytes
    requires Valid(r)
  {
    HeadBytes(TAG, RESPONSE_TAG) + HeadBytes(MAP, HeaderCount(r))
    + (PartBytes(Wire, FirstParts(r, now)) + (IdBytes(r) + PartBytes(Wire, AttributeParts(r))))
  }

  /** The header announces exactly the fields that follow it. */
  lemma HeaderCountsFields(r: Response, now: U64)
    requires Valid(r)
    ensures HeaderCount(r) == |FirstParts(r, now)| + One(r.id.Some?) + |AttributeParts(r)|
  {
    hide Attributes.ValidSet, ValidOutcome;
    if r.to.Some? {
      A.EqIsByteEquality(r.to.value, A.ANONYMOUS);
    }
  }

  // -------------------------------------------------------------------------------------------
  // Reader
  // -------------------------------------------------------------------------------------------

  /** One field. The keys of the endpoint, the id and the nonce, and unknown keys, read nothing. */
  function Step(r: Response, key: int, b: Bytes): (next: Option<(Response, Bytes)>)
    ensures next.Some? ==> |next.value.1| <= |b|
  {
    if key == 0 then
      var (v, rest) :- ReadUint(b, 256);
      Some((r.(version := Some(v)), rest))
    else if key == 1 then
      var (a, rest) :- DecodeAddress(b);
      Some((r.(from := a), rest))
    else if key == 2 then
      var (a, rest) :- DecodeAddress(b);
      Some((r.(to := Some(a)), rest))
    else if key == 4 then
      if b == [] then None
      else if 0x40 <= b[0] <= 0x5B then
        var (d, rest) :- ReadString(b, BYTES);
        Some((r.(data := Outcome.Ok(d)), rest))
      else if 0xA0 <= b[0] <= 0xBB then
        var (e, rest) :- DecodeError(b);
        Some((r.(data := Outcome.Err(e)), rest))
      else Some((r, b))
    else if key == 5 then
      var (n, rest) :- DecodeTimestamp(b);
      Some((r.(timestamp := Some(n)), rest))
    else if key == 8 then
      var (s, rest) :- Attributes.DecodeSet(b);
      Some((r.(attributes := s), rest))
    else Some((r, b))
  }

  function Decode(b: Bytes): Option<(Response, Bytes)> {
    var (t, inside) :- ReadTag(b);
    if t != RESPONSE_TAG then None
    else
      var (len, fields) :- ReadContainer(inside, MAP);
      ReadFields(Step, TWO_63, fields, len, 0, DEFAULT)
  }

  /** `from_bytes` ignores what follows the message. */
  function FromBytes(b: Bytes): Option<Response> {
    var (r, _) :- Decode(b);
    Some(r)
  }

  lemma PartTaken(r: Response, p: Part, s: Bytes)
    requires ValidPart(p)
    ensures Step(r, Wire(p).key, Wire(p).value + s) == Some((Put(r, p), s))
  {
    hide DecodeAddress, EncodeAddress, ReadString, EncodeTimestamp, DecodeTimestamp, ValidError, A.Valid,
      Attributes.DecodeSet, Attributes.EncodeSet, EncodeError, DecodeError, NormalError;
    match p
    case From(a) => AddressRoundTrip(a, s);
    case To(a) => AddressRoundTrip(a, s);
    case Result(Ok(d)) => StringRoundTrip(BYTES, d, s);
    case Result(Err(e)) => ErrorRoundTrip(e, s);
    case Timestamp(n) => TimestampRoundTrip(n, s);
    case Attrs(set_) => Attributes.SetRoundTrip(set_, s);
  }

  // -------------------------------------------------------------------------------------------
  // What a reader makes of a written response
  // -------------------------------------------------------------------------------------------

  /** The response without version, anonymous receiver, id and attributes. */
  function Core(r: Response, now: U64): Response {
    Response(
      None,
      r.from,
      if SendsTo(r) then r.to else None,
      NormalOutcome(r.data),
      Some(if r.timestamp.Some? then r.timestamp.value else now),
      None,
      [])
  }

  /**
   * What is read. Without an id everything arrives. With an id and no attributes only the id is
   * lost. With both, the id's number is taken for a key and the attributes are lost: an id of
   * zero sets the version, ids that name a field with a value of another type make the message
   * unreadable, and so do ids beyond the signed range.
   */
  function Received(r: Response, now: U64): Option<Response> {
    if r.id.None? then Some(Core(r, now).(attributes := r.attributes))
    else if r.attributes == [] then Some(Core(r, now))
    else
      var n := r.id.value;
      if n >= TWO_63 || n == 1 || n == 2 || n == 5 || n == 8 then None
      else if n == 0 then Some(Core(r, now).(version := Some(8)))
      else Some(Core(r, now))
  }

  /** What is left in front of the cursor after a successful read, up to the bytes that follow. */
  function Unread(r: Response): Bytes
    requires Attributes.ValidSet(r.attributes)
  {
    if r.id.None? then []
    else if r.attributes == [] then EncodeUint(r.id.value)
    else if r.id.value == 0 then Attributes.EncodeSet(r.attributes)
    else EncodeInt(8) + Attributes.EncodeSet(r.attributes)
  }

  lemma FirstPartsRebuild(r: Response, now: U64)
    requires Valid(r)
    ensures Build(Put, DEFAULT, FirstParts(r, now)) == Core(r, now)
  {
    hide Opt, Build, A.Valid, Attributes.ValidSet, ValidOutcome, NormalOutcome;
    if A.IsAnonymous(r.from) { A.AnonymousIsUnique(r.from); }
    var to := To(if r.to.Some? then r.to.value else A.ANONYMOUS);
    var time := Timestamp(if r.timestamp.Some? then r.timestamp.value else now);
    var t4 := Opt(true, time) + [];
    var t3 := Opt(true, Result(r.data)) + t4;
    var t2 := Opt(SendsTo(r), to) + t3;
    BuildOpt(Put, DEFAULT, !A.IsAnonymous(r.from), From(r.from), t2);
    var r1 := DEFAULT.(from := r.from);
    BuildOpt(Put, r1, SendsTo(r), to, t3);
    var r2 := r1.(to := if SendsTo(r) then r.to else None);
    BuildOpt(Put, r2, true, Result(r.data), t4);
    var r3 := r2.(data := NormalOutcome(r.data));
    BuildOpt(Put, r3, true, time, []);
    BuildNone(r3.(timestamp := Core(r, now).timestamp));
  }

  lemma BuildNone(r: Response)
    ensures Build(Put, r, []) == r
  {
  }

  lemma PartsTaken(r: Response, now: U64)
    requires Valid(r)
    ensures forall k :: 0 <= k < |FirstParts(r, now)| ==> Takes(Step, Wire, Put, FirstParts(r, now)[k])
    ensures forall k :: 0 <= k < |AttributeParts(r)| ==> Takes(Step, Wire, Put, AttributeParts(r)[k])
  {
    hide Step, Wire, Put, Attributes.ValidSet, ValidOutcome, A.Valid;
    forall p: Part | ValidPart(p) ensures Takes(Step, Wire, Put, p) {
      forall acc, s ensures Step(acc, Wire(p).key, Wire(p).value + s) == Some((Put(acc, p), s)) {
        PartTaken(acc, p, s);
      }
    }
  }

  /** The turns of the loop on an id and, if there are any, the attributes after it. */
  lemma IdTurn(r: Response, acc: Response, len: nat, i: nat, s: Bytes)
    requires Valid(r) && r.id.Some? && len == i + 1 + |AttributeParts(r)|
    ensures var attrs := PartBytes(Wire, AttributeParts(r));
            var read := ReadFields(Step, TWO_63, IdBytes(r) + (attrs + s), Some(len), i, acc);
            if r.attributes == [] then read == Some((acc, EncodeUint(r.id.value) + s))
            else read == ReadFields(Step, TWO_63, EncodeUint(r.id.value) + (attrs + s), Some(len), i + 1, acc)
  {
    hide HeadBytes, ReadInt, A.Valid, ValidOutcome, Attributes.ValidSet, Wire;
    var attrs := PartBytes(Wire, AttributeParts(r));
    var value := EncodeUint(r.id.value);
    Assoc(EncodeInt(6), value, attrs + s);
    IntRoundTrip(6, TWO_63, value + (attrs + s));
    SmallKey(6);
    if r.attributes == [] {
      assert attrs + s == s;
    }
  }

  lemma SmallKey(k: nat)
    requires k < 24
    ensures EncodeInt(k) == [k]
  {
  }

  /** The turn that takes the number of the id for a key. */
  lemma ConfusedTurn(r: Response, acc: Response, len: nat, i: nat, s: Bytes)
    requires Valid(r) && r.id.Some? && r.attributes != [] && len == i + 1
    ensures var set_ := Attributes.EncodeSet(r.attributes);
            var n := r.id.value;
            ReadFields(Step, TWO_63, EncodeUint(n) + (EncodeInt(8) + set_ + s), Some(len), i, acc)
            == if n >= TWO_63 || n == 1 || n == 2 || n == 5 || n == 8 then None
               else if n == 0 then Some((acc.(version := Some(8)), set_ + s))
               else Some((acc, EncodeInt(8) + set_ + s))
  {
    hide Step, A.Valid, ValidOutcome, Attributes.EncodeSet, HeadBytes;
    var n := r.id.value;
    var set_ := Attributes.EncodeSet(r.attributes);
    var value := EncodeInt(8) + set_ + s;
    HeadRoundTrip(UNSIGNED, n, value);
    SmallKey(8);
    assert value == [8] + (set_ + s);
    StepOnEight(acc, n, set_ + s);
    assert (EncodeUint(n) + value)[0] != BREAK_BYTE;
  }

  lemma StepOnEight(acc: Response, n: nat, s: Bytes)
    ensures Step(acc, n, [8] + s)
         == if n == 1 || n == 2 || n == 5 || n == 8 then None
            else if n == 0 then Some((acc.(version := Some(8)), s))
            else Some((acc, [8] + s))
  {
    hide DecodeAddress, DecodeTimestamp, Attributes.DecodeSet, ReadUint, DecodeError, ReadString;
    SmallKey(8);
    UintRoundTrip(8, 256, s);
    EightIsNoValue(s);
  }

  /** The key of the attributes is no address, no timestamp and no set. */
  lemma EightIsNoValue(s: Bytes)
    ensures var b := [8] + s;
            DecodeAddress(b) == None && DecodeTimestamp(b) == None && Attributes.DecodeSet(b) == None
  {
    hide Attributes.DecodeAttribute, ReadMany;
  }

  /** Reading a written response gives `Received`, for every response and whatever follows. */
  lemma DecodeWritten(r: Response, now: U64, s: Bytes)
    requires Valid(r)
    ensures Decode(Encode(r, now) + s)
         == if Received(r, now).None? then None else Some((Received(r, now).value, Unread(r) + s))
  {
    hide Valid, FirstParts, Core, Step, Wire, Put, HeaderCount, PartBytes, Build, ReadFields, HeadBytes,
      Attributes.EncodeSet, EncodeInt, EncodeUint;
    var first := PartBytes(Wire, FirstParts(r, now));
    var attrs := PartBytes(Wire, AttributeParts(r));
    var last := IdBytes(r) + attrs;
    var tag, count := HeadBytes(TAG, RESPONSE_TAG), HeadBytes(MAP, HeaderCount(r));
    Assoc(tag, count, first + last);
    Assoc(tag, count + (first + last), s);
    Assoc(count, first + last, s);
    Assoc(first, last, s);
    Assoc(IdBytes(r), attrs, s);
    HeadRoundTrip(TAG, RESPONSE_TAG, count + (first + (last + s)));
    HeadRoundTrip(MAP, HeaderCount(r), first + (last + s));
    HeaderCountsFields(r, now);
    FieldsWritten(r, now, s);
  }

  lemma FieldsWritten(r: Response, now: U64, s: Bytes)
    requires Valid(r)
    ensures ReadFields(Step, TWO_63,
                       PartBytes(Wire, FirstParts(r, now)) + (IdBytes(r) + (PartBytes(Wire, AttributeParts(r)) + s)),
                       Some(HeaderCount(r)), 0, DEFAULT)
         == if Received(r, now).None? then None else Some((Received(r, now).value, Unread(r) + s))
  {
    hide Valid, FirstParts, Core, Step, Wire, Put, HeaderCount, PartBytes, Build, ReadFields, HeadBytes,
      Attributes.EncodeSet, EncodeInt, EncodeUint, IdBytes, AttributeParts;
    var parts, attrs := FirstParts(r, now), AttributeParts(r);
    PartsTaken(r, now);
    FirstPartsRebuild(r, now);
    HeaderCountsFields(r, now);
    if r.id.Some? {
      var rest := IdBytes(r) + (PartBytes(Wire, attrs) + s);
      FieldsAdvance(Step, Wire, Put, TWO_63, parts, DEFAULT, HeaderCount(r), 0, rest);
      IdTurn(r, Core(r, now), HeaderCount(r), |parts|, s);
      AttributeBytes(r);
      if r.attributes != [] {
        ConfusedTurn(r, Core(r, now), HeaderCount(r), |parts| + 1, s);
      }
    } else {
      WithoutId(r, now, s);
      assert [] + s == s;
    }
  }

  lemma AttributeBytes(r: Response)
    requires Valid(r)
    ensures |AttributeParts(r)| == One(r.attributes != [])
    ensures PartBytes(Wire, AttributeParts(r))
         == if r.attributes == [] then [] else EncodeInt(8) + Attributes.EncodeSet(r.attributes)
  {
    hide A.Valid, ValidOutcome, Attributes.ValidSet, Attributes.EncodeSet, Wire;
    if r.attributes != [] {
      var p := Attrs(r.attributes);
      OptBytes(Wire, true, p, []);
      assert PartBytes(Wire, []) == [];
      assert WriteField(Wire(p)) + [] == WriteField(Wire(p));
      AttrsWire(r.attributes);
    }
  }

  lemma AttrsWire(set_: seq<Attributes.Attribute>)
    requires Attributes.ValidSet(set_)
    ensures Wire(Attrs(set_)) == Field(8, Attributes.EncodeSet(set_))
  {
  }

  lemma WithoutId(r: Response, now: U64, s: Bytes)
    requires Valid(r) && r.id.None?
    ensures ReadFields(Step, TWO_63,
                       PartBytes(Wire, FirstParts(r, now)) + (IdBytes(r) + (PartBytes(Wire, AttributeParts(r)) + s)),
                       Some(HeaderCount(r)), 0, DEFAULT)
         == Some((Core(r, now).(attributes := r.attributes), s))
  {
    hide Valid, FirstParts, Step, Wire, HeaderCount, PartBytes, Build, ReadFields;
    var parts := FirstParts(r, now);
    PartsTaken(r, now);
    FirstPartsRebuild(r, now);
    HeaderCountsFields(r, now);
    assert IdBytes(r) + (PartBytes(Wire, AttributeParts(r)) + s) == PartBytes(Wire, AttributeParts(r)) + s;
    if r.attributes == [] {
      assert PartBytes(Wire, AttributeParts(r)) + s == s by { AttributeBytes(r); }
      FieldsRoundTrip(Step, Wire, Put, TWO_63, parts, DEFAULT, s);
    } else {
      var p := Attrs(r.attributes);
      assert AttributeParts(r) == [p];
      FieldsAdvance(Step, Wire, Put, TWO_63, parts, DEFAULT, HeaderCount(r), 0, PartBytes(Wire, [p]) + s);
      PartBytesLast(Wire, [], p);
      assert [] + [p] == [p];
      assert PartBytes(Wire, []) == [] by { NoBytes(); }
      assert [] + WriteField(Wire(p)) == WriteField(Wire(p));
      assert AttributeParts(r)[0] == p;
      FieldTurn(Step, Wire, Put, TWO_63, p, Core(r, now), HeaderCount(r), |parts|, s);
    }
  }

  lemma NoBytes()
    ensures PartBytes(Wire, []) == []
  {
  }

  /** The code of the error, if there is one, is its own image on the wire. */
  predicate ErrorSurvives(r: Response) {
    r.data.Err? ==> !(r.data.error.code.AttributeSpecific? && r.data.error.code.value > -10000)
  }

  /**
   * A response with a sent receiver, no version and a timestamp survives the wire exactly when
   * it answers no request id and its error code is its own image.
   */
  lemma RoundTripIff(r: Response, now: U64, s: Bytes)
    requires Valid(r) && r.version.None? && r.timestamp.Some? && (r.to.Some? ==> SendsTo(r))
    ensures Decode(Encode(r, now) + s) == Some((r, s)) <==> r.id.None? && ErrorSurvives(r)
  {
    hide Decode, Encode, A.Valid, Attributes.ValidSet;
    DecodeWritten(r, now, s);
    if r.data.Err? {
      CodeSurvives(r.data.error.code);
    }
    if r.id.None? {
      assert Unread(r) + s == s;
    }
  }

  // -------------------------------------------------------------------------------------------
  // What the reader accepts
  // -------------------------------------------------------------------------------------------

  lemma StepKeepsValid(acc: Response, key: int, b: Bytes)
    requires Valid(acc) && |b| < TWO_64
    ensures Step(acc, key, b).Some? ==> Valid(Step(acc, key, b).value.0)
  {
    hide DecodeAddress, ReadString, DecodeTimestamp, ReadUint, DecodeError, ValidError, A.Valid,
      Attributes.DecodeSet, Attributes.ValidSet;
    Attributes.DecodeSetValid(b);
    DecodeErrorValid(b);
  }

  /** Whatever bytes are accepted, the response is one the type can hold. */
  lemma DecodeValid(b: Bytes)
    requires |b| < TWO_64
    ensures Decode(b).Some? ==> Valid(Decode(b).value.0)
  {
    hide ReadFields, Step, Valid;
    DefaultValid();
    if Decode(b).Some? {
      var (_, inside) := ReadTag(b).value;
      var (len, fields) := ReadContainer(inside, MAP).value;
      var inv := (x: Response) => Valid(x);
      forall acc, key, x | |x| < TWO_64 && inv(acc) && Step(acc, key, x).Some? ensures inv(Step(acc, key, x).value.0) {
        StepKeepsValid(acc, key, x);
      }
      FieldsKeep(Step, inv, TWO_63, fields, len, 0, DEFAULT);
    }
  }

  /** The reader never sets an id, whatever bytes it is given. */
  lemma DecodeNoId(b: Bytes)
    requires |b| < TWO_64
    ensures Decode(b).Some? ==> Decode(b).value.0.id == None
  {
    hide ReadFields;
    if Decode(b).Some? {
      var (_, inside) := ReadTag(b).value;
      var (len, fields) := ReadContainer(inside, MAP).value;
      var inv := (x: Response) => x.id == None;
      forall acc, key, x | |x| < TWO_64 && inv(acc) && Step(acc, key, x).Some? ensures inv(Step(acc, key, x).value.0) {
        StepSetsNoId(acc, key, x);
      }
      FieldsKeep(Step, inv, TWO_63, fields, len, 0, DEFAULT);
    }
  }

  lemma StepSetsNoId(acc: Response, key: int, b: Bytes)
    ensures Step(acc, key, b).Some? ==> Step(acc, key, b).value.0.id == acc.id
  {
    hide DecodeAddress, ReadString, DecodeTimestamp, ReadUint, DecodeError, Attributes.DecodeSet;
  }

  lemma DefaultValid()
    ensures Valid(DEFAULT)
  {
  }

  // -------------------------------------------------------------------------------------------
  // Writing to the buffer, reading through the cursor
  // -------------------------------------------------------------------------------------------

  method EncodeInto(e: Encoder, r: Response, now: U64)
    requires Valid(r)
    modifies e
    ensures e.buf == old(e.buf) + Encode(r, now)
  {
    hide Opt, Valid, Wire, PartBytes, HeaderCount;
    e.Head(TAG, RESPONSE_TAG);
    e.Head(MAP, HeaderCount(r));
    WriteFirst(e, r, now);
    ghost var before := e.buf;
    if r.id.Some? {
      e.Int(6);
      e.Head(UNSIGNED, r.id.value);
      Assoc(before, EncodeInt(6), EncodeUint(r.id.value));
    }
    assert e.buf == before + IdBytes(r);
    WriteOpt(e, Wire, r.attributes != [], Attrs(r.attributes), []);
    NoBytes();
    ghost var tag, count := HeadBytes(TAG, RESPONSE_TAG), HeadBytes(MAP, HeaderCount(r));
    ghost var first, attrs := PartBytes(Wire, FirstParts(r, now)), PartBytes(Wire, AttributeParts(r));
    Assoc(old(e.buf), tag, count);
    Assoc(old(e.buf) + (tag + count), first, IdBytes(r));
    Assoc(old(e.buf) + (tag + count), first + IdBytes(r), attrs);
    Assoc(first, IdBytes(r), attrs);
    Assoc(old(e.buf), tag + count, first + (IdBytes(r) + attrs));
    assert e.buf + [] == e.buf;
  }

  method WriteFirst(e: Encoder, r: Response, now: U64)
    modifies e
    ensures e.buf == old(e.buf) + PartBytes(Wire, FirstParts(r, now))
  {
    hide Opt, Wire, PartBytes;
    var to := To(if r.to.Some? then r.to.value else A.ANONYMOUS);
    var time := Timestamp(if r.timestamp.Some? then r.timestamp.value else now);
    ghost var t4 := Opt(true, time) + [];
    ghost var t3 := Opt(true, Result(r.data)) + t4;
    ghost var t2 := Opt(SendsTo(r), to) + t3;
    WriteOpt(e, Wire, !A.IsAnonymous(r.from), From(r.from), t2);
    WriteOpt(e, Wire, SendsTo(r), to, t3);
    WriteOpt(e, Wire, true, Result(r.data), t4);
    WriteOpt(e, Wire, true, time, []);
    NoBytes();
    assert e.buf + [] == e.buf;
  }

  method DecodeFrom(d: Decoder) returns (result: Option<Response>)
    modifies d
    ensures ReadAs(Decode(old(d.rest)), result, d.rest)
  {
    hide Step, ReadTag, ReadContainer, ReadFields;
    var tag := d.Tag();
    if tag.None? || tag.value != RESPONSE_TAG { return None; }
    var len := d.Container(MAP);
    if len.None? { return None; }
    result := RunFields(d, Step, TWO_63, if len.value.Some? then Some(len.value.value) else None, DEFAULT);
  }
}
