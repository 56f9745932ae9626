/**
 * Request messages: a tagged map whose header is counted apart from the fields that are then
 * written, and a reader that fills a builder field by field.
 */
module Request {
  import opened Wrappers
  import opened Bytes
  import opened Cbor
  import opened CborLoops
  import opened AddressCbor
  import A = Address
  import Attributes

  const REQUEST_TAG := 10001

  datatype Request = Request(
    version: Option<nat>,
    from: Option<A.Address>,
    to: A.Address,
    endpoint: Bytes,
    data: Bytes,
    timestamp: Option<U64>,
    id: Option<U64>,
    nonce: Option<Bytes>,
    attributes: seq<Attributes.Attribute>)

  const DEFAULT := Request(None, None, A.ANONYMOUS, [], [], None, None, None, [])

  predicate Valid(r: Request) {
    && (r.from.Some? ==> A.Valid(r.from.value))
    && A.Valid(r.to)
    && ValidText(r.endpoint)
    && |r.data| < TWO_64
    && (r.nonce.Some? ==> |r.nonce.value| < TWO_64)
    && Attributes.ValidSet(r.attributes)
  }

  /** A field of the request, as the writer emits it and the reader stores it. */
  datatype Part =
    | From(address: A.Address)
    | To(address: A.Address)
    | Endpoint(text: Bytes)
    | Argument(data: Bytes)
    | Timestamp(secs: U64)
    | Id(id: U64)
    | Nonce(data: Bytes)
    | Attrs(attributes: seq<Attributes.Attribute>)

  predicate ValidPart(p: Part) {
    match p
    case From(a) => A.Valid(a)
    case To(a) => A.Valid(a)
    case Endpoint(t) => ValidText(t)
    case Argument(d) => |d| < TWO_64
    case Nonce(d) => |d| < TWO_64
    case Attrs(s) => Attributes.ValidSet(s)
    case _ => true
  }

  /** The key and value of a field; made total so that it can be passed on. */
  function Wire(p: Part): Field {
    if !ValidPart(p) then Field(0, [])
    else match p
      case From(a) => Field(1, EncodeAddress(a))
      case To(a) => Field(2, EncodeAddress(a))
      case Endpoint(t) => Field(3, EncodeString(TEXT, t))
      case Argument(d) => Field(4, EncodeString(BYTES, d))
      case Timestamp(n) => Field(5, EncodeTimestamp(n))
      case Id(n) => Field(6, EncodeUint(n))
      case Nonce(d) => Field(7, EncodeString(BYTES, d))
      case Attrs(s) => Field(8, Attributes.EncodeSet(s))
  }

  function Put(r: Request, p: Part): Request {
    match p
    case From(a) => r.(from := Some(a))
    case To(a) => r.(to := a)
    case Endpoint(t) => r.(endpoint := t)
    case Argument(d) => r.(data := d)
    case Timestamp(n) => r.(timestamp := Some(n))
    case Id(n) => r.(id := Some(n))
    case Nonce(d) => r.(nonce := Some(d))
    case Attrs(s) => r.(attributes := s)
  }

  // -------------------------------------------------------------------------------------------
  // Writer
  // -------------------------------------------------------------------------------------------

  predicate SendsFrom(r: Request) {
    r.from.Some? && !A.IsAnonymous(r.from.value)
  }

  /** The length put in the map header. */
  function HeaderCount(r: Request): (n: nat)
    ensures 2 <= n <= 8
  {
    2
    + One(!(r.from.None? || A.Eq(r.from.value, A.ANONYMOUS)))
    + One(!A.IsAnonymous(r.to))
    + One(r.data != [])
    + One(r.id.Some?)
    + One(r.nonce.Some?)
    + One(r.attributes != [])
  }

  /** The fields written after the header, in order; a missing timestamp becomes `now`. */
  function Parts(r: Request, now: U64): (ps: seq<Part>)
    ensures ps != []
  {
    Opt(SendsFrom(r), From(if r.from.Some? then r.from.value else A.ANONYMOUS))
    + (Opt(!A.IsAnonymous(r.to), To(r.to))
    + (Opt(true, Endpoint(r.endpoint))
    + (Opt(r.data != [], Argument(r.data))
    + (Opt(true, Timestamp(if r.timestamp.Some? then r.timestamp.value else now))
    + LastParts(r)))))
  }

  function LastParts(r: Request): seq<Part> {
    Opt(r.id.Some?, Id(if r.id.Some? then r.id.value else 0))
    + (Opt(r.nonce.Some?, Nonce(if r.nonce.Some? then r.nonce.value else []))
    + (Opt(r.attributes != [], Attrs(r.attributes)) + []))
  }

  function Encode(r: Request, now: U64): Bytes
    requires Valid(r)
  {
    HeadBytes(TAG, REQUEST_TAG) + HeadBytes(MAP, HeaderCount(r)) + PartBytes(Wire, Parts(r, now))
  }

  /** The header announces exactly the fields that follow it. */
  lemma HeaderCountsFields(r: Request, now: U64)
    requires Valid(r)
    ensures HeaderCount(r) == |Parts(r, now)|
  {
    if r.from.Some? {
      A.EqIsByteEquality(r.from.value, A.ANONYMOUS);
    }
  }

  // -------------------------------------------------------------------------------------------
  // Reader
  // -------------------------------------------------------------------------------------------

  /** One field; a key that is not one of the nine leaves its value unread. */
  function Step(r: Request, key: int, b: Bytes): (next: Option<(Request, Bytes)>)
    ensures next.Some? ==> |next.value.1| <= |b|
  {
    if key == 0 then
      var (v, rest) :- ReadUint(b, 256);
      if v != 1 then None else Some((r.(version := Some(v)), rest))
    else if key == 1 then
      var (a, rest) :- DecodeAddress(b);
      Some((r.(from := Some(a)), rest))
    else if key == 2 then
      var (a, rest) :- DecodeAddress(b);
      Some((r.(to := a), rest))
    else if key == 3 then
      var (t, rest) :- ReadText(b);
      Some((r.(endpoint := t), rest))
    else if key == 4 then
      var (d, rest) :- ReadString(b, BYTES);
      Some((r.(data := d), rest))
    else if key == 5 then
      var (n, rest) :- DecodeTimestamp(b);
      Some((r.(timestamp := Some(n)), rest))
    else if key == 6 then
      var (n, rest) :- ReadUint(b, TWO_64);
      Some((r.(id := Some(n)), rest))
    else if key == 7 then
      var (d, rest) :- ReadString(b, BYTES);
      Some((r.(nonce := Some(d)), rest))
    else if key == 8 then
      var (s, rest) :- Attributes.DecodeSet(b);
      Some((r.(attributes := s), rest))
    else Some((r, b))
  }

  function Decode(b: Bytes): Option<(Request, Bytes)> {
    var (t, inside) :- ReadTag(b);
    if t != REQUEST_TAG then None
    else
      var (len, fields) :- ReadContainer(inside, MAP);
      ReadFields(Step, 128, fields, len, 0, DEFAULT)
  }

  lemma PartTaken(r: Request, p: Part, s: Bytes)
    requires ValidPart(p)
    ensures Step(r, Wire(p).key, Wire(p).value + s) == Some((Put(r, p), s))
  {
    hide DecodeAddress, EncodeAddress, EncodeString, ReadString, ReadText, EncodeTimestamp, DecodeTimestamp,
      Attributes.DecodeSet, Attributes.EncodeSet;
    match p
    case From(a) => AddressRoundTrip(a, s);
    case To(a) => AddressRoundTrip(a, s);
    case Endpoint(t) => StringRoundTrip(TEXT, t, s);
    case Argument(d) => StringRoundTrip(BYTES, d, s);
    case Timestamp(n) => TimestampRoundTrip(n, s);
    case Id(n) => UintRoundTrip(n, TWO_64, s);
    case Nonce(d) => StringRoundTrip(BYTES, d, s);
    case Attrs(set_) => Attributes.SetRoundTrip(set_, s);
  }

  /** What the wire keeps of a request: no version, and no anonymous sender. */
  function Normal(r: Request, now: U64): Request {
    r.(version := None,
       from := if SendsFrom(r) then r.from else None,
       timestamp := Some(if r.timestamp.Some? then r.timestamp.value else now))
  }

  lemma LastPartsRebuild(acc: Request, r: Request)
    requires acc.id == None && acc.nonce == None && acc.attributes == []
    ensures Build(Put, acc, LastParts(r)) == acc.(id := r.id, nonce := r.nonce, attributes := r.attributes)
  {
    hide Opt;
    var id := Id(if r.id.Some? then r.id.value else 0);
    var nonce := Nonce(if r.nonce.Some? then r.nonce.value else []);
    var t8 := Opt(r.attributes != [], Attrs(r.attributes)) + [];
    var t7 := Opt(r.nonce.Some?, nonce) + t8;
    BuildOpt(Put, acc, r.id.Some?, id, t7);
    var r6 := acc.(id := r.id);
    BuildOpt(Put, r6, r.nonce.Some?, nonce, t8);
    var r7 := r6.(nonce := r.nonce);
    BuildOpt(Put, r7, r.attributes != [], Attrs(r.attributes), []);
  }

  lemma PartsRebuild(r: Request, now: U64)
    requires Valid(r)
    ensures Build(Put, DEFAULT, Parts(r, now)) == Normal(r, now)
  {
    hide Opt, LastParts, Build, A.Valid, Attributes.ValidSet, ValidText;
    if A.IsAnonymous(r.to) { A.AnonymousIsUnique(r.to); }
    var from := From(if r.from.Some? then r.from.value else A.ANONYMOUS);
    var time := Timestamp(if r.timestamp.Some? then r.timestamp.value else now);
    var t5 := Opt(true, time) + LastParts(r);
    var t4 := Opt(r.data != [], Argument(r.data)) + t5;
    var t3 := Opt(true, Endpoint(r.endpoint)) + t4;
    var t2 := Opt(!A.IsAnonymous(r.to), To(r.to)) + t3;
    BuildOpt(Put, DEFAULT, SendsFrom(r), from, t2);
    var r1 := DEFAULT.(from := if SendsFrom(r) then r.from else None);
    BuildOpt(Put, r1, !A.IsAnonymous(r.to), To(r.to), t3);
    var r2 := r1.(to := r.to);
    BuildOpt(Put, r2, true, Endpoint(r.endpoint), t4);
    var r3 := r2.(endpoint := r.endpoint);
    BuildOpt(Put, r3, r.data != [], Argument(r.data), t5);
    var r4 := r3.(data := r.data);
    BuildOpt(Put, r4, true, time, LastParts(r));
    LastPartsRebuild(r4.(timestamp := Normal(r, now).timestamp), r);
  }

  predicate AllValid(ps: seq<Part>) {
    forall k :: 0 <= k < |ps| ==> ValidPart(ps[k])
  }

  lemma OptValid(c: bool, p: Part, rest: seq<Part>)
    requires (c ==> ValidPart(p)) && AllValid(rest)
    ensures AllValid(Opt(c, p) + rest)
  {
  }

  lemma PartsValid(r: Request, now: U64)
    requires Valid(r)
    ensures AllValid(Parts(r, now))
  {
    hide Opt, AllValid, Attributes.ValidSet, A.Valid, ValidText;
    var from := From(if r.from.Some? then r.from.value else A.ANONYMOUS);
    var nonce := Nonce(if r.nonce.Some? then r.nonce.value else []);
    var time := Timestamp(if r.timestamp.Some? then r.timestamp.value else now);
    assert AllValid([]) by { NoParts(); }
    OptValid(r.attributes != [], Attrs(r.attributes), []);
    OptValid(r.nonce.Some?, nonce, Opt(r.attributes != [], Attrs(r.attributes)) + []);
    var id := Id(if r.id.Some? then r.id.value else 0);
    OptValid(r.id.Some?, id, Opt(r.nonce.Some?, nonce) + (Opt(r.attributes != [], Attrs(r.attributes)) + []));
    var t5 := Opt(true, time) + LastParts(r);
    var t4 := Opt(r.data != [], Argument(r.data)) + t5;
    var t3 := Opt(true, Endpoint(r.endpoint)) + t4;
    var t2 := Opt(!A.IsAnonymous(r.to), To(r.to)) + t3;
    OptValid(true, time, LastParts(r));
    OptValid(r.data != [], Argument(r.data), t5);
    OptValid(true, Endpoint(r.endpoint), t4);
    OptValid(!A.IsAnonymous(r.to), To(r.to), t3);
    OptValid(SendsFrom(r), from, t2);
  }

  lemma NoParts()
    ensures AllValid([])
  {
  }

  /** A request survives the wire up to its normal form, and leaves what follows untouched. */
  lemma RoundTrip(r: Request, now: U64, s: Bytes)
    requires Valid(r)
    ensures Decode(Encode(r, now) + s) == Some((Normal(r, now), s))
  {
    hide Valid, Parts, Normal, Step, Wire, Put, HeaderCount, PartBytes, Build, ReadFields, HeadBytes, ValidPart;
    var parts := Parts(r, now);
    var fields := PartBytes(Wire, parts);
    var count := HeadBytes(MAP, HeaderCount(r));
    Assoc(HeadBytes(TAG, REQUEST_TAG), count, fields);
    Assoc(HeadBytes(TAG, REQUEST_TAG), count + fields, s);
    Assoc(count, fields, s);
    HeadRoundTrip(TAG, REQUEST_TAG, count + (fields + s));
    HeadRoundTrip(MAP, HeaderCount(r), fields + s);
    HeaderCountsFields(r, now);
    PartsRebuild(r, now);
    PartsValid(r, now);
    forall k | 0 <= k < |parts| ensures Takes(Step, Wire, Put, parts[k]) {
      forall acc, t ensures Step(acc, Wire(parts[k]).key, Wire(parts[k]).value + t) == Some((Put(acc, parts[k]), t)) {
        PartTaken(acc, parts[k], t);
      }
    }
    FieldsRoundTrip(Step, Wire, Put, 128, parts, DEFAULT, s);
  }

  // -------------------------------------------------------------------------------------------
  // Writing to the buffer, reading through the cursor
  // -------------------------------------------------------------------------------------------

  method EncodeInto(e: Encoder, r: Request, now: U64)
    requires Valid(r)
    modifies e
    ensures e.buf == old(e.buf) + Encode(r, now)
  {
    hide Opt, Valid, Wire, PartBytes, HeaderCount;
    e.Head(TAG, REQUEST_TAG);
    e.Head(MAP, HeaderCount(r));
    ghost var start := e.buf;
    var from := From(if r.from.Some? then r.from.value else A.ANONYMOUS);
    var time := Timestamp(if r.timestamp.Some? then r.timestamp.value else now);
    ghost var t5 := Opt(true, time) + LastParts(r);
    ghost var t4 := Opt(r.data != [], Argument(r.data)) + t5;
    ghost var t3 := Opt(true, Endpoint(r.endpoint)) + t4;
    ghost var t2 := Opt(!A.IsAnonymous(r.to), To(r.to)) + t3;
    WriteOpt(e, Wire, SendsFrom(r), from, t2);
    WriteOpt(e, Wire, !A.IsAnonymous(r.to), To(r.to), t3);
    WriteOpt(e, Wire, true, Endpoint(r.endpoint), t4);
    WriteOpt(e, Wire, r.data != [], Argument(r.data), t5);
    WriteOpt(e, Wire, true, time, LastParts(r));
    WriteLast(e, r);
    Assoc(old(e.buf), HeadBytes(TAG, REQUEST_TAG), HeadBytes(MAP, HeaderCount(r)));
    Assoc(old(e.buf), HeadBytes(TAG, REQUEST_TAG) + HeadBytes(MAP, HeaderCount(r)), PartBytes(Wire, Parts(r, now)));
  }

  method WriteLast(e: Encoder, r: Request)
    modifies e
    ensures e.buf == old(e.buf) + PartBytes(Wire, LastParts(r))
  {
    hide Opt, Wire;
    var id := Id(if r.id.Some? then r.id.value else 0);
    var nonce := Nonce(if r.nonce.Some? then r.nonce.value else []);
    ghost var t8 := Opt(r.attributes != [], Attrs(r.attributes)) + [];
    ghost var t7 := Opt(r.nonce.Some?, nonce) + t8;
    WriteOpt(e, Wire, r.id.Some?, id, t7);
    WriteOpt(e, Wire, r.nonce.Some?, nonce, t8);
    WriteOpt(e, Wire, r.attributes != [], Attrs(r.attributes), []);
    assert e.buf + PartBytes(Wire, []) == e.buf;
  }

  method DecodeFrom(d: Decoder) returns (result: Option<Request>)
    modifies d
    ensures ReadAs(Decode(old(d.rest)), result, d.rest)
  {
    hide Step, ReadTag, ReadContainer, ReadFields;
    var tag := d.Tag();
    if tag.None? || tag.value != REQUEST_TAG { return None; }
    var len := d.Container(MAP);
    if len.None? { return None; }
    result := RunFields(d, Step, 128, if len.value.Some? then Some(len.value.value) else None, DEFAULT);
  }

  // -------------------------------------------------------------------------------------------
  // What the reader accepts
  // -------------------------------------------------------------------------------------------

  lemma StepKeepsValid(acc: Request, key: int, b: Bytes)
    requires Valid(acc) && |b| < TWO_64
    ensures Step(acc, key, b).Some? ==> Valid(Step(acc, key, b).value.0)
  {
    hide DecodeAddress, ReadString, ReadText, DecodeTimestamp, ReadUint, A.Valid, ValidText,
      Attributes.DecodeSet, Attributes.ValidSet;
    Attributes.DecodeSetValid(b);
  }

  lemma DefaultValid()
    ensures Valid(DEFAULT)
  {
  }

  /** Whatever bytes are accepted, the request is one the type can hold. */
  lemma DecodeValid(b: Bytes)
    requires |b| < TWO_64
    ensures Decode(b).Some? ==> Valid(Decode(b).value.0)
  {
    hide ReadFields, Step, Valid;
    DefaultValid();
    if Decode(b).Some? {
      var (_, inside) := ReadTag(b).value;
      var (len, fields) := ReadContainer(inside, MAP).value;
      var inv := (x: Request) => Valid(x);
      forall acc, key, x | |x| < TWO_64 && inv(acc) && Step(acc, key, x).Some? ensures inv(Step(acc, key, x).value.0) {
        StepKeepsValid(acc, key, x);
      }
      FieldsKeep(Step, inv, 128, fields, len, 0, DEFAULT);
    }
  }

  /** A request read from any bytes survives being written and read again, up to the normal form. */
  lemma Reencode(b: Bytes, now: U64, s: Bytes)
    requires |b| < TWO_64
    ensures Decode(b).Some? ==>
              var r := Decode(b).value.0;
              Valid(r) && Decode(Encode(r, now) + s) == Some((Normal(r, now), s))
  {
    hide Decode, Encode, Valid;
    DecodeValid(b);
    if Decode(b).Some? {
      RoundTrip(Decode(b).value.0, now, s);
    }
  }
}
