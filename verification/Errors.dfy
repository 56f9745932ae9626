/** Error codes and errors on the wire. An error carries a message template and its arguments. */
module Errors {
  import opened Wrappers
  import opened Bytes
  import opened Cbor
  import opened CborAny
  import opened CborLoops

  /** The codes with a name; the other two ranges carry their number. */
  datatype Code =
    | Named(value: int)
    | AttributeSpecific(value: int)
    | ApplicationSpecific(value: int)

  const UNKNOWN: Code := Named(-1)

  predicate IsNamed(v: int) {
    || -11 <= v <= -1
    || -104 <= v <= -100
    || -209 <= v <= -200
    || -1009 <= v <= -1000
    || v == -2000
  }

  predicate ValidCode(c: Code) {
    match c
    case Named(v) => IsNamed(v)
    case AttributeSpecific(v) => IsInt(v, TWO_31)
    case ApplicationSpecific(v) => 0 <= v < TWO_32
  }

  /** The cast of a 64-bit number to 32 signed bits. */
  function ToI32(v: int): int {
    (v + TWO_31) % TWO_32 - TWO_31
  }

  function CodeOf(v: int): (c: Code)
    ensures ValidCode(c)
  {
    if IsNamed(v) then Named(v)
    else if v >= 0 then ApplicationSpecific(v % TWO_32)
    else if v <= -10000 then AttributeSpecific(ToI32(v))
    else UNKNOWN
  }

  /** A code keeps its meaning through its number exactly when the number is in its own range. */
  lemma CodeSurvives(c: Code)
    requires ValidCode(c)
    ensures CodeOf(c.value) == c <==> !(c.AttributeSpecific? && c.value > -10000)
  {
  }

  /** The arguments are a map from text to text. */
  datatype ManyError = ManyError(code: Code, message: Option<Bytes>, arguments: seq<Entry>)

  predicate IsTextEntry(e: Entry) {
    e.key.Text? && e.val.Text? && ValidText(e.key.text) && ValidText(e.val.text)
  }

  predicate ValidArguments(args: seq<Entry>) {
    |args| < TWO_64 && Sorted(args) && forall i :: 0 <= i < |args| ==> IsTextEntry(args[i])
  }

  predicate ValidError(e: ManyError) {
    ValidCode(e.code) && (e.message.Some? ==> ValidText(e.message.value)) && ValidArguments(e.arguments)
  }

  // -------------------------------------------------------------------------------------------
  // Arguments
  // -------------------------------------------------------------------------------------------

  function WriteArgument(e: Entry): Bytes {
    if IsTextEntry(e) then EncodeString(TEXT, e.key.text) + EncodeString(TEXT, e.val.text) else []
  }

  function ReadArgument(b: Bytes): (r: Option<(Entry, Bytes)>)
    ensures r.Some? ==> |r.value.1| < |b|
  {
    var (k, mid) :- ReadText(b);
    var (v, rest) :- ReadText(mid);
    Some((Entry(Text(k), Text(v)), rest))
  }

  function EncodeArguments(args: seq<Entry>): Bytes
    requires |args| < TWO_64
  {
    HeadBytes(MAP, |args|) + WriteMany(WriteArgument, args)
  }

  function DecodeArguments(b: Bytes): (r: Option<(seq<Entry>, Bytes)>)
    ensures r.Some? ==> |r.value.1| < |b|
  {
    var (len, inside) :- ReadContainer(b, MAP);
    var (entries, rest) :- ReadMany(ReadArgument, inside, len);
    Some((Collect([], entries), rest))
  }

  lemma ArgumentsRoundTrip(args: seq<Entry>, s: Bytes)
    requires ValidArguments(args)
    ensures DecodeArguments(EncodeArguments(args) + s) == Some((args, s))
  {
    hide ReadMany, WriteMany, ReadText, EncodeString, Compare;
    forall i | 0 <= i < |args| ensures Undoes(ReadArgument, WriteArgument, args[i]) {
      forall t ensures ReadArgument(WriteArgument(args[i]) + t) == Some((args[i], t)) {
        var k, v := args[i].key.text, args[i].val.text;
        Assoc(EncodeString(TEXT, k), EncodeString(TEXT, v), t);
        StringRoundTrip(TEXT, k, EncodeString(TEXT, v) + t);
        StringRoundTrip(TEXT, v, t);
      }
    }
    Assoc(HeadBytes(MAP, |args|), WriteMany(WriteArgument, args), s);
    HeadRoundTrip(MAP, |args|, WriteMany(WriteArgument, args) + s);
    ManyRoundTrip(ReadArgument, WriteArgument, args, s);
    assert [] + args == args;
    CollectInOrder([], args);
  }

  // -------------------------------------------------------------------------------------------
  // Errors
  // -------------------------------------------------------------------------------------------

  datatype Part = CodePart(code: Code) | MessagePart(text: Bytes) | ArgumentsPart(args: seq<Entry>)

  /** The error under construction: its code may still be missing. */
  datatype Builder = Builder(code: Option<Code>, message: Option<Bytes>, arguments: seq<Entry>)

  predicate ValidPart(p: Part) {
    match p
    case CodePart(c) => ValidCode(c)
    case MessagePart(t) => ValidText(t)
    case ArgumentsPart(args) => ValidArguments(args)
  }

  function Wire(p: Part): Field {
    if !ValidPart(p) then Field(3, [])
    else match p
      case CodePart(c) => Field(0, EncodeInt(c.value))
      case MessagePart(t) => Field(1, EncodeString(TEXT, t))
      case ArgumentsPart(args) => Field(2, EncodeArguments(args))
  }

  function Put(b: Builder, p: Part): Builder {
    match p
    case CodePart(c) => b.(code := Some(CodeOf(c.value)))
    case MessagePart(t) => b.(message := Some(t))
    case ArgumentsPart(args) => b.(arguments := args)
  }

  function Parts(e: ManyError): (ps: seq<Part>)
    ensures |ps| == 1 + (if e.message.Some? then 1 else 0) + (if e.arguments != [] then 1 else 0)
  {
    Opt(true, CodePart(e.code))
    + (Opt(e.message.Some?, MessagePart(if e.message.Some? then e.message.value else []))
    + (Opt(e.arguments != [], ArgumentsPart(e.arguments)) + []))
  }

  function EncodeError(e: ManyError): (b: Bytes)
    requires ValidError(e)
    ensures b != [] && 0xA0 <= b[0] <= 0xBB
  {
    var count := 1 + (if e.message.Some? then 1 else 0) + (if e.arguments != [] then 1 else 0);
    HeadBytes(MAP, count) + PartBytes(Wire, Parts(e))
  }

  function Step(acc: Builder, key: int, b: Bytes): (r: Option<(Builder, Bytes)>)
    ensures r.Some? ==> |r.value.1| <= |b|
  {
    if key == 0 then
      var (v, rest) :- ReadInt(b, TWO_63);
      Some((acc.(code := Some(CodeOf(v))), rest))
    else if key == 1 then
      var (t, rest) :- ReadText(b);
      Some((acc.(message := Some(t)), rest))
    else if key == 2 then
      var (args, rest) :- DecodeArguments(b);
      Some((acc.(arguments := args), rest))
    else Some((acc, b))
  }

  function DecodeError(b: Bytes): (r: Option<(ManyError, Bytes)>)
    ensures r.Some? ==> |r.value.1| < |b|
  {
    var (len, fields) :- ReadContainer(b, MAP);
    var (acc, rest) :- ReadFields(Step, TWO_63, fields, len, 0, Builder(None, None, []));
    Some((ManyError(if acc.code.Some? then acc.code.value else UNKNOWN, acc.message, acc.arguments), rest))
  }

  /** What the wire keeps of an error. */
  function NormalError(e: ManyError): ManyError {
    e.(code := CodeOf(e.code.value))
  }

  lemma PartTaken(acc: Builder, p: Part, s: Bytes)
    requires ValidPart(p)
    ensures Step(acc, Wire(p).key, Wire(p).value + s) == Some((Put(acc, p), s))
  {
    hide ReadText, EncodeString, DecodeArguments, EncodeArguments, ReadInt, EncodeInt, Sorted;
    match p
    case CodePart(c) => IntRoundTrip(c.value, TWO_63, s);
    case MessagePart(t) => StringRoundTrip(TEXT, t, s);
    case ArgumentsPart(args) => ArgumentsRoundTrip(args, s);
  }

  lemma PartsRebuild(e: ManyError)
    ensures Build(Put, Builder(None, None, []), Parts(e))
         == Builder(Some(CodeOf(e.code.value)), e.message, e.arguments)
  {
    hide Opt, CodeOf;
    var m := MessagePart(if e.message.Some? then e.message.value else []);
    var t3 := Opt(e.arguments != [], ArgumentsPart(e.arguments)) + [];
    var t2 := Opt(e.message.Some?, m) + t3;
    var b0 := Builder(None, None, []);
    BuildOpt(Put, b0, true, CodePart(e.code), t2);
    var b1 := b0.(code := Some(CodeOf(e.code.value)));
    BuildOpt(Put, b1, e.message.Some?, m, t3);
    var b2 := b1.(message := e.message);
    BuildOpt(Put, b2, e.arguments != [], ArgumentsPart(e.arguments), []);
  }

  lemma ErrorRoundTrip(e: ManyError, s: Bytes)
    requires ValidError(e)
    ensures DecodeError(EncodeError(e) + s) == Some((NormalError(e), s))
  {
    hide Step, Wire, Put, PartBytes, Build, ReadFields, HeadBytes, Sorted, CodeOf;
    var parts := Parts(e);
    forall k | 0 <= k < |parts| ensures Takes(Step, Wire, Put, parts[k]) {
      forall acc, t ensures Step(acc, Wire(parts[k]).key, Wire(parts[k]).value + t) == Some((Put(acc, parts[k]), t)) {
        PartTaken(acc, parts[k], t);
      }
    }
    var h := HeadBytes(MAP, |parts|);
    Assoc(h, PartBytes(Wire, parts), s);
    HeadRoundTrip(MAP, |parts|, PartBytes(Wire, parts) + s);
    FieldsRoundTrip(Step, Wire, Put, TWO_63, parts, Builder(None, None, []), s);
    PartsRebuild(e);
  }

  // -------------------------------------------------------------------------------------------
  // What the decoders accept
  // -------------------------------------------------------------------------------------------

  lemma ArgumentsAreText(p: Entry -> bool)
    requires forall e :: p(e) <==> IsTextEntry(e)
    ensures Yields(ReadArgument, p)
  {
    hide ReadText, IsUtf8;
  }

  lemma DecodeArgumentsValid(b: Bytes)
    requires |b| < TWO_64
    ensures DecodeArguments(b).Some? ==> ValidArguments(DecodeArguments(b).value.0)
  {
    hide ReadMany, Compare, IsUtf8, IsTextEntry, Collect, ReadArgument;
    if DecodeArguments(b).Some? {
      var (len, inside) := ReadContainer(b, MAP).value;
      var p := (e: Entry) => IsTextEntry(e);
      ArgumentsAreText(p);
      ManyYield(ReadArgument, p, inside, len);
      var entries := ReadMany(ReadArgument, inside, len).value.0;
      CollectSorted([], entries);
      CollectHolds([], entries, p);
    }
  }

  predicate ValidBuilder(b: Builder) {
    && (b.code.Some? ==> ValidCode(b.code.value))
    && (b.message.Some? ==> ValidText(b.message.value))
    && ValidArguments(b.arguments)
  }

  lemma DecodeErrorValid(b: Bytes)
    requires |b| < TWO_64
    ensures DecodeError(b).Some? ==> ValidError(DecodeError(b).value.0)
  {
    hide ReadFields, ReadText, ReadInt, DecodeArguments, Sorted, IsTextEntry;
    if DecodeError(b).Some? {
      var (len, fields) := ReadContainer(b, MAP).value;
      var inv := (x: Builder) => ValidBuilder(x);
      forall acc, key, x | |x| < TWO_64 && inv(acc) && Step(acc, key, x).Some? ensures inv(Step(acc, key, x).value.0) {
        DecodeArgumentsValid(x);
      }
      NoArguments();
      FieldsKeep(Step, inv, TWO_63, fields, len, 0, Builder(None, None, []));
    }
  }

  lemma NoArguments()
    ensures ValidArguments([])
  {
  }
}
