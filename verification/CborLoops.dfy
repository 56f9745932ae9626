/**
 * The two decoding loops that the codecs share: reading the members of an array or map one by
 * one, and reading the numbered fields of a message until its map is complete.
 */
module CborLoops {
  import opened Wrappers
  import opened Bytes
  import opened Cbor

  // -------------------------------------------------------------------------------------------
  // Members
  // -------------------------------------------------------------------------------------------

  /** A reader that moves the cursor forward whenever it succeeds. */
  ghost predicate Advances<T(!new)>(read: Bytes -> Option<(T, Bytes)>) {
    forall b :: read(b).Some? ==> |read(b).value.1| < |b|
  }

  function ReadMany<T(!new)>(read: Bytes -> Option<(T, Bytes)>, b: Bytes, len: Option<nat>): (r: Option<(seq<T>,
      Bytes)>)
    requires Advances(read)
    ensures r.Some? ==> |r.value.1| <= |b|
    decreases |b|
  {
    if len == Some(0) then Some(([], b))
    else if len.None? && b != [] && b[0] == BREAK_BYTE then Some(([], b[1..]))
    else
      var (x, more) :- read(b);
      var (xs, rest) :- ReadMany(read, more, if len.Some? then Some(len.value - 1) else None);
      Some(([x] + xs, rest))
  }

  function WriteMany<T>(write: T -> Bytes, xs: seq<T>): Bytes {
    if xs == [] then [] else write(xs[0]) + WriteMany(write, xs[1..])
  }

  /** `read` undoes `write` on `x`, whatever follows. */
  ghost predicate Undoes<T(!new)>(read: Bytes -> Option<(T, Bytes)>, write: T -> Bytes, x: T) {
    forall s :: read(write(x) + s) == Some((x, s))
  }

  lemma {:induction false} ManyRoundTrip<T(!new)>(
    read: Bytes -> Option<(T, Bytes)>, write: T -> Bytes, xs: seq<T>, s: Bytes)
    requires Advances(read)
    requires forall i :: 0 <= i < |xs| ==> Undoes(read, write, xs[i])
    ensures ReadMany(read, WriteMany(write, xs) + s, Some(|xs|)) == Some((xs, s))
  {
    if xs == [] {
      assert WriteMany(write, xs) + s == s;
    } else {
      var more := WriteMany(write, xs[1..]) + s;
      Assoc(write(xs[0]), WriteMany(write, xs[1..]), s);
      assert Undoes(read, write, xs[0]);
      assert read(write(xs[0]) + more) == Some((xs[0], more));
      ManyRoundTrip(read, write, xs[1..], s);
      assert [xs[0]] + xs[1..] == xs;
    }
  }

  /** Every value `read` accepts from an input of machine size satisfies `p`. */
  ghost predicate Yields<T(!new)>(read: Bytes -> Option<(T, Bytes)>, p: T -> bool) {
    forall b :: |b| < TWO_64 && read(b).Some? ==> p(read(b).value.0)
  }

  lemma {:induction false} ManyYield<T(!new)>(read: Bytes -> Option<(T, Bytes)>, p: T -> bool, b: Bytes,
      len: Option<nat>)
    requires Advances(read) && Yields(read, p) && |b| < TWO_64 && (len.Some? ==> len.value < TWO_64)
    ensures ReadMany(read, b, len).Some? ==>
              var xs := ReadMany(read, b, len).value.0;
              |xs| < TWO_64 && (len.None? ==> |xs| <= |b|) && (len.Some? ==> |xs| == len.value)
              && forall i :: 0 <= i < |xs| ==> p(xs[i])
    decreases |b|
  {
    if ReadMany(read, b, len).Some? && len != Some(0) && !(len.None? && b != [] && b[0] == BREAK_BYTE) {
      ManyYield(read, p, read(b).value.1, if len.Some? then Some(len.value - 1) else None);
    }
  }

  // -------------------------------------------------------------------------------------------
  // Fields
  // -------------------------------------------------------------------------------------------

  /** What reading one field does to the value under construction; it may leave bytes unread. */
  type Step<!T(!new)> = (T, int, Bytes) -> Option<(T, Bytes)>

  ghost predicate NeverRewinds<T(!new)>(step: Step<T>) {
    forall acc, key, b :: step(acc, key, b).Some? ==> |step(acc, key, b).value.1| <= |b|
  }

  /**
   * The field loop: a break ends it, otherwise a key and its field are read, and a map of known
   * length ends once that many fields were read. A known length of zero still reads one field.
   */
  function ReadFields<T(!new)>(step: Step<T>, bound: nat, b: Bytes, len: Option<nat>, i: nat,
      acc: T): (r: Option<(T, Bytes)>)
    requires NeverRewinds(step)
    ensures r.Some? ==> |r.value.1| < |b|
    decreases |b|
  {
    if b == [] then None
    else if b[0] == BREAK_BYTE then Some((acc, b[1..]))
    else
      var (key, value) :- ReadInt(b, bound);
      var (next, rest) :- step(acc, key, value);
      if len.Some? && i + 1 >= len.value then Some((next, rest))
      else ReadFields(step, bound, rest, len, i + 1, next)
  }

  /** Reading a field keeps `inv` of the value under construction. */
  ghost predicate Keeps<T(!new)>(step: Step<T>, inv: T -> bool) {
    forall acc, key, b :: |b| < TWO_64 && inv(acc) && step(acc, key, b).Some? ==> inv(step(acc, key, b).value.0)
  }

  lemma {:induction false} FieldsKeep<T(!new)>(
    step: Step<T>, inv: T -> bool, bound: nat, b: Bytes, len: Option<nat>, i: nat, acc: T)
    requires NeverRewinds(step) && Keeps(step, inv) && inv(acc) && |b| < TWO_64
    ensures ReadFields(step, bound, b, len, i, acc).Some? ==> inv(ReadFields(step, bound, b, len, i, acc).value.0)
    decreases |b|
  {
    hide ReadInt;
    if b != [] && b[0] != BREAK_BYTE && ReadInt(b, bound).Some? {
      var (key, value) := ReadInt(b, bound).value;
      if step(acc, key, value).Some? {
        var (next, rest) := step(acc, key, value).value;
        FieldsKeep(step, inv, bound, rest, len, i + 1, next);
      }
    }
  }

  /** What an optional field adds to a count. */
  function One(b: bool): nat { if b then 1 else 0 }

  type Key = k: int | 0 <= k < 128

  /** The wire form of a field: its key, then its value. */
  datatype Field = Field(key: Key, value: Bytes)

  function WriteField(f: Field): (b: Bytes)
    ensures b != [] && b[0] != BREAK_BYTE
  {
    EncodeInt(f.key) + f.value
  }

  function WriteFields(fs: seq<Field>): Bytes {
    if fs == [] then [] else WriteField(fs[0]) + WriteFields(fs[1..])
  }

  /** In every state, the loop reads part `p` from its field and stores it with `put`. */
  ghost predicate Takes<T(!new), P>(step: Step<T>, wire: P -> Field, put: (T, P) -> T, p: P) {
    forall acc, s :: step(acc, wire(p).key, wire(p).value + s) == Some((put(acc, p), s))
  }

  /** Storing the parts one after another. */
  function Build<T, P>(put: (T, P) -> T, acc: T, parts: seq<P>): T
    decreases |parts|
  {
    if parts == [] then acc else Build(put, put(acc, parts[0]), parts[1..])
  }

  /** A part that is present only under a condition. */
  function Opt<P>(c: bool, p: P): seq<P> {
    if c then [p] else []
  }

  lemma BuildOpt<T, P>(put: (T, P) -> T, acc: T, c: bool, p: P, rest: seq<P>)
    ensures Build(put, acc, Opt(c, p) + rest) == Build(put, if c then put(acc, p) else acc, rest)
  {
    if c {
      assert ([p] + rest)[1..] == rest;
    } else {
      assert Opt(c, p) + rest == rest;
    }
  }

  function Wires<P>(wire: P -> Field, parts: seq<P>): (fs: seq<Field>)
    ensures |fs| == |parts|
  {
    if parts == [] then [] else [wire(parts[0])] + Wires(wire, parts[1..])
  }

  /** One turn of the loop on a written field. */
  lemma FieldTurn<T(!new), P>(
    step: Step<T>, wire: P -> Field, put: (T, P) -> T, bound: nat, p: P, acc: T, len: nat, i: nat, s: Bytes)
    requires NeverRewinds(step) && 128 <= bound <= TWO_63 && Takes(step, wire, put, p)
    ensures ReadFields(step, bound, WriteField(wire(p)) + s, Some(len), i, acc)
         == if i + 1 >= len then Some((put(acc, p), s)) else ReadFields(step, bound, s, Some(len), i + 1, put(acc, p))
  {
    var f := wire(p);
    Assoc(EncodeInt(f.key), f.value, s);
    IntRoundTrip(f.key, bound, f.value + s);
    assert step(acc, f.key, f.value + s) == Some((put(acc, p), s));
  }

  /** The loop over the first fields of a longer map: every part is stored, in order. */
  lemma {:induction false} FieldsAdvance<T(!new), P>(
    step: Step<T>, wire: P -> Field, put: (T, P) -> T, bound: nat, parts: seq<P>, acc: T, len: nat, i: nat, s: Bytes)
    requires NeverRewinds(step) && 128 <= bound <= TWO_63 && i + |parts| < len
    requires forall k :: 0 <= k < |parts| ==> Takes(step, wire, put, parts[k])
    ensures ReadFields(step, bound, PartBytes(wire, parts) + s, Some(len), i, acc)
         == ReadFields(step, bound, s, Some(len), i + |parts|, Build(put, acc, parts))
    decreases |parts|
  {
    hide ReadFields;
    if parts == [] {
      assert PartBytes(wire, parts) + s == s;
    } else {
      var rest := PartBytes(wire, parts[1..]);
      assert Wires(wire, parts)[1..] == Wires(wire, parts[1..]);
      Assoc(WriteField(wire(parts[0])), rest, s);
      FieldTurn(step, wire, put, bound, parts[0], acc, len, i, rest + s);
      FieldsAdvance(step, wire, put, bound, parts[1..], put(acc, parts[0]), len, i + 1, s);
    }
  }

  /**
   * The loop over a whole map whose header counts its fields: every part is stored, in order,
   * and what follows the map is left untouched.
   */
  lemma FieldsRoundTrip<T(!new), P>(
    step: Step<T>, wire: P -> Field, put: (T, P) -> T, bound: nat, parts: seq<P>, acc: T, s: Bytes)
    requires NeverRewinds(step) && 128 <= bound <= TWO_63 && |parts| > 0
    requires forall k :: 0 <= k < |parts| ==> Takes(step, wire, put, parts[k])
    ensures ReadFields(step, bound, PartBytes(wire, parts) + s, Some(|parts|), 0, acc)
         == Some((Build(put, acc, parts), s))
  {
    hide ReadFields;
    var n := |parts| - 1;
    var init, last := parts[..n], parts[n];
    assert parts == init + [last];
    PartBytesLast(wire, init, last);
    BuildLast(put, acc, init, last);
    Assoc(PartBytes(wire, init), WriteField(wire(last)), s);
    FieldsAdvance(step, wire, put, bound, init, acc, |parts|, 0, WriteField(wire(last)) + s);
    FieldTurn(step, wire, put, bound, last, Build(put, acc, init), |parts|, n, s);
  }

  /** The loop over a map that a break closes: every part is stored, in order. */
  lemma {:induction false} FieldsToBreak<T(!new), P>(
    step: Step<T>, wire: P -> Field, put: (T, P) -> T, bound: nat, parts: seq<P>, acc: T, i: nat, s: Bytes)
    requires NeverRewinds(step) && 128 <= bound <= TWO_63
    requires forall k :: 0 <= k < |parts| ==> Takes(step, wire, put, parts[k])
    ensures ReadFields(step, bound, PartBytes(wire, parts) + ([BREAK_BYTE] + s), None, i, acc)
         == Some((Build(put, acc, parts), s))
    decreases |parts|
  {
    if parts == [] {
      assert PartBytes(wire, parts) + ([BREAK_BYTE] + s) == [BREAK_BYTE] + s;
      assert ([BREAK_BYTE] + s)[1..] == s;
    } else {
      var rest := PartBytes(wire, parts[1..]);
      assert Wires(wire, parts)[1..] == Wires(wire, parts[1..]);
      Assoc(WriteField(wire(parts[0])), rest, [BREAK_BYTE] + s);
      OpenTurn(step, wire, put, bound, parts[0], acc, i, rest + ([BREAK_BYTE] + s));
      hide ReadFields;
      FieldsToBreak(step, wire, put, bound, parts[1..], put(acc, parts[0]), i + 1, s);
    }
  }

  lemma OpenTurn<T(!new), P>(
    step: Step<T>, wire: P -> Field, put: (T, P) -> T, bound: nat, p: P, acc: T, i: nat, s: Bytes)
    requires NeverRewinds(step) && 128 <= bound <= TWO_63 && Takes(step, wire, put, p)
    ensures ReadFields(step, bound, WriteField(wire(p)) + s, None, i, acc)
         == ReadFields(step, bound, s, None, i + 1, put(acc, p))
  {
    var f := wire(p);
    Assoc(EncodeInt(f.key), f.value, s);
    IntRoundTrip(f.key, bound, f.value + s);
    assert step(acc, f.key, f.value + s) == Some((put(acc, p), s));
  }

  lemma {:induction false} BuildLast<T, P>(put: (T, P) -> T, acc: T, parts: seq<P>, p: P)
    ensures Build(put, acc, parts + [p]) == put(Build(put, acc, parts), p)
    decreases |parts|
  {
    if parts == [] {
      assert parts + [p] == [p];
    } else {
      assert (parts + [p])[1..] == parts[1..] + [p];
      BuildLast(put, put(acc, parts[0]), parts[1..], p);
    }
  }

  lemma {:induction false} PartBytesLast<P>(wire: P -> Field, parts: seq<P>, p: P)
    ensures PartBytes(wire, parts + [p]) == PartBytes(wire, parts) + WriteField(wire(p))
  {
    if parts == [] {
      assert parts + [p] == [p];
      assert WriteFields(Wires(wire, [p])[1..]) == [];
    } else {
      assert (parts + [p])[1..] == parts[1..] + [p];
      PartBytesLast(wire, parts[1..], p);
      assert Wires(wire, parts + [p])[1..] == Wires(wire, parts[1..] + [p]);
      assert Wires(wire, parts)[1..] == Wires(wire, parts[1..]);
      Assoc(WriteField(wire(parts[0])), PartBytes(wire, parts[1..]), WriteField(wire(p)));
    }
  }

  // -------------------------------------------------------------------------------------------
  // Writing to the buffer
  // -------------------------------------------------------------------------------------------

  /** The bytes of the fields that carry these parts. */
  function PartBytes<P>(wire: P -> Field, parts: seq<P>): Bytes {
    WriteFields(Wires(wire, parts))
  }

  lemma OptBytes<P>(wire: P -> Field, c: bool, p: P, rest: seq<P>)
    ensures PartBytes(wire, Opt(c, p) + rest) == (if c then WriteField(wire(p)) else []) + PartBytes(wire, rest)
  {
    if c {
      assert ([p] + rest)[1..] == rest;
      assert Wires(wire, [p] + rest)[1..] == Wires(wire, rest);
    } else {
      assert Opt(c, p) + rest == rest;
    }
  }

  /** Writes a field under a condition; `rest` is what the caller still has to write. */
  method WriteOpt<P>(e: Encoder, wire: P -> Field, c: bool, p: P, ghost rest: seq<P>)
    modifies e
    ensures e.buf + PartBytes(wire, rest) == old(e.buf) + PartBytes(wire, Opt(c, p) + rest)
  {
    hide PartBytes;
    OptBytes(wire, c, p, rest);
    if c {
      var f := wire(p);
      e.Int(f.key);
      e.Raw(f.value);
      Assoc(old(e.buf), EncodeInt(f.key), f.value);
      Assoc(old(e.buf), WriteField(f), PartBytes(wire, rest));
    }
  }

  /** The field loop, with its counter of fields read. */
  method RunFields<T(!new)>(d: Decoder, step: Step<T>, bound: nat, len: Option<nat>, init: T) returns (r: Option<T>)
    requires NeverRewinds(step)
    modifies d
    ensures ReadAs(ReadFields(step, bound, old(d.rest), len, 0, init), r, d.rest)
  {
    hide ReadInt;
    var acc := init;
    var i: nat := 0;
    while true
      invariant ReadFields(step, bound, old(d.rest), len, 0, init) == ReadFields(step, bound, d.rest, len, i, acc)
      decreases |d.rest|
    {
      if d.rest == [] { return None; }
      if d.rest[0] == BREAK_BYTE {
        d.Skip();
        return Some(acc);
      }
      var key := d.Int(bound);
      if key.None? { return None; }
      match step(acc, key.value, d.rest) {
        case None => return None;
        case Some((next, rest)) => acc, d.rest := next, rest;
      }
      i := i + 1;
      if len.Some? && i >= len.value { return Some(acc); }
    }
  }
}
