/**
 * Arbitrary CBOR values and their codec.
 *
 * A `BTreeMap` is the list of its entries in strictly increasing key order, under the order that
 * the value type derives: first by variant, then by content. Tags are compared as numbers.
 */
module CborAny {
  import opened Wrappers
  import opened Bytes
  import opened Cbor

  datatype Any =
    | Bool(b: bool)
    | Int(i: int)
    | Text(text: Bytes)
    | Blob(bytes: Bytes)
    | Array(items: seq<Any>)
    | Map(entries: seq<Entry>)
    | Tagged(tag: nat, value: Any)
    | Null

  datatype Entry = Entry(key: Any, val: Any)

  // -------------------------------------------------------------------------------------------
  // The derived order
  // -------------------------------------------------------------------------------------------

  datatype Ordering = Less | Equal | Greater

  function Flip(o: Ordering): Ordering {
    match o case Less => Greater case Equal => Equal case Greater => Less
  }

  function Then(first: Ordering, second: Ordering): Ordering {
    if first == Equal then second else first
  }

  function CompareInt(x: int, y: int): Ordering {
    if x < y then Less else if x == y then Equal else Greater
  }

  function CompareBytes(x: Bytes, y: Bytes): Ordering {
    if x == [] || y == [] then CompareInt(|x|, |y|)
    else Then(CompareInt(x[0], y[0]), CompareBytes(x[1..], y[1..]))
  }

  function Variant(v: Any): nat {
    match v
    case Bool(_) => 0
    case Int(_) => 1
    case Text(_) => 2
    case Blob(_) => 3
    case Array(_) => 4
    case Map(_) => 5
    case Tagged(_, _) => 6
    case Null => 7
  }

  function Compare(x: Any, y: Any): Ordering
    decreases x
  {
    match (x, y)
    case (Bool(a), Bool(b)) => CompareInt(if a then 1 else 0, if b then 1 else 0)
    case (Int(a), Int(b)) => CompareInt(a, b)
    case (Text(a), Text(b)) => CompareBytes(a, b)
    case (Blob(a), Blob(b)) => CompareBytes(a, b)
    case (Array(a), Array(b)) => CompareItems(a, b)
    case (Map(a), Map(b)) => CompareEntries(a, b)
    case (Tagged(s, a), Tagged(t, b)) => Then(CompareInt(s, t), Compare(a, b))
    case _ => CompareInt(Variant(x), Variant(y))
  }

  function CompareItems(x: seq<Any>, y: seq<Any>): Ordering
    decreases x
  {
    if x == [] || y == [] then CompareInt(|x|, |y|)
    else Then(Compare(x[0], y[0]), CompareItems(x[1..], y[1..]))
  }

  function CompareEntries(x: seq<Entry>, y: seq<Entry>): Ordering
    decreases x
  {
    if x == [] || y == [] then CompareInt(|x|, |y|)
    else
      assert x[0].key < x[0] && x[0].val < x[0];
      Then(Compare(x[0].key, y[0].key), Then(Compare(x[0].val, y[0].val), CompareEntries(x[1..], y[1..])))
  }

  predicate Below(x: Any, y: Any) {
    Compare(x, y) == Less
  }

  lemma {:induction false} CompareBytesOrder(x: Bytes, y: Bytes, z: Bytes)
    ensures CompareBytes(x, y) == Equal <==> x == y
    ensures CompareBytes(y, x) == Flip(CompareBytes(x, y))
    ensures CompareBytes(x, y) == Less && CompareBytes(y, z) == Less ==> CompareBytes(x, z) == Less
  {
    if x != [] && y != [] {
      CompareBytesOrder(x[1..], y[1..], if z == [] then [] else z[1..]);
      assert x == [x[0]] + x[1..] && y == [y[0]] + y[1..];
    }
  }

  /** Only equal values compare equal. */
  lemma {:induction false} CompareEqual(x: Any, y: Any)
    ensures Compare(x, y) == Equal <==> x == y
    decreases x
  {
    match (x, y)
    case (Text(a), Text(b)) => CompareBytesOrder(a, b, []);
    case (Blob(a), Blob(b)) => CompareBytesOrder(a, b, []);
    case (Array(a), Array(b)) => CompareItemsEqual(a, b);
    case (Map(a), Map(b)) => CompareEntriesEqual(a, b);
    case (Tagged(s, a), Tagged(t, b)) => CompareEqual(a, b);
    case _ =>
  }

  lemma {:induction false} CompareItemsEqual(x: seq<Any>, y: seq<Any>)
    ensures CompareItems(x, y) == Equal <==> x == y
    decreases x
  {
    if x != [] && y != [] {
      CompareEqual(x[0], y[0]);
      CompareItemsEqual(x[1..], y[1..]);
      assert x == [x[0]] + x[1..] && y == [y[0]] + y[1..];
    }
  }

  lemma {:induction false} CompareEntriesEqual(x: seq<Entry>, y: seq<Entry>)
    ensures CompareEntries(x, y) == Equal <==> x == y
    decreases x
  {
    if x != [] && y != [] {
      assert x[0].key < x[0] && x[0].val < x[0];
      CompareEqual(x[0].key, y[0].key);
      CompareEqual(x[0].val, y[0].val);
      CompareEntriesEqual(x[1..], y[1..]);
      assert x == [x[0]] + x[1..] && y == [y[0]] + y[1..];
    }
  }

  /** Swapping the operands flips the comparison. */
  lemma {:induction false} CompareFlips(x: Any, y: Any)
    ensures Compare(y, x) == Flip(Compare(x, y))
    decreases x
  {
    match (x, y)
    case (Text(a), Text(b)) => CompareBytesOrder(a, b, []);
    case (Blob(a), Blob(b)) => CompareBytesOrder(a, b, []);
    case (Array(a), Array(b)) => CompareItemsFlips(a, b);
    case (Map(a), Map(b)) => CompareEntriesFlips(a, b);
    case (Tagged(s, a), Tagged(t, b)) => CompareFlips(a, b);
    case _ =>
  }

  lemma {:induction false} CompareItemsFlips(x: seq<Any>, y: seq<Any>)
    ensures CompareItems(y, x) == Flip(CompareItems(x, y))
    decreases x
  {
    if x != [] && y != [] {
      CompareFlips(x[0], y[0]);
      CompareItemsFlips(x[1..], y[1..]);
    }
  }

  lemma {:induction false} CompareEntriesFlips(x: seq<Entry>, y: seq<Entry>)
    ensures CompareEntries(y, x) == Flip(CompareEntries(x, y))
    decreases x
  {
    if x != [] && y != [] {
      assert x[0].key < x[0] && x[0].val < x[0];
      CompareFlips(x[0].key, y[0].key);
      CompareFlips(x[0].val, y[0].val);
      CompareEntriesFlips(x[1..], y[1..]);
    }
  }

  /** The derived order is transitive, at every depth of nesting. */
  lemma {:induction false} BelowTransitive(x: Any, y: Any, z: Any)
    requires Below(x, y) && Below(y, z)
    ensures Below(x, z)
    decreases x
  {
    if Variant(x) == Variant(y) == Variant(z) {
      match x
      case Text(a) => CompareBytesOrder(a, y.text, z.text);
      case Blob(a) => CompareBytesOrder(a, y.bytes, z.bytes);
      case Array(a) => ItemsTransitive(a, y.items, z.items);
      case Map(a) => EntriesTransitive(a, y.entries, z.entries);
      case Tagged(s, a) =>
        if s == y.tag == z.tag { BelowTransitive(a, y.value, z.value); }
      case _ =>
    }
  }

  lemma {:induction false} ItemsTransitive(x: seq<Any>, y: seq<Any>, z: seq<Any>)
    requires CompareItems(x, y) == Less && CompareItems(y, z) == Less
    ensures CompareItems(x, z) == Less
    decreases x
  {
    if x == [] {
    } else {
      CompareEqual(x[0], y[0]);
      CompareEqual(y[0], z[0]);
      if x[0] == y[0] && y[0] == z[0] {
        ItemsTransitive(x[1..], y[1..], z[1..]);
      } else if x[0] != y[0] && y[0] != z[0] {
        BelowTransitive(x[0], y[0], z[0]);
      }
    }
  }

  lemma {:induction false} EntriesTransitive(x: seq<Entry>, y: seq<Entry>, z: seq<Entry>)
    requires CompareEntries(x, y) == Less && CompareEntries(y, z) == Less
    ensures CompareEntries(x, z) == Less
    decreases x
  {
    if x == [] {
    } else {
      assert x[0].key < x[0] && x[0].val < x[0];
      CompareEqual(x[0].key, y[0].key);
      CompareEqual(y[0].key, z[0].key);
      CompareEqual(x[0].val, y[0].val);
      CompareEqual(y[0].val, z[0].val);
      if x[0].key == y[0].key && y[0].key == z[0].key {
        if x[0].val == y[0].val && y[0].val == z[0].val {
          EntriesTransitive(x[1..], y[1..], z[1..]);
        } else if x[0].val != y[0].val && y[0].val != z[0].val {
          BelowTransitive(x[0].val, y[0].val, z[0].val);
        }
      } else if x[0].key != y[0].key && y[0].key != z[0].key {
        BelowTransitive(x[0].key, y[0].key, z[0].key);
      }
    }
  }

  // -------------------------------------------------------------------------------------------
  // Ordered maps
  // -------------------------------------------------------------------------------------------

  predicate Sorted(m: seq<Entry>) {
    forall i, j :: 0 <= i < j < |m| ==> Below(m[i].key, m[j].key)
  }

  /** `BTreeMap::insert`: an equal key has its value replaced. */
  function Insert(m: seq<Entry>, e: Entry): (r: seq<Entry>)
    ensures |m| <= |r| <= |m| + 1
  {
    if m == [] then [e]
    else match Compare(e.key, m[0].key)
      case Less => [e] + m
      case Equal => [e] + m[1..]
      case Greater => [m[0]] + Insert(m[1..], e)
  }

  /** Collecting entries into a map, in the order they were read. */
  function Collect(m: seq<Entry>, es: seq<Entry>): seq<Entry>
    decreases |es|
  {
    if es == [] then m else Collect(Insert(m, es[0]), es[1..])
  }

  predicate Holds(m: seq<Entry>, p: Entry -> bool) {
    forall i :: 0 <= i < |m| ==> p(m[i])
  }

  lemma {:induction false} InsertHolds(m: seq<Entry>, e: Entry, p: Entry -> bool)
    requires Holds(m, p) && p(e)
    ensures Holds(Insert(m, e), p)
  {
    if m == [] {
    } else {
      InsertHolds(m[1..], e, p);
    }
  }

  lemma {:induction false} InsertSorted(m: seq<Entry>, e: Entry)
    requires Sorted(m)
    ensures Sorted(Insert(m, e))
  {
    if m == [] {
    } else {
      CompareEqual(e.key, m[0].key);
      CompareFlips(e.key, m[0].key);
      match Compare(e.key, m[0].key)
      case Less =>
        forall j | 0 <= j < |m| ensures Below(e.key, m[j].key) {
          if j > 0 { BelowTransitive(e.key, m[0].key, m[j].key); }
        }
      case Equal =>
      case Greater =>
        InsertSorted(m[1..], e);
        var p := (x: Entry) => Below(m[0].key, x.key);
        InsertHolds(m[1..], e, p);
        var r := Insert(m[1..], e);
        assert forall j :: 0 <= j < |r| ==> p(r[j]);
    }
  }

  lemma {:induction false} CollectSorted(m: seq<Entry>, es: seq<Entry>)
    requires Sorted(m)
    ensures Sorted(Collect(m, es))
    decreases |es|
  {
    if es == [] {
    } else {
      InsertSorted(m, es[0]);
      CollectSorted(Insert(m, es[0]), es[1..]);
    }
  }

  lemma {:induction false} CollectHolds(m: seq<Entry>, es: seq<Entry>, p: Entry -> bool)
    requires Holds(m, p) && Holds(es, p)
    ensures Holds(Collect(m, es), p)
    ensures |Collect(m, es)| <= |m| + |es|
    decreases |es|
  {
    if es == [] {
    } else {
      InsertHolds(m, es[0], p);
      CollectHolds(Insert(m, es[0]), es[1..], p);
    }
  }

  lemma {:induction false} InsertLast(m: seq<Entry>, e: Entry)
    requires forall i :: 0 <= i < |m| ==> Below(m[i].key, e.key)
    ensures Insert(m, e) == m + [e]
  {
    if m == [] {
    } else {
      CompareFlips(m[0].key, e.key);
      InsertLast(m[1..], e);
    }
  }

  /** Collecting the entries of a map in key order rebuilds the map. */
  lemma {:induction false} CollectInOrder(m: seq<Entry>, es: seq<Entry>)
    requires Sorted(m + es)
    ensures Collect(m, es) == m + es
    decreases |es|
  {
    if es != [] {
      var all := m + es;
      forall i | 0 <= i < |m| ensures Below(m[i].key, es[0].key) {
        assert all[i] == m[i] && all[|m|] == es[0];
      }
      InsertLast(m, es[0]);
      assert m + [es[0]] + es[1..] == m + es;
      CollectInOrder(m + [es[0]], es[1..]);
    } else {
      assert m + es == m;
    }
  }

  /** What a list of entries holds under a key: the value of the first entry with that key. */
  function ValueAt(m: seq<Entry>, key: Any): Option<Any> {
    if m == [] then None
    else if m[0].key == key then Some(m[0].val)
    else ValueAt(m[1..], key)
  }

  /** The value of the last entry with a key. */
  function LastOf(es: seq<Entry>, key: Any): Option<Any> {
    if es == [] then None
    else if es[|es| - 1].key == key then Some(es[|es| - 1].val)
    else LastOf(es[..|es| - 1], key)
  }

  lemma {:induction false} LastOfUnfolded(es: seq<Entry>, key: Any)
    requires es != []
    ensures LastOf(es, key) ==
              if LastOf(es[1..], key).Some? then LastOf(es[1..], key)
              else if es[0].key == key then Some(es[0].val)
              else None
  {
    if |es| == 1 {
      assert es[..0] == [];
    } else {
      var front := es[..|es| - 1];
      assert es[1..][..|es| - 2] == front[1..];
      LastOfUnfolded(front, key);
    }
  }

  /** An insertion changes what is held under the inserted key, to the inserted value, and nothing else. */
  lemma {:induction false} InsertAt(m: seq<Entry>, e: Entry, key: Any)
    ensures ValueAt(Insert(m, e), key) == if key == e.key then Some(e.val) else ValueAt(m, key)
  {
    hide Compare;
    if m == [] {
    } else {
      CompareEqual(e.key, m[0].key);
      InsertAt(m[1..], e, key);
      assert ([e] + m)[1..] == m;
    }
  }

  lemma {:induction false} CollectAt(m: seq<Entry>, es: seq<Entry>, key: Any)
    ensures ValueAt(Collect(m, es), key) == if LastOf(es, key).Some? then LastOf(es, key) else ValueAt(m, key)
    decreases |es|
  {
    hide Insert;
    if es == [] {
    } else {
      LastOfUnfolded(es, key);
      InsertAt(m, es[0], key);
      CollectAt(Insert(m, es[0]), es[1..], key);
    }
  }

  lemma {:induction false} HeldAt(m: seq<Entry>, key: Any) returns (i: nat)
    requires ValueAt(m, key).Some?
    ensures i < |m| && m[i] == Entry(key, ValueAt(m, key).value)
  {
    if m[0].key == key {
      return 0;
    }
    i := HeldAt(m[1..], key);
    i := i + 1;
  }

  /** Two ordered maps that hold the same under every key are the same list of entries. */
  lemma {:induction false} SameLookups(m: seq<Entry>, n: seq<Entry>)
    requires Sorted(m) && Sorted(n)
    requires forall key :: ValueAt(m, key) == ValueAt(n, key)
    ensures m == n
  {
    if m == [] || n == [] {
      var key := if m != [] then m[0].key else if n != [] then n[0].key else Null;
      assert ValueAt(m, key) == ValueAt(n, key);
    } else {
      SameFirst(m, n);
      forall key ensures ValueAt(m[1..], key) == ValueAt(n[1..], key) {
        OnlyFirst(m);
        OnlyFirst(n);
        assert ValueAt(m, key) == ValueAt(n, key);
      }
      SameLookups(m[1..], n[1..]);
      assert m == [m[0]] + m[1..] && n == [n[0]] + n[1..];
    }
  }

  lemma OnlyFirst(m: seq<Entry>)
    requires Sorted(m) && m != []
    ensures ValueAt(m[1..], m[0].key).None?
  {
    if ValueAt(m[1..], m[0].key).Some? {
      var i := HeldAt(m[1..], m[0].key);
      assert Below(m[0].key, m[i + 1].key);
      CompareEqual(m[0].key, m[0].key);
    }
  }

  lemma SameFirst(m: seq<Entry>, n: seq<Entry>)
    requires Sorted(m) && Sorted(n) && m != [] && n != []
    requires forall key :: ValueAt(m, key) == ValueAt(n, key)
    ensures m[0] == n[0]
  {
    assert ValueAt(m, m[0].key) == Some(m[0].val);
    assert ValueAt(n, n[0].key) == Some(n[0].val);
    var i := HeldAt(n, m[0].key);
    var j := HeldAt(m, n[0].key);
    if i > 0 && j > 0 {
      CompareFlips(m[0].key, n[0].key);
    }
  }

  /** Under every key, the map holds the value of the last entry with that key, or nothing if there is none. */
  ghost predicate HoldsLast(m: seq<Entry>, es: seq<Entry>) {
    forall key :: ValueAt(m, key) == LastOf(es, key)
  }

  /** The map collected from a list holds the last value of each key, and is the only ordered map that does. */
  lemma CollectedIsLast(es: seq<Entry>, m: seq<Entry>)
    requires Sorted(m)
    ensures HoldsLast(m, es) <==> m == Collect([], es)
  {
    hide Collect, Compare, LastOf;
    var c := Collect([], es);
    forall key ensures ValueAt(c, key) == LastOf(es, key) {
      CollectAt([], es, key);
      assert ValueAt([], key) == None;
    }
    assert HoldsLast(c, es);
    CollectSorted([], es);
    if HoldsLast(m, es) {
      SameLookups(m, c);
    }
  }

  // -------------------------------------------------------------------------------------------
  // Codec
  // -------------------------------------------------------------------------------------------

  /** The values the Rust type can hold. */
  predicate Valid(v: Any)
    decreases v
  {
    match v
    case Bool(_) => true
    case Int(i) => IsInt(i, TWO_63)
    case Text(t) => ValidText(t)
    case Blob(b) => |b| < TWO_64
    case Array(items) => |items| < TWO_64 && forall i :: 0 <= i < |items| ==> Valid(items[i])
    case Map(entries) =>
      && |entries| < TWO_64
      && Sorted(entries)
      && forall i :: 0 <= i < |entries| ==> Valid(entries[i].key) && Valid(entries[i].val)
    case Tagged(t, inner) => t < TWO_64 && Valid(inner)
    case Null => true
  }

  predicate AllValid(items: seq<Any>) {
    forall i :: 0 <= i < |items| ==> Valid(items[i])
  }

  predicate EntriesValid(entries: seq<Entry>) {
    forall i :: 0 <= i < |entries| ==> Valid(entries[i].key) && Valid(entries[i].val)
  }

  function Encode(v: Any): (b: Bytes)
    requires Valid(v)
    ensures b != [] && b[0] != BREAK_BYTE
    decreases v
  {
    match v
    case Bool(x) => [if x then TRUE_BYTE else FALSE_BYTE]
    case Int(i) => EncodeInt(i)
    case Text(t) => EncodeString(TEXT, t)
    case Blob(x) => EncodeString(BYTES, x)
    case Array(items) => HeadBytes(ARRAY, |items|) + EncodeItems(items)
    case Map(entries) => HeadBytes(MAP, |entries|) + EncodeEntries(entries)
    case Tagged(t, inner) => HeadBytes(TAG, t) + Encode(inner)
    case Null => [NULL_BYTE]
  }

  function EncodeItems(items: seq<Any>): Bytes
    requires AllValid(items)
    decreases items
  {
    if items == [] then [] else Encode(items[0]) + EncodeItems(items[1..])
  }

  function EncodeEntries(entries: seq<Entry>): Bytes
    requires EntriesValid(entries)
    decreases entries
  {
    if entries == [] then [] else EncodeEntry(entries[0]) + EncodeEntries(entries[1..])
  }

  function EncodeEntry(e: Entry): Bytes
    requires Valid(e.key) && Valid(e.val)
    decreases e
  {
    Encode(e.key) + Encode(e.val)
  }

  /** An item without children. */
  function DecodeSimple(b: Bytes): (r: Option<(Any, Bytes)>)
    requires b != []
    ensures r.Some? ==> IsSuffix(r.value.1, b) && |r.value.1| < |b|
  {
    hide ReadInt, ReadString, ReadText, ValidText, IsSuffix;
    TailIsSuffix(b);
    var major := b[0] / 32;
    if b[0] == TRUE_BYTE then Some((Bool(true), b[1..]))
    else if b[0] == FALSE_BYTE then Some((Bool(false), b[1..]))
    else if b[0] == NULL_BYTE then Some((Null, b[1..]))
    else if major == UNSIGNED || major == NEGATIVE then
      var (i, rest) :- ReadInt(b, TWO_63);
      Some((Int(i), rest))
    else if major == BYTES then
      var (x, rest) :- ReadString(b, BYTES);
      Some((Blob(x), rest))
    else if major == TEXT then
      var (t, rest) :- ReadText(b);
      Some((Text(t), rest))
    else None
  }

  function Decode(b: Bytes): (r: Option<(Any, Bytes)>)
    ensures r.Some? ==> IsSuffix(r.value.1, b) && |r.value.1| < |b|
    decreases |b|, 0
  {
    if b == [] then None
    else if b[0] / 32 == ARRAY then
      var (len, inside) :- ReadContainer(b, ARRAY);
      var (items, rest) :- DecodeItems(inside, len);
      SuffixTransitive(rest, inside, b);
      Some((Array(items), rest))
    else if b[0] / 32 == MAP then
      var (len, inside) :- ReadContainer(b, MAP);
      var (entries, rest) :- DecodeEntries(inside, len);
      SuffixTransitive(rest, inside, b);
      Some((Map(Collect([], entries)), rest))
    else if b[0] / 32 == TAG then
      var (t, inside) :- ReadTag(b);
      var (inner, rest) :- Decode(inside);
      SuffixTransitive(rest, inside, b);
      Some((Tagged(t, inner), rest))
    else DecodeSimple(b)
  }

  /** The items of an array of known length, or up to a break. */
  function DecodeItems(b: Bytes, len: Option<nat>): (r: Option<(seq<Any>, Bytes)>)
    ensures r.Some? ==> IsSuffix(r.value.1, b)
    ensures r.Some? ==> if len.Some? then |r.value.0| == len.value else |r.value.0| < |b|
    decreases |b|, 1
  {
    if len == Some(0) then Some(([], b))
    else if len.None? && b != [] && b[0] == BREAK_BYTE then Some(([], b[1..]))
    else
      var (item, more) :- Decode(b);
      var (items, rest) :- DecodeItems(more, if len.Some? then Some(len.value - 1) else None);
      SuffixTransitive(rest, more, b);
      Some(([item] + items, rest))
  }

  /** The entries of a map of known length, or up to a break, in wire order. */
  function DecodeEntries(b: Bytes, len: Option<nat>): (r: Option<(seq<Entry>, Bytes)>)
    ensures r.Some? ==> IsSuffix(r.value.1, b)
    ensures r.Some? ==> if len.Some? then |r.value.0| == len.value else |r.value.0| < |b|
    decreases |b|, 2
  {
    if len == Some(0) then Some(([], b))
    else if len.None? && b != [] && b[0] == BREAK_BYTE then Some(([], b[1..]))
    else
      var (entry, more) :- DecodeEntry(b);
      var (entries, rest) :- DecodeEntries(more, if len.Some? then Some(len.value - 1) else None);
      SuffixTransitive(rest, more, b);
      Some(([entry] + entries, rest))
  }

  function DecodeEntry(b: Bytes): (r: Option<(Entry, Bytes)>)
    ensures r.Some? ==> IsSuffix(r.value.1, b) && |r.value.1| < |b|
    decreases |b|, 1
  {
    var (key, mid) :- Decode(b);
    var (val, rest) :- Decode(mid);
    SuffixTransitive(rest, mid, b);
    Some((Entry(key, val), rest))
  }

  // -------------------------------------------------------------------------------------------
  // Round trip
  // -------------------------------------------------------------------------------------------

  /** Decoding an encoded value gives the value and leaves every following byte in place. */
  lemma {:induction false} RoundTrip(v: Any, s: Bytes)
    requires Valid(v)
    ensures Decode(Encode(v) + s) == Some((v, s))
    decreases v, 2
  {
    hide Decode, Compare;
    match v
    case Array(items) => ArrayRoundTrip(items, s);
    case Map(entries) => MapRoundTrip(entries, s);
    case Tagged(t, inner) => TaggedRoundTrip(t, inner, s);
    case _ => LeafRoundTrip(v, s);
  }

  /** How the decoder treats an item without children. */
  lemma DecodeLeaf(b: Bytes)
    requires b != []
    ensures b[0] == TRUE_BYTE ==> Decode(b) == Some((Bool(true), b[1..]))
    ensures b[0] == FALSE_BYTE ==> Decode(b) == Some((Bool(false), b[1..]))
    ensures b[0] == NULL_BYTE ==> Decode(b) == Some((Null, b[1..]))
    ensures b[0] / 32 == UNSIGNED || b[0] / 32 == NEGATIVE ==>
              Decode(b) == match ReadInt(b, TWO_63)
                           case None => None
                           case Some((i, rest)) => Some((Int(i), rest))
    ensures b[0] / 32 == BYTES ==>
              Decode(b) == match ReadString(b, BYTES)
                           case None => None
                           case Some((x, rest)) => Some((Blob(x), rest))
    ensures b[0] / 32 == TEXT ==>
              Decode(b) == match ReadText(b)
                           case None => None
                           case Some((t, rest)) => Some((Text(t), rest))
  {
    hide DecodeItems, DecodeEntries, Collect, Compare;
  }

  lemma LeafRoundTrip(v: Any, s: Bytes)
    requires Valid(v) && !v.Array? && !v.Map? && !v.Tagged?
    ensures Decode(Encode(v) + s) == Some((v, s))
  {
    hide Decode, ReadInt, ReadString, ReadText, HeadBytes;
    var b := Encode(v) + s;
    DecodeLeaf(b);
    match v
    case Int(i) => IntRoundTrip(i, TWO_63, s);
    case Text(t) =>
      StringRoundTrip(TEXT, t, s);
      assert b[0] == HeadBytes(TEXT, |t|)[0];
    case Blob(x) =>
      StringRoundTrip(BYTES, x, s);
      assert b[0] == HeadBytes(BYTES, |x|)[0];
    case Bool(_) => assert b[1..] == s;
    case Null => assert b[1..] == s;
    case _ =>
  }

  /** How the decoder goes on after the head of an item with children. */
  lemma DecodeNested(b: Bytes)
    requires b != []
    ensures b[0] / 32 == ARRAY ==>
              Decode(b) == match ReadContainer(b, ARRAY)
                           case None => None
                           case Some((len, inside)) =>
                             match DecodeItems(inside, len)
                             case None => None
                             case Some((items, rest)) => Some((Array(items), rest))
    ensures b[0] / 32 == MAP ==>
              Decode(b) == match ReadContainer(b, MAP)
                           case None => None
                           case Some((len, inside)) =>
                             match DecodeEntries(inside, len)
                             case None => None
                             case Some((entries, rest)) => Some((Map(Collect([], entries)), rest))
    ensures b[0] / 32 == TAG ==>
              Decode(b) == match ReadTag(b)
                           case None => None
                           case Some((t, inside)) =>
                             match Decode(inside)
                             case None => None
                             case Some((inner, rest)) => Some((Tagged(t, inner), rest))
  {
    hide DecodeItems, DecodeEntries, Collect, Compare;
  }

  lemma {:induction false} TaggedRoundTrip(t: nat, inner: Any, s: Bytes)
    requires t < TWO_64 && Valid(inner)
    ensures Decode(HeadBytes(TAG, t) + Encode(inner) + s) == Some((Tagged(t, inner), s))
    decreases inner, 3
  {
    hide Decode, Encode, Valid;
    Assoc(HeadBytes(TAG, t), Encode(inner), s);
    HeadRoundTrip(TAG, t, Encode(inner) + s);
    RoundTrip(inner, s);
    DecodeNested(HeadBytes(TAG, t) + (Encode(inner) + s));
  }

  lemma {:induction false} ArrayRoundTrip(items: seq<Any>, s: Bytes)
    requires |items| < TWO_64 && AllValid(items)
    ensures Decode(HeadBytes(ARRAY, |items|) + EncodeItems(items) + s) == Some((Array(items), s))
    decreases items, 1
  {
    hide Decode, Encode, Valid, DecodeItems, EncodeItems;
    Assoc(HeadBytes(ARRAY, |items|), EncodeItems(items), s);
    HeadRoundTrip(ARRAY, |items|, EncodeItems(items) + s);
    ItemsRoundTrip(items, s);
    DecodeNested(HeadBytes(ARRAY, |items|) + (EncodeItems(items) + s));
  }

  lemma {:induction false} MapRoundTrip(entries: seq<Entry>, s: Bytes)
    requires |entries| < TWO_64 && EntriesValid(entries) && Sorted(entries)
    ensures Decode(HeadBytes(MAP, |entries|) + EncodeEntries(entries) + s) == Some((Map(entries), s))
    decreases entries, 1
  {
    hide Decode, Encode, Valid, DecodeEntries, EncodeEntries, Compare;
    Assoc(HeadBytes(MAP, |entries|), EncodeEntries(entries), s);
    HeadRoundTrip(MAP, |entries|, EncodeEntries(entries) + s);
    EntriesRoundTrip(entries, s);
    CollectInOrder([], entries);
    assert [] + entries == entries;
    DecodeNested(HeadBytes(MAP, |entries|) + (EncodeEntries(entries) + s));
  }

  lemma {:induction false} ItemsRoundTrip(items: seq<Any>, s: Bytes)
    requires AllValid(items)
    ensures DecodeItems(EncodeItems(items) + s, Some(|items|)) == Some((items, s))
    decreases items, 0
  {
    hide Decode, Encode, Compare;
    if items == [] {
      assert EncodeItems(items) + s == s;
    } else {
      var more := EncodeItems(items[1..]) + s;
      Assoc(Encode(items[0]), EncodeItems(items[1..]), s);
      RoundTrip(items[0], more);
      ItemsRoundTrip(items[1..], s);
      assert [items[0]] + items[1..] == items;
    }
  }

  lemma {:induction false} EntriesRoundTrip(entries: seq<Entry>, s: Bytes)
    requires EntriesValid(entries)
    ensures DecodeEntries(EncodeEntries(entries) + s, Some(|entries|)) == Some((entries, s))
    decreases entries, 0
  {
    hide Decode, Encode, Compare;
    if entries == [] {
      assert EncodeEntries(entries) + s == s;
    } else {
      var more := EncodeEntries(entries[1..]) + s;
      var mid := Encode(entries[0].val) + more;
      Assoc(Encode(entries[0].key), Encode(entries[0].val), more);
      Assoc(EncodeEntry(entries[0]), EncodeEntries(entries[1..]), s);
      assert entries[0].key < entries[0] && entries[0].val < entries[0];
      RoundTrip(entries[0].key, mid);
      RoundTrip(entries[0].val, more);
      EntriesRoundTrip(entries[1..], s);
      assert [entries[0]] + entries[1..] == entries;
    }
  }

  /** No encoding is a prefix of another one followed by anything, unless the values are equal. */
  lemma PrefixFree(v: Any, w: Any, s: Bytes, t: Bytes)
    requires Valid(v) && Valid(w)
    requires Encode(v) + s == Encode(w) + t
    ensures v == w && s == t
  {
    RoundTrip(v, s);
    RoundTrip(w, t);
  }

  // -------------------------------------------------------------------------------------------
  // What the decoder accepts
  // -------------------------------------------------------------------------------------------

  /** Whatever bytes are accepted, the decoded value is one the type can hold. */
  lemma {:induction false} DecodeValid(b: Bytes)
    requires |b| < TWO_64
    ensures Decode(b).Some? ==> Valid(Decode(b).value.0)
    decreases |b|, 0
  {
    if b != [] && Decode(b).Some? {
      var major := b[0] / 32;
      if b[0] != TRUE_BYTE && b[0] != FALSE_BYTE && b[0] != NULL_BYTE {
        if major == ARRAY {
          var (len, inside) := ReadContainer(b, ARRAY).value;
          DecodeItemsValid(inside, len);
        } else if major == MAP {
          var (len, inside) := ReadContainer(b, MAP).value;
          DecodeEntriesValid(inside, len);
          var es := DecodeEntries(inside, len).value.0;
          CollectSorted([], es);
          CollectHolds([], es, (e: Entry) => Valid(e.key) && Valid(e.val));
        } else if major == TAG {
          DecodeValid(ReadTag(b).value.1);
        }
      }
    }
  }

  lemma {:induction false} DecodeItemsValid(b: Bytes, len: Option<nat>)
    requires |b| < TWO_64
    ensures DecodeItems(b, len).Some? ==> AllValid(DecodeItems(b, len).value.0)
    decreases |b|, 1
  {
    hide Decode, Valid;
    if DecodeItems(b, len).Some? && len != Some(0) && !(len.None? && b != [] && b[0] == BREAK_BYTE) {
      DecodeValid(b);
      var more := Decode(b).value.1;
      DecodeItemsValid(more, if len.Some? then Some(len.value - 1) else None);
    }
  }

  lemma {:induction false} DecodeEntryValid(b: Bytes)
    requires |b| < TWO_64
    ensures DecodeEntry(b).Some? ==> Valid(DecodeEntry(b).value.0.key) && Valid(DecodeEntry(b).value.0.val)
    decreases |b|, 1
  {
    hide Decode, Valid;
    if DecodeEntry(b).Some? {
      DecodeValid(b);
      DecodeValid(Decode(b).value.1);
    }
  }

  lemma {:induction false} DecodeEntriesValid(b: Bytes, len: Option<nat>)
    requires |b| < TWO_64
    ensures DecodeEntries(b, len).Some? ==> EntriesValid(DecodeEntries(b, len).value.0)
    decreases |b|, 2
  {
    hide Decode, DecodeEntry, Valid;
    if DecodeEntries(b, len).Some? && len != Some(0) && !(len.None? && b != [] && b[0] == BREAK_BYTE) {
      DecodeEntryValid(b);
      var more := DecodeEntry(b).value.1;
      DecodeEntriesValid(more, if len.Some? then Some(len.value - 1) else None);
    }
  }

  /**
   * Whatever way a value was written (long heads, indefinite lengths, map keys out of order or
   * repeated), writing the decoded value again produces an encoding of the same value.
   */
  lemma Reencode(b: Bytes)
    requires |b| < TWO_64
    ensures Decode(b).Some? ==>
              var (v, rest) := Decode(b).value;
              Valid(v) && Decode(Encode(v) + rest) == Some((v, rest))
  {
    DecodeValid(b);
    if Decode(b).Some? {
      RoundTrip(Decode(b).value.0, Decode(b).value.1);
    }
  }

  // -------------------------------------------------------------------------------------------
  // Writing to the buffer, reading through the cursor
  // -------------------------------------------------------------------------------------------

  method EncodeInto(e: Encoder, v: Any)
    requires Valid(v)
    modifies e
    ensures e.buf == old(e.buf) + Encode(v)
    decreases v
  {
    match v {
      case Bool(x) => e.Raw([if x then TRUE_BYTE else FALSE_BYTE]);
      case Int(i) => e.Int(i);
      case Text(t) => e.Str(TEXT, t);
      case Blob(x) => e.Str(BYTES, x);
      case Array(items) =>
        e.Head(ARRAY, |items|);
        WriteItems(e, items);
        Assoc(old(e.buf), HeadBytes(ARRAY, |items|), EncodeItems(items));
      case Map(entries) =>
        e.Head(MAP, |entries|);
        WriteEntries(e, entries);
        Assoc(old(e.buf), HeadBytes(MAP, |entries|), EncodeEntries(entries));
      case Tagged(t, inner) =>
        e.Head(TAG, t);
        EncodeInto(e, inner);
        Assoc(old(e.buf), HeadBytes(TAG, t), Encode(inner));
      case Null => e.Raw([NULL_BYTE]);
    }
  }

  method WriteItems(e: Encoder, items: seq<Any>)
    requires AllValid(items)
    modifies e
    ensures e.buf == old(e.buf) + EncodeItems(items)
    decreases items
  {
    for i := 0 to |items|
      invariant e.buf + EncodeItems(items[i..]) == old(e.buf) + EncodeItems(items)
    {
      ghost var before := e.buf;
      EncodeInto(e, items[i]);
      assert items[i..][1..] == items[i + 1..];
      Assoc(before, Encode(items[i]), EncodeItems(items[i + 1..]));
    }
  }

  method WriteEntry(e: Encoder, entry: Entry)
    requires Valid(entry.key) && Valid(entry.val)
    modifies e
    ensures e.buf == old(e.buf) + EncodeEntry(entry)
    decreases entry
  {
    EncodeInto(e, entry.key);
    EncodeInto(e, entry.val);
    Assoc(old(e.buf), Encode(entry.key), Encode(entry.val));
  }

  method WriteEntries(e: Encoder, entries: seq<Entry>)
    requires EntriesValid(entries)
    modifies e
    ensures e.buf == old(e.buf) + EncodeEntries(entries)
    decreases entries
  {
    for i := 0 to |entries|
      invariant e.buf + EncodeEntries(entries[i..]) == old(e.buf) + EncodeEntries(entries)
    {
      ghost var before := e.buf;
      WriteEntry(e, entries[i]);
      assert entries[i..][1..] == entries[i + 1..];
      Assoc(before, EncodeEntry(entries[i]), EncodeEntries(entries[i + 1..]));
    }
  }

  /** What remains to be read after `acc` was already collected. */
  function Prepend<T>(acc: seq<T>, r: Option<(seq<T>, Bytes)>): Option<(seq<T>, Bytes)> {
    match r
    case None => None
    case Some((xs, rest)) => Some((acc + xs, rest))
  }

  lemma {:induction false} CollectLast(m: seq<Entry>, es: seq<Entry>, e: Entry)
    ensures Collect(m, es + [e]) == Insert(Collect(m, es), e)
    decreases |es|
  {
    if es == [] {
      assert es + [e] == [e];
      assert Collect(Insert(m, e), [e][1..]) == Insert(m, e);
    } else {
      assert (es + [e])[1..] == es[1..] + [e];
      CollectLast(Insert(m, es[0]), es[1..], e);
    }
  }

  method DecodeFrom(d: Decoder) returns (r: Option<Any>)
    modifies d
    ensures ReadAs(Decode(old(d.rest)), r, d.rest)
    decreases |d.rest|, 0
  {
    if d.rest == [] {
      return None;
    }
    var first := d.rest[0];
    var major := first / 32;
    if first == TRUE_BYTE || first == FALSE_BYTE {
      d.Skip();
      r := Some(Bool(first == TRUE_BYTE));
    } else if first == NULL_BYTE {
      d.Skip();
      r := Some(Null);
    } else if major == UNSIGNED || major == NEGATIVE {
      var i := d.Int(TWO_63);
      r := if i.Some? then Some(Any.Int(i.value)) else None;
    } else if major == BYTES {
      var x := d.Str(BYTES);
      r := if x.Some? then Some(Blob(x.value)) else None;
    } else if major == TEXT {
      var t := d.Text();
      r := if t.Some? then Some(Any.Text(t.value)) else None;
    } else if major == ARRAY {
      var len := d.Container(ARRAY);
      if len.None? { return None; }
      var items := CollectItems(d, len.value);
      r := if items.Some? then Some(Array(items.value)) else None;
    } else if major == MAP {
      var len := d.Container(MAP);
      if len.None? { return None; }
      var entries := CollectEntries(d, len.value);
      r := if entries.Some? then Some(Map(entries.value)) else None;
    } else if major == TAG {
      var t := d.Tag();
      if t.None? { return None; }
      var inner := DecodeFrom(d);
      r := if inner.Some? then Some(Tagged(t.value, inner.value)) else None;
    } else {
      r := None;
    }
  }

  /** One more item read moves it from what remains to what was collected. */
  lemma ItemsStep(acc: seq<Any>, b: Bytes, len: Option<nat>)
    requires len != Some(0) && !(len.None? && b != [] && b[0] == BREAK_BYTE)
    ensures match Decode(b)
            case None => DecodeItems(b, len) == None
            case Some((item, more)) =>
              var left := if len.Some? then Some(len.value - 1) else None;
              Prepend(acc, DecodeItems(b, len)) == Prepend(acc + [item], DecodeItems(more, left))
  {
    hide Decode, Valid, Compare;
    if Decode(b).Some? {
      var (item, more) := Decode(b).value;
      var tail := DecodeItems(more, if len.Some? then Some(len.value - 1) else None);
      if tail.Some? {
        assert acc + ([item] + tail.value.0) == acc + [item] + tail.value.0;
      }
    }
  }

  lemma EntriesStep(acc: seq<Entry>, b: Bytes, len: Option<nat>)
    requires len != Some(0) && !(len.None? && b != [] && b[0] == BREAK_BYTE)
    ensures match DecodeEntry(b)
            case None => DecodeEntries(b, len) == None
            case Some((entry, more)) =>
              var left := if len.Some? then Some(len.value - 1) else None;
              Prepend(acc, DecodeEntries(b, len)) == Prepend(acc + [entry], DecodeEntries(more, left))
  {
    hide DecodeEntry, Valid, Compare;
    if DecodeEntry(b).Some? {
      var (entry, more) := DecodeEntry(b).value;
      var tail := DecodeEntries(more, if len.Some? then Some(len.value - 1) else None);
      if tail.Some? {
        assert acc + ([entry] + tail.value.0) == acc + [entry] + tail.value.0;
      }
    }
  }

  method CollectItems(d: Decoder, len: Option<nat>) returns (r: Option<seq<Any>>)
    modifies d
    ensures ReadAs(DecodeItems(old(d.rest), len), r, d.rest)
    decreases |d.rest|, 1
  {
    hide Decode, Valid, Compare;
    var acc: seq<Any>, left := [], len;
    ghost var all := DecodeItems(d.rest, len);
    assert all.Some? ==> [] + all.value.0 == all.value.0;
    while left != Some(0) && !(left.None? && d.rest != [] && d.rest[0] == BREAK_BYTE)
      invariant |d.rest| <= |old(d.rest)|
      invariant DecodeItems(old(d.rest), len) == Prepend(acc, DecodeItems(d.rest, left))
      decreases |d.rest|
    {
      ItemsStep(acc, d.rest, left);
      var item := DecodeFrom(d);
      if item.None? { return None; }
      left := if left.Some? then Some(left.value - 1) else None;
      acc := acc + [item.value];
    }
    if left.None? {
      d.Skip();
    }
    assert acc + [] == acc;
    r := Some(acc);
  }

  method ReadEntry(d: Decoder) returns (r: Option<Entry>)
    modifies d
    ensures ReadAs(DecodeEntry(old(d.rest)), r, d.rest)
    decreases |d.rest|, 1
  {
    var key := DecodeFrom(d);
    if key.None? { return None; }
    var val := DecodeFrom(d);
    if val.None? { return None; }
    r := Some(Entry(key.value, val.value));
  }

  method CollectEntries(d: Decoder, len: Option<nat>) returns (r: Option<seq<Entry>>)
    modifies d
    ensures match DecodeEntries(old(d.rest), len)
            case None => r == None
            case Some((es, rest)) => r == Some(Collect([], es)) && d.rest == rest && HoldsLast(r.value, es)
    decreases |d.rest|, 2
  {
    hide Decode, Valid, Compare, DecodeEntry;
    var m: seq<Entry>, left := [], len;
    ghost var acc: seq<Entry> := [];
    ghost var all := DecodeEntries(d.rest, len);
    assert all.Some? ==> [] + all.value.0 == all.value.0;
    while left != Some(0) && !(left.None? && d.rest != [] && d.rest[0] == BREAK_BYTE)
      invariant |d.rest| <= |old(d.rest)|
      invariant m == Collect([], acc)
      invariant DecodeEntries(old(d.rest), len) == Prepend(acc, DecodeEntries(d.rest, left))
      decreases |d.rest|
    {
      EntriesStep(acc, d.rest, left);
      var entry := ReadEntry(d);
      if entry.None? { return None; }
      left := if left.Some? then Some(left.value - 1) else None;
      CollectLast([], acc, entry.value);
      m, acc := Insert(m, entry.value), acc + [entry.value];
    }
    if left.None? {
      d.Skip();
    }
    assert acc + [] == acc;
    CollectSorted([], acc);
    CollectedIsLast(acc, m);
    r := Some(m);
  }
}
