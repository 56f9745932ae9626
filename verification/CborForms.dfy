/**
 * What the CBOR decoder makes of the wire forms that its own encoder never writes: long heads,
 * open-ended containers and map entries in any order; and what the derived order of values is,
 * said by the first place at which two values differ.
 */
module CborForms {
  import opened Wrappers
  import opened Bytes
  import opened Cbor
  import opened CborAny

  // -------------------------------------------------------------------------------------------
  // Wire forms
  // -------------------------------------------------------------------------------------------

  /** The additional information that announces an argument of `w` bytes. */
  function InfoOf(w: nat): (info: nat)
    requires w == 1 || w == 2 || w == 4 || w == 8
    ensures 24 <= info <= 27
  {
    match w
    case 1 => 24
    case 2 => 25
    case 4 => 26
    case _ => 27
  }

  /** A head is read whatever the width of its argument, shortest or not. */
  lemma AnyWidth(major: Major, n: U64, w: nat, s: Bytes)
    requires w == 1 || w == 2 || w == 4 || w == 8
    requires n < Pow256(w)
    ensures ReadHead([32 * major + InfoOf(w)] + (ToBe(n, w) + s)) == Some((Head(major, Some(n)), s))
  {
    hide ToBe, FromBe, Pow256;
    var first: byte := 32 * major + InfoOf(w);
    var b := [first] + (ToBe(n, w) + s);
    assert first / 32 == major && first % 32 == InfoOf(w);
    assert |ToBe(n, w)| == w;
    assert b[1..1 + w] == ToBe(n, w);
    assert b[1 + w..] == s;
    FromToBe(n, w);
  }

  /** The encodings of some values, one after the other. */
  function Joined(items: seq<Any>): Bytes
    requires AllValid(items)
  {
    if items == [] then []
    else Joined(items[..|items| - 1]) + Encode(items[|items| - 1])
  }

  lemma {:induction false} JoinedFirst(items: seq<Any>)
    requires AllValid(items) && items != []
    ensures Joined(items) == Encode(items[0]) + Joined(items[1..])
  {
    hide Encode, Valid;
    if |items| == 1 {
      assert items[..0] == [] && items[1..] == [];
      assert [] + Encode(items[0]) == Encode(items[0]) + [];
    } else {
      var front := items[..|items| - 1];
      JoinedFirst(front);
      assert front[1..] == items[1..][..|items| - 2];
      Assoc(Encode(items[0]), Joined(front[1..]), Encode(items[|items| - 1]));
    }
  }

  lemma {:induction false} ItemsAreJoined(items: seq<Any>)
    requires AllValid(items)
    ensures EncodeItems(items) == Joined(items)
  {
    hide Encode, Valid;
    if items == [] {
    } else {
      JoinedFirst(items);
      ItemsAreJoined(items[1..]);
    }
  }

  /** Keys and values in turn. */
  function Flattened(entries: seq<Entry>): seq<Any> {
    if entries == [] then [] else [entries[0].key, entries[0].val] + Flattened(entries[1..])
  }

  lemma {:induction false} EntriesAreJoined(entries: seq<Entry>)
    requires EntriesValid(entries)
    ensures AllValid(Flattened(entries)) && EncodeEntries(entries) == Joined(Flattened(entries))
  {
    hide Encode, Valid;
    if entries == [] {
    } else {
      EntriesAreJoined(entries[1..]);
      var all, k, v := Flattened(entries), entries[0].key, entries[0].val;
      assert all[0] == k && all[1] == v && all[2..] == Flattened(entries[1..]);
      assert all[1..][0] == v && all[1..][1..] == all[2..];
      JoinedFirst(all);
      JoinedFirst(all[1..]);
      Assoc(Encode(k), Encode(v), Joined(all[2..]));
    }
  }

  /**
   * The encoding of a value: the major type that section 3.1 of RFC 8949 gives its variant, its length
   * or number, and what it holds, the items of an array in order and the entries of a map in key order.
   */
  lemma ValueLayout(v: Any)
    requires Valid(v)
    ensures v.Int? ==> Encode(v) == if v.i >= 0 then HeadBytes(0, v.i) else HeadBytes(1, -1 - v.i)
    ensures v.Blob? ==> Encode(v) == HeadBytes(2, |v.bytes|) + v.bytes
    ensures v.Text? ==> Encode(v) == HeadBytes(3, |v.text|) + v.text
    ensures v.Array? ==> AllValid(v.items) && Encode(v) == HeadBytes(4, |v.items|) + Joined(v.items)
    ensures v.Map? ==>
              && AllValid(Flattened(v.entries))
              && Encode(v) == HeadBytes(5, |v.entries|) + Joined(Flattened(v.entries))
    ensures v.Tagged? ==> Valid(v.value) && Encode(v) == HeadBytes(6, v.tag) + Encode(v.value)
    ensures v.Bool? ==> Encode(v) == [if v.b then 0xF5 else 0xF4]
    ensures v.Null? ==> Encode(v) == [0xF6]
  {
    hide Joined, Flattened, EncodeItems, EncodeEntries, HeadBytes;
    match v
    case Array(items) => ItemsAreJoined(items);
    case Map(entries) => EntriesAreJoined(entries);
    case _ =>
  }

  /** An array closed by a break holds the items written before the break. */
  lemma OpenArray(items: seq<Any>, s: Bytes)
    requires AllValid(items)
    ensures Decode([0x9F] + (EncodeItems(items) + ([0xFF] + s))) == Some((Array(items), s))
  {
    hide Decode, DecodeItems, EncodeItems, Valid;
    var b := [0x9F] + (EncodeItems(items) + ([0xFF] + s));
    assert b[1..] == EncodeItems(items) + ([0xFF] + s);
    DecodeNested(b);
    ItemsToBreak(items, s);
  }

  lemma {:induction false} ItemsToBreak(items: seq<Any>, s: Bytes)
    requires AllValid(items)
    ensures DecodeItems(EncodeItems(items) + ([0xFF] + s), None) == Some((items, s))
  {
    hide Decode, Encode, Valid;
    if items == [] {
      assert EncodeItems(items) + ([0xFF] + s) == [0xFF] + s;
      assert ([0xFF] + s)[1..] == s;
    } else {
      var more := EncodeItems(items[1..]) + ([0xFF] + s);
      Assoc(Encode(items[0]), EncodeItems(items[1..]), [0xFF] + s);
      RoundTrip(items[0], more);
      ItemsToBreak(items[1..], s);
      assert [items[0]] + items[1..] == items;
    }
  }

  lemma {:induction false} EntriesToBreak(es: seq<Entry>, s: Bytes)
    requires EntriesValid(es)
    ensures DecodeEntries(EncodeEntries(es) + ([0xFF] + s), None) == Some((es, s))
  {
    hide Decode, Encode, Valid;
    if es == [] {
      assert EncodeEntries(es) + ([0xFF] + s) == [0xFF] + s;
      assert ([0xFF] + s)[1..] == s;
    } else {
      var more := EncodeEntries(es[1..]) + ([0xFF] + s);
      var mid := Encode(es[0].val) + more;
      Assoc(Encode(es[0].key), Encode(es[0].val), more);
      Assoc(EncodeEntry(es[0]), EncodeEntries(es[1..]), [0xFF] + s);
      RoundTrip(es[0].key, mid);
      RoundTrip(es[0].val, more);
      EntriesToBreak(es[1..], s);
      assert [es[0]] + es[1..] == es;
    }
  }

  /**
   * Entries written in any order, with keys repeated or not, counted or closed by a break, are
   * read as the one ordered map that holds the last value of each key.
   */
  lemma AnyEntries(es: seq<Entry>, m: seq<Entry>, s: Bytes)
    requires |es| < TWO_64 && EntriesValid(es)
    requires Sorted(m) && HoldsLast(m, es)
    ensures Decode(HeadBytes(MAP, |es|) + (EncodeEntries(es) + s)) == Some((Map(m), s))
    ensures Decode([0xBF] + (EncodeEntries(es) + ([0xFF] + s))) == Some((Map(m), s))
  {
    hide Decode, DecodeEntries, EncodeEntries, Valid, Compare, HoldsLast;
    CollectedIsLast(es, m);
    HeadRoundTrip(MAP, |es|, EncodeEntries(es) + s);
    EntriesRoundTrip(es, s);
    DecodeNested(HeadBytes(MAP, |es|) + (EncodeEntries(es) + s));
    var b := [0xBF] + (EncodeEntries(es) + ([0xFF] + s));
    assert b[1..] == EncodeEntries(es) + ([0xFF] + s);
    EntriesToBreak(es, s);
    DecodeNested(b);
  }

  /**
   * What the value type has no variant for is refused: no bytes, a break, `undefined`, every
   * float and simple value, open-ended strings, integers outside 64 bits and cut-off heads.
   */
  lemma Refused(b: Bytes)
    ensures b == [] ==> Decode(b).None?
    ensures b != [] && b[0] >= 0xE0 && b[0] != 0xF4 && b[0] != 0xF5 && b[0] != 0xF6 ==> Decode(b).None?
    ensures b != [] && (b[0] == 0x5F || b[0] == 0x7F || b[0] == 0x1F || b[0] == 0x3F || b[0] == 0xDF) ==>
              Decode(b).None?
    ensures b != [] && 28 <= b[0] % 32 <= 30 ==> Decode(b).None?
    ensures |b| >= 9 && (b[0] == 0x1B || b[0] == 0x3B) && FromBe(b[1..9]) >= TWO_63 ==> Decode(b).None?
  {
    hide DecodeItems, DecodeEntries, FromBe;
    if |b| >= 9 && (b[0] == 0x1B || b[0] == 0x3B) && FromBe(b[1..9]) >= TWO_63 {
      assert b[0] / 32 == UNSIGNED || b[0] / 32 == NEGATIVE;
      DecodeLeaf(b);
    }
  }

  // -------------------------------------------------------------------------------------------
  // The derived order
  // -------------------------------------------------------------------------------------------

  /** The first list ends, or has the lesser element, at the first place where the two differ. */
  ghost predicate ListBelow<A(!new)>(x: seq<A>, y: seq<A>, less: (A, A) -> bool) {
    exists k :: 0 <= k <= |x| && k < |y| && x[..k] == y[..k] && (k == |x| || less(x[k], y[k]))
  }

  lemma NothingBelow<A(!new)>(x: seq<A>, y: seq<A>, less: (A, A) -> bool)
    ensures x == [] ==> (ListBelow(x, y, less) <==> y != [])
    ensures y == [] ==> !ListBelow(x, y, less)
  {
    if x == [] && y != [] {
      assert x[..0] == y[..0];
    }
  }

  lemma BelowInTail<A(!new)>(x: seq<A>, y: seq<A>, less: (A, A) -> bool)
    requires x != [] && y != [] && ListBelow(x, y, less)
    ensures less(x[0], y[0]) || (x[0] == y[0] && ListBelow(x[1..], y[1..], less))
  {
    var k :| 0 <= k <= |x| && k < |y| && x[..k] == y[..k] && (k == |x| || less(x[k], y[k]));
    if k > 0 {
      assert x[..k][0] == y[..k][0];
      assert x[1..][..k - 1] == x[..k][1..] && y[1..][..k - 1] == y[..k][1..];
    }
  }

  lemma BelowFromTail<A(!new)>(x: seq<A>, y: seq<A>, less: (A, A) -> bool)
    requires x != [] && y != []
    requires less(x[0], y[0]) || (x[0] == y[0] && ListBelow(x[1..], y[1..], less))
    ensures ListBelow(x, y, less)
  {
    if less(x[0], y[0]) {
      assert x[..0] == y[..0];
    } else {
      var s, t := x[1..], y[1..];
      var k :| 0 <= k <= |s| && k < |t| && s[..k] == t[..k] && (k == |s| || less(s[k], t[k]));
      assert x[..k + 1] == [x[0]] + s[..k] && y[..k + 1] == [y[0]] + t[..k];
    }
  }

  lemma ListBelowUnfolded<A(!new)>(x: seq<A>, y: seq<A>, less: (A, A) -> bool)
    ensures x == [] ==> (ListBelow(x, y, less) <==> y != [])
    ensures y == [] ==> !ListBelow(x, y, less)
    ensures x != [] && y != [] ==>
              (ListBelow(x, y, less) <==>
                (less(x[0], y[0]) || (x[0] == y[0] && ListBelow(x[1..], y[1..], less))))
  {
    hide ListBelow;
    NothingBelow(x, y, less);
    if x != [] && y != [] {
      if ListBelow(x, y, less) {
        BelowInTail(x, y, less);
      } else if less(x[0], y[0]) || (x[0] == y[0] && ListBelow(x[1..], y[1..], less)) {
        BelowFromTail(x, y, less);
      }
    }
  }

  predicate ByteBelow(x: byte, y: byte) { x < y }

  lemma {:induction false} BytesByFirstDifference(x: Bytes, y: Bytes)
    ensures CompareBytes(x, y) == Less <==> ListBelow(x, y, ByteBelow)
  {
    ListBelowUnfolded(x, y, ByteBelow);
    if x == [] || y == [] {
    } else {
      BytesByFirstDifference(x[1..], y[1..]);
    }
  }

  lemma {:induction false} ItemsByFirstDifference(x: seq<Any>, y: seq<Any>)
    ensures CompareItems(x, y) == Less <==> ListBelow(x, y, Below)
  {
    hide Compare, ListBelow;
    forall a: Any ensures !Below(a, a) { CompareEqual(a, a); }
    ListBelowUnfolded(x, y, Below);
    if x == [] || y == [] {
    } else {
      CompareEqual(x[0], y[0]);
      ItemsByFirstDifference(x[1..], y[1..]);
    }
  }

  /** Entries are ordered by key, then by value. */
  predicate EntryBelow(x: Entry, y: Entry) {
    Below(x.key, y.key) || (x.key == y.key && Below(x.val, y.val))
  }

  lemma {:induction false} EntriesByFirstDifference(x: seq<Entry>, y: seq<Entry>)
    ensures CompareEntries(x, y) == Less <==> ListBelow(x, y, EntryBelow)
  {
    hide Compare, ListBelow;
    forall e: Entry ensures !EntryBelow(e, e) {
      CompareEqual(e.key, e.key);
      CompareEqual(e.val, e.val);
    }
    ListBelowUnfolded(x, y, EntryBelow);
    if x == [] || y == [] {
    } else {
      CompareEqual(x[0].key, y[0].key);
      CompareEqual(x[0].val, y[0].val);
      EntriesByFirstDifference(x[1..], y[1..]);
    }
  }

  /** Within one variant, values are ordered by their contents. */
  lemma OrderByContents(x: Any, y: Any)
    ensures x.Bool? && y.Bool? ==> (Below(x, y) <==> !x.b && y.b)
    ensures x.Int? && y.Int? ==> (Below(x, y) <==> x.i < y.i)
    ensures x.Text? && y.Text? ==> (Below(x, y) <==> ListBelow(x.text, y.text, ByteBelow))
    ensures x.Blob? && y.Blob? ==> (Below(x, y) <==> ListBelow(x.bytes, y.bytes, ByteBelow))
    ensures x.Array? && y.Array? ==> (Below(x, y) <==> ListBelow(x.items, y.items, Below))
    ensures x.Map? && y.Map? ==> (Below(x, y) <==> ListBelow(x.entries, y.entries, EntryBelow))
    ensures x.Tagged? && y.Tagged? ==>
              (Below(x, y) <==> x.tag < y.tag || (x.tag == y.tag && Below(x.value, y.value)))
  {
    hide ListBelow;
    match (x, y)
    case (Text(a), Text(b)) => BytesByFirstDifference(a, b);
    case (Blob(a), Blob(b)) => BytesByFirstDifference(a, b);
    case (Array(a), Array(b)) => ItemsByFirstDifference(a, b);
    case (Map(a), Map(b)) => EntriesByFirstDifference(a, b);
    case _ =>
  }

  /** Across variants, every value of an earlier one is below every value of a later one. */
  lemma OrderByVariant(x: Any, y: Any)
    ensures x.Bool? && !y.Bool? ==> Below(x, y)
    ensures x.Int? && (y.Text? || y.Blob? || y.Array? || y.Map? || y.Tagged? || y.Null?) ==> Below(x, y)
    ensures x.Text? && (y.Blob? || y.Array? || y.Map? || y.Tagged? || y.Null?) ==> Below(x, y)
    ensures x.Blob? && (y.Array? || y.Map? || y.Tagged? || y.Null?) ==> Below(x, y)
    ensures x.Array? && (y.Map? || y.Tagged? || y.Null?) ==> Below(x, y)
    ensures x.Map? && (y.Tagged? || y.Null?) ==> Below(x, y)
    ensures x.Tagged? && y.Null? ==> Below(x, y)
  {
  }
}
