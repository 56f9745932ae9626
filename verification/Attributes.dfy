/**
 * Attributes and attribute sets. A set orders its members by id alone, so an id appears once;
 * an attribute without arguments is written as its bare id.
 */
module Attributes {
  import opened Wrappers
  import opened Bytes
  import opened Cbor
  import opened CborAny
  import opened CborLoops

  datatype Attribute = Attribute(id: nat, arguments: seq<Any>)

  predicate ValidAttribute(a: Attribute) {
    a.id < TWO_32 && |a.arguments| < TWO_64 - 1 && AllValid(a.arguments)
  }

  /** A `BTreeSet` of attributes, in iteration order. */
  predicate ValidSet(s: seq<Attribute>) {
    && |s| < TWO_64
    && (forall i :: 0 <= i < |s| ==> ValidAttribute(s[i]))
    && (forall i, j :: 0 <= i < j < |s| ==> s[i].id < s[j].id)
  }

  function EncodeAttribute(a: Attribute): Bytes
    requires ValidAttribute(a)
  {
    if a.arguments == [] then EncodeUint(a.id)
    else HeadBytes(ARRAY, 1 + |a.arguments|) + EncodeUint(a.id) + EncodeItems(a.arguments)
  }

  method WriteAttribute(e: Encoder, a: Attribute)
    requires ValidAttribute(a)
    modifies e
    ensures e.buf == old(e.buf) + EncodeAttribute(a)
  {
    if a.arguments == [] {
      e.Head(UNSIGNED, a.id);
    } else {
      e.Head(ARRAY, 1 + |a.arguments|);
      e.Head(UNSIGNED, a.id);
      WriteItems(e, a.arguments);
      Assoc(old(e.buf), HeadBytes(ARRAY, 1 + |a.arguments|), EncodeUint(a.id));
      Assoc(old(e.buf), HeadBytes(ARRAY, 1 + |a.arguments|) + EncodeUint(a.id), EncodeItems(a.arguments));
    }
  }

  /** A first item that is an integer up to the largest 32-bit id, cut to 32 bits, is the id. */
  function DecodeAttribute(b: Bytes): (r: Option<(Attribute, Bytes)>)
    ensures r.Some? ==> |r.value.1| < |b|
  {
    if b == [] then None
    else if b[0] / 32 == ARRAY then
      var (len, inside) :- ReadContainer(b, ARRAY);
      var (items, rest) :- DecodeItems(inside, len);
      if items == [] || !items[0].Int? || items[0].i >= TWO_32 then None
      else Some((Attribute(items[0].i % TWO_32, items[1..]), rest))
    else
      var (id, rest) :- ReadUint(b, TWO_32);
      Some((Attribute(id, []), rest))
  }

  method ReadAttribute(d: Decoder) returns (r: Option<Attribute>)
    modifies d
    ensures ReadAs(DecodeAttribute(old(d.rest)), r, d.rest)
  {
    hide DecodeItems, ReadContainer, ReadUint;
    if d.rest == [] {
      return None;
    }
    if d.rest[0] / 32 != ARRAY {
      var id :- d.Uint(TWO_32);
      return Some(Attribute(id, []));
    }
    var len :- d.Container(ARRAY);
    var items :- CollectItems(d, if len.Some? then Some(len.value) else None);
    if items == [] || !items[0].Int? || items[0].i >= TWO_32 {
      return None;
    }
    return Some(Attribute(items[0].i % TWO_32, items[1..]));
  }

  lemma AttributeRoundTrip(a: Attribute, s: Bytes)
    requires ValidAttribute(a)
    ensures DecodeAttribute(EncodeAttribute(a) + s) == Some((a, s))
  {
    hide DecodeItems, EncodeItems, Encode, CborAny.Valid;
    if a.arguments == [] {
      UintRoundTrip(a.id, TWO_32, s);
    } else {
      var items := [Any.Int(a.id)] + a.arguments;
      IdIsFirstItem(a);
      var h := HeadBytes(ARRAY, |items|);
      Assoc(h, EncodeUint(a.id), EncodeItems(a.arguments));
      Assoc(h, EncodeItems(items), s);
      HeadRoundTrip(ARRAY, |items|, EncodeItems(items) + s);
      ItemsRoundTrip(items, s);
      assert items[1..] == a.arguments;
    }
  }

  lemma IdIsFirstItem(a: Attribute)
    requires ValidAttribute(a)
    ensures var items := [Any.Int(a.id)] + a.arguments;
            AllValid(items) && EncodeItems(items) == EncodeUint(a.id) + EncodeItems(a.arguments)
  {
    var items := [Any.Int(a.id)] + a.arguments;
    assert items[1..] == a.arguments;
  }

  // -------------------------------------------------------------------------------------------
  // Sets
  // -------------------------------------------------------------------------------------------

  /** `BTreeSet::insert`: a member with the same id stays. */
  function InsertAttribute(s: seq<Attribute>, a: Attribute): seq<Attribute> {
    if s == [] then [a]
    else if a.id < s[0].id then [a] + s
    else if a.id == s[0].id then s
    else [s[0]] + InsertAttribute(s[1..], a)
  }

  function CollectSet(s: seq<Attribute>, more: seq<Attribute>): seq<Attribute>
    decreases |more|
  {
    if more == [] then s else CollectSet(InsertAttribute(s, more[0]), more[1..])
  }

  /** The writer of one member, made total so that it can be passed on. */
  function Member(a: Attribute): Bytes {
    if ValidAttribute(a) then EncodeAttribute(a) else []
  }

  function EncodeSet(s: seq<Attribute>): Bytes
    requires |s| < TWO_64
  {
    HeadBytes(ARRAY, |s|) + WriteMany(Member, s)
  }

  function DecodeSet(b: Bytes): (r: Option<(seq<Attribute>, Bytes)>)
    ensures r.Some? ==> |r.value.1| < |b|
  {
    var (len, inside) :- ReadContainer(b, ARRAY);
    var (members, rest) :- ReadMany(DecodeAttribute, inside, len);
    Some((CollectSet([], members), rest))
  }

  lemma {:induction false} InsertAttributeLast(s: seq<Attribute>, a: Attribute)
    requires forall i :: 0 <= i < |s| ==> s[i].id < a.id
    ensures InsertAttribute(s, a) == s + [a]
  {
    if s == [] {
    } else {
      InsertAttributeLast(s[1..], a);
    }
  }

  lemma {:induction false} CollectSetInOrder(s: seq<Attribute>, more: seq<Attribute>)
    requires forall i, j :: 0 <= i < j < |s + more| ==> (s + more)[i].id < (s + more)[j].id
    ensures CollectSet(s, more) == s + more
    decreases |more|
  {
    if more != [] {
      var all := s + more;
      forall i | 0 <= i < |s| ensures s[i].id < more[0].id {
        assert all[i] == s[i] && all[|s|] == more[0];
      }
      InsertAttributeLast(s, more[0]);
      assert s + [more[0]] + more[1..] == s + more;
      CollectSetInOrder(s + [more[0]], more[1..]);
    } else {
      assert s + more == s;
    }
  }

  lemma SetRoundTrip(set_: seq<Attribute>, s: Bytes)
    requires ValidSet(set_)
    ensures DecodeSet(EncodeSet(set_) + s) == Some((set_, s))
  {
    hide DecodeAttribute, EncodeAttribute, ReadMany, WriteMany;
    forall i | 0 <= i < |set_| ensures Undoes(DecodeAttribute, Member, set_[i]) {
      forall t ensures DecodeAttribute(Member(set_[i]) + t) == Some((set_[i], t)) {
        AttributeRoundTrip(set_[i], t);
      }
    }
    Assoc(HeadBytes(ARRAY, |set_|), WriteMany(Member, set_), s);
    HeadRoundTrip(ARRAY, |set_|, WriteMany(Member, set_) + s);
    ManyRoundTrip(DecodeAttribute, Member, set_, s);
    assert [] + set_ == set_;
    CollectSetInOrder([], set_);
  }

  // -------------------------------------------------------------------------------------------
  // What the decoders accept
  // -------------------------------------------------------------------------------------------

  lemma DecodeAttributeValid(b: Bytes)
    requires |b| < TWO_64
    ensures DecodeAttribute(b).Some? ==> ValidAttribute(DecodeAttribute(b).value.0)
  {
    hide DecodeItems, CborAny.Valid;
    if b != [] && b[0] / 32 == ARRAY && DecodeAttribute(b).Some? {
      var (len, inside) := ReadContainer(b, ARRAY).value;
      DecodeItemsValid(inside, len);
      var items := DecodeItems(inside, len).value.0;
      assert forall i :: 0 <= i < |items[1..]| ==> items[1..][i] == items[i + 1];
    }
  }

  predicate Increasing(s: seq<Attribute>) {
    forall i, j :: 0 <= i < j < |s| ==> s[i].id < s[j].id
  }

  lemma {:induction false} InsertAttributeKeeps(s: seq<Attribute>, a: Attribute)
    requires Increasing(s) && ValidAttribute(a) && forall i :: 0 <= i < |s| ==> ValidAttribute(s[i])
    ensures var r := InsertAttribute(s, a);
            && Increasing(r) && |r| <= |s| + 1
            && (forall i :: 0 <= i < |r| ==> ValidAttribute(r[i]))
            && (forall i :: 0 <= i < |r| ==> r[i] == a || r[i] in s)
  {
    hide ValidAttribute;
    if s != [] && a.id > s[0].id {
      InsertAttributeKeeps(s[1..], a);
      var t := InsertAttribute(s[1..], a);
      forall i | 0 <= i < |t| ensures s[0].id < t[i].id {
        if t[i] != a {
          var k :| 0 <= k < |s[1..]| && s[1..][k] == t[i];
          assert s[k + 1] == t[i];
        }
      }
    }
  }

  lemma {:induction false} CollectSetKeeps(s: seq<Attribute>, more: seq<Attribute>)
    requires Increasing(s)
    requires forall i :: 0 <= i < |s| ==> ValidAttribute(s[i])
    requires forall i :: 0 <= i < |more| ==> ValidAttribute(more[i])
    ensures var r := CollectSet(s, more);
            Increasing(r) && |r| <= |s| + |more| && forall i :: 0 <= i < |r| ==> ValidAttribute(r[i])
    decreases |more|
  {
    hide ValidAttribute, Increasing;
    if more == [] {
    } else {
      InsertAttributeKeeps(s, more[0]);
      CollectSetKeeps(InsertAttribute(s, more[0]), more[1..]);
    }
  }

  lemma DecodeSetValid(b: Bytes)
    requires |b| < TWO_64
    ensures DecodeSet(b).Some? ==> ValidSet(DecodeSet(b).value.0)
  {
    hide DecodeAttribute, ReadMany, ValidAttribute;
    if DecodeSet(b).Some? {
      var (len, inside) := ReadContainer(b, ARRAY).value;
      var p := (a: Attribute) => ValidAttribute(a);
      forall x | |x| < TWO_64 && DecodeAttribute(x).Some? ensures p(DecodeAttribute(x).value.0) {
        DecodeAttributeValid(x);
      }
      ManyYield(DecodeAttribute, p, inside, len);
      var members := ReadMany(DecodeAttribute, inside, len).value.0;
      assert forall i :: 0 <= i < |members| ==> p(members[i]);
      CollectSetKeeps([], members);
    }
  }

  // -------------------------------------------------------------------------------------------
  // What a collected set holds
  // -------------------------------------------------------------------------------------------

  /** The first attribute of a list that has an id. */
  function FirstOf(s: seq<Attribute>, id: nat): Option<Attribute> {
    if s == [] then None
    else if s[0].id == id then Some(s[0])
    else FirstOf(s[1..], id)
  }

  lemma {:induction false} FirstOfAbsent(s: seq<Attribute>, id: nat)
    requires forall i :: 0 <= i < |s| ==> id < s[i].id
    ensures FirstOf(s, id).None?
  {
    if s == [] {
    } else {
      FirstOfAbsent(s[1..], id);
    }
  }

  lemma {:induction false} FirstOfIn(s: seq<Attribute>, id: nat)
    ensures FirstOf(s, id).Some? ==> FirstOf(s, id).value in s && FirstOf(s, id).value.id == id
  {
    if s == [] {
    } else {
      FirstOfIn(s[1..], id);
    }
  }

  lemma TailIncreasing(s: seq<Attribute>)
    requires Increasing(s) && s != []
    ensures Increasing(s[1..])
  {
    forall i, j | 0 <= i < j < |s[1..]| ensures s[1..][i].id < s[1..][j].id {
      assert s[i + 1].id < s[j + 1].id;
    }
  }

  lemma {:induction false} InsertKeepsOrder(s: seq<Attribute>, a: Attribute)
    requires Increasing(s)
    ensures Increasing(InsertAttribute(s, a))
    ensures forall i :: 0 <= i < |InsertAttribute(s, a)| ==> InsertAttribute(s, a)[i] in s + [a]
  {
    if s != [] && a.id > s[0].id {
      TailIncreasing(s);
      InsertKeepsOrder(s[1..], a);
      var t := InsertAttribute(s[1..], a);
      forall i | 0 <= i < |t| ensures s[0].id < t[i].id && t[i] in s + [a] {
        assert t[i] in s[1..] + [a];
      }
    }
  }

  /** An insertion adds the attribute when its id is new, and otherwise changes nothing. */
  lemma {:induction false} InsertAttributeAt(s: seq<Attribute>, a: Attribute, id: nat)
    requires Increasing(s)
    ensures FirstOf(InsertAttribute(s, a), id) ==
              if FirstOf(s, id).None? && a.id == id then Some(a) else FirstOf(s, id)
  {
    if s == [] {
    } else if a.id < s[0].id {
      assert ([a] + s)[1..] == s;
      FirstOfAbsent(s, a.id);
    } else if a.id > s[0].id {
      TailIncreasing(s);
      hide Increasing;
      InsertAttributeAt(s[1..], a, id);
      assert ([s[0]] + InsertAttribute(s[1..], a))[1..] == InsertAttribute(s[1..], a);
    }
  }

  lemma {:induction false} CollectSetAt(s: seq<Attribute>, more: seq<Attribute>, id: nat)
    requires Increasing(s)
    ensures Increasing(CollectSet(s, more))
    ensures FirstOf(CollectSet(s, more), id) == if FirstOf(s, id).Some? then FirstOf(s, id) else FirstOf(more, id)
    decreases |more|
  {
    hide InsertAttribute, Increasing;
    if more == [] {
      FirstOfAbsent(more, id);
    } else {
      InsertKeepsOrder(s, more[0]);
      InsertAttributeAt(s, more[0], id);
      CollectSetAt(InsertAttribute(s, more[0]), more[1..], id);
    }
  }

  lemma {:induction false} SameMembers(s: seq<Attribute>, t: seq<Attribute>)
    requires Increasing(s) && Increasing(t)
    requires forall id: nat :: FirstOf(s, id) == FirstOf(t, id)
    ensures s == t
  {
    if s == [] || t == [] {
      var id := if s != [] then s[0].id else if t != [] then t[0].id else 0;
      assert FirstOf(s, id) == FirstOf(t, id);
    } else {
      assert FirstOf(s, s[0].id) == Some(s[0]) && FirstOf(t, t[0].id) == Some(t[0]);
      FirstOfIn(t, s[0].id);
      FirstOfIn(s, t[0].id);
      assert s[0] == t[0];
      FirstOfAbsent(s[1..], s[0].id);
      FirstOfAbsent(t[1..], t[0].id);
      forall id: nat ensures FirstOf(s[1..], id) == FirstOf(t[1..], id) {
        assert FirstOf(s, id) == FirstOf(t, id);
      }
      TailIncreasing(s);
      TailIncreasing(t);
      SameMembers(s[1..], t[1..]);
      assert s == [s[0]] + s[1..] && t == [t[0]] + t[1..];
    }
  }

  /** For every id, the set holds the first attribute of the list with that id, or none if there is none. */
  ghost predicate HoldsFirst(s: seq<Attribute>, list: seq<Attribute>) {
    forall id: nat :: FirstOf(s, id) == FirstOf(list, id)
  }

  /** The collected set holds the first attribute of each id, and is the only set that does. */
  lemma CollectedIsFirst(list: seq<Attribute>, s: seq<Attribute>)
    requires Increasing(s)
    ensures HoldsFirst(s, list) <==> s == CollectSet([], list)
  {
    hide CollectSet, FirstOf;
    assert Increasing([]);
    var c := CollectSet([], list);
    forall id: nat ensures FirstOf(c, id) == FirstOf(list, id) {
      CollectSetAt([], list, id);
      FirstOfAbsent([], id);
    }
    assert HoldsFirst(c, list);
    CollectSetAt([], list, 0);
    if HoldsFirst(s, list) {
      SameMembers(s, c);
    }
  }

  /** Attributes written in any order, with ids repeated or not, are read as that set. */
  lemma AnyAttributes(list: seq<Attribute>, set_: seq<Attribute>, s: Bytes)
    requires |list| < TWO_64 && forall i :: 0 <= i < |list| ==> ValidAttribute(list[i])
    requires Increasing(set_) && HoldsFirst(set_, list)
    ensures DecodeSet(HeadBytes(ARRAY, |list|) + (WriteMany(Member, list) + s)) == Some((set_, s))
  {
    hide DecodeAttribute, EncodeAttribute, ReadMany, WriteMany, HoldsFirst, ValidAttribute;
    forall i | 0 <= i < |list| ensures Undoes(DecodeAttribute, Member, list[i]) {
      forall t ensures DecodeAttribute(Member(list[i]) + t) == Some((list[i], t)) {
        AttributeRoundTrip(list[i], t);
      }
    }
    HeadRoundTrip(ARRAY, |list|, WriteMany(Member, list) + s);
    ManyRoundTrip(DecodeAttribute, Member, list, s);
    CollectedIsFirst(list, set_);
  }

  // -------------------------------------------------------------------------------------------
  // What is an attribute
  // -------------------------------------------------------------------------------------------

  /** An attribute without arguments is encoded as the value of its id, one with arguments as an array of both. */
  lemma AttributeLayout(a: Attribute)
    requires ValidAttribute(a)
    ensures a.arguments == [] ==> EncodeAttribute(a) == CborAny.Encode(Any.Int(a.id))
    ensures a.arguments != [] ==>
              var items := [Any.Int(a.id)] + a.arguments;
              CborAny.Valid(Array(items)) && EncodeAttribute(a) == CborAny.Encode(Array(items))
  {
    hide EncodeItems, HeadBytes;
    IdIsFirstItem(a);
    Assoc(HeadBytes(ARRAY, 1 + |a.arguments|), EncodeUint(a.id), EncodeItems(a.arguments));
  }

  /**
   * An array of valid items is an attribute just when it begins with an integer below 2^32, whose last
   * 32 bits are the id, also if it is negative; the other items are the arguments.
   */
  lemma AnyArray(items: seq<Any>, s: Bytes)
    requires |items| < TWO_64 && AllValid(items)
    ensures DecodeAttribute(HeadBytes(ARRAY, |items|) + (EncodeItems(items) + s)) ==
            if items != [] && items[0].Int? && items[0].i < TWO_32
            then Some((Attribute(items[0].i % TWO_32, items[1..]), s))
            else None
  {
    hide DecodeItems, EncodeItems, CborAny.Valid, HeadBytes, DecodeAttribute, ReadHead;
    var b := HeadBytes(ARRAY, |items|) + (EncodeItems(items) + s);
    HeadRoundTrip(ARRAY, |items|, EncodeItems(items) + s);
    ItemsRoundTrip(items, s);
    assert b[0] == HeadBytes(ARRAY, |items|)[0];
    ArrayRead(b, Some(|items|), EncodeItems(items) + s, items, s);
  }

  lemma ArrayRead(b: Bytes, len: Option<nat>, inside: Bytes, items: seq<Any>, s: Bytes)
    requires b != [] && b[0] / 32 == ARRAY && ReadContainer(b, ARRAY) == Some((len, inside))
    requires DecodeItems(inside, len) == Some((items, s))
    ensures DecodeAttribute(b) ==
            if items != [] && items[0].Int? && items[0].i < TWO_32
            then Some((Attribute(items[0].i % TWO_32, items[1..]), s))
            else None
  {
    hide DecodeItems, ReadContainer, ReadUint;
  }
}
