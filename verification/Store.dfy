/**
 * The authenticated store: a map from keys to values, changed by applying a batch of puts and
 * deletes. The store wants the keys of a batch in strictly increasing order.
 */
module Store {
  import opened Wrappers
  import Lex

  datatype Op<+V> = Put(value: V) | Delete

  datatype Entry<+V> = Entry(key: string, op: Op<V>)

  function Get<V>(store: map<string, V>, k: string): Option<V> {
    if k in store then Some(store[k]) else None
  }

  function ApplyOne<V>(store: map<string, V>, e: Entry<V>): map<string, V> {
    match e.op
    case Put(v) => store[e.key := v]
    case Delete => store - {e.key}
  }

  function Apply<V>(store: map<string, V>, batch: seq<Entry<V>>): map<string, V>
    decreases |batch|
  {
    if batch == [] then store else Apply(ApplyOne(store, batch[0]), batch[1..])
  }

  /** Keys in strictly increasing order: what the store requires of a batch. */
  predicate Increasing<V>(batch: seq<Entry<V>>) {
    forall i, j :: 0 <= i < j < |batch| ==> Lex.Less(batch[i].key, batch[j].key)
  }

  predicate Distinct<V>(batch: seq<Entry<V>>) {
    forall i, j :: 0 <= i < j < |batch| ==> batch[i].key != batch[j].key
  }

  /** The first operation on a key. */
  function First<V>(batch: seq<Entry<V>>, k: string): Option<Op<V>> {
    if batch == [] then None
    else if batch[0].key == k then Some(batch[0].op)
    else First(batch[1..], k)
  }

  /** What an operation, if any, leaves at a key that held `before`. */
  function Outcome<V>(before: Option<V>, op: Option<Op<V>>): Option<V> {
    match op
    case None => before
    case Some(Put(v)) => Some(v)
    case Some(Delete) => None
  }

  lemma {:induction false} FirstIsNone<V>(batch: seq<Entry<V>>, k: string)
    ensures First(batch, k).None? <==> forall i :: 0 <= i < |batch| ==> batch[i].key != k
  {
    if batch == [] {
    } else {
      FirstIsNone(batch[1..], k);
      assert forall i :: 1 <= i < |batch| ==> batch[i] == batch[1..][i - 1];
    }
  }

  lemma ConsDistinct<V>(e: Entry<V>, t: seq<Entry<V>>)
    requires Distinct(t) && forall i :: 0 <= i < |t| ==> t[i].key != e.key
    ensures Distinct([e] + t)
  {
  }

  lemma {:induction false} FirstConcat<V>(a: seq<Entry<V>>, b: seq<Entry<V>>, k: string)
    ensures First(a + b, k) == if First(a, k).Some? then First(a, k) else First(b, k)
  {
    if a == [] {
      assert a + b == b;
    } else {
      assert (a + b)[1..] == a[1..] + b;
      FirstConcat(a[1..], b, k);
    }
  }

  /** A batch that names each key once does to each key what its one operation says. */
  lemma {:induction false} ApplyDistinct<V>(store: map<string, V>, batch: seq<Entry<V>>, k: string)
    requires Distinct(batch)
    ensures Get(Apply(store, batch), k) == Outcome(Get(store, k), First(batch, k))
    decreases |batch|
  {
    if batch == [] {
    } else {
      var next := ApplyOne(store, batch[0]);
      ApplyDistinct(next, batch[1..], k);
      if batch[0].key == k {
        FirstIsNone(batch[1..], k);
      }
    }
  }

  /** What a batch that names each key once leaves at a key: the value put, nothing, or what was there. */
  lemma ApplyEach<V>(store: map<string, V>, batch: seq<Entry<V>>, i: nat, k: string)
    requires Distinct(batch)
    ensures i < |batch| && batch[i].key == k ==>
              Get(Apply(store, batch), k) == match batch[i].op case Put(v) => Some(v) case Delete => None
    ensures (forall j :: 0 <= j < |batch| ==> batch[j].key != k) ==> Get(Apply(store, batch), k) == Get(store, k)
  {
    hide Apply, Get;
    ApplyDistinct(store, batch, k);
    FirstIsNone(batch, k);
    if i < |batch| && batch[i].key == k {
      FirstAt(batch, i);
    }
  }

  lemma SameStore<V>(a: map<string, V>, b: map<string, V>)
    requires forall k :: Get(a, k) == Get(b, k)
    ensures a == b
  {
    assert forall k :: k in a <==> Get(a, k).Some?;
    assert forall k :: k in b <==> Get(b, k).Some?;
    assert a.Keys == b.Keys;
    forall k | k in a ensures a[k] == b[k] {
      assert Get(a, k) == Get(b, k);
    }
  }

  // -------------------------------------------------------------------------------------------
  // Sorting and deduplication
  // -------------------------------------------------------------------------------------------

  /** Before the first entry whose key is not smaller. */
  function InsertStable<V>(e: Entry<V>, batch: seq<Entry<V>>): (r: seq<Entry<V>>)
    ensures multiset(r) == multiset(batch) + multiset{e}
  {
    if batch != [] && Lex.Less(batch[0].key, e.key) then
      assert batch == [batch[0]] + batch[1..];
      [batch[0]] + InsertStable(e, batch[1..])
    else [e] + batch
  }

  /** The stable sort by key. */
  function Sort<V>(batch: seq<Entry<V>>): (r: seq<Entry<V>>)
    ensures multiset(r) == multiset(batch)
  {
    if batch == [] then []
    else
      assert batch == [batch[0]] + batch[1..];
      InsertStable(batch[0], Sort(batch[1..]))
  }

  /** Neighbours with equal keys lose all but the first. */
  function Dedup<V>(batch: seq<Entry<V>>): seq<Entry<V>>
    decreases |batch|
  {
    if |batch| <= 1 then batch
    else if batch[0].key == batch[1].key then Dedup([batch[0]] + batch[2..])
    else [batch[0]] + Dedup(batch[1..])
  }

  /** Keys never decrease from one entry to any later one. */
  predicate Ordered<V>(batch: seq<Entry<V>>) {
    forall i, j :: 0 <= i < j < |batch| ==> !Lex.Less(batch[j].key, batch[i].key)
  }

  lemma ConsOrdered<V>(e: Entry<V>, t: seq<Entry<V>>)
    requires Ordered(t) && forall i :: 0 <= i < |t| ==> !Lex.Less(t[i].key, e.key)
    ensures Ordered([e] + t)
  {
    hide Lex.Less;
  }

  lemma TailOrdered<V>(t: seq<Entry<V>>)
    requires Ordered(t) && t != []
    ensures Ordered(t[1..]) && forall i :: 0 <= i < |t[1..]| ==> !Lex.Less(t[1..][i].key, t[0].key)
  {
    hide Lex.Less;
  }

  lemma {:induction false} InsertOrdered<V>(e: Entry<V>, batch: seq<Entry<V>>)
    requires Ordered(batch)
    ensures Ordered(InsertStable(e, batch))
  {
    hide Lex.Less;
    if batch == [] {
      ConsOrdered(e, batch);
    } else if Lex.Less(batch[0].key, e.key) {
      TailOrdered(batch);
      InsertOrdered(e, batch[1..]);
      Lex.Asymmetric(batch[0].key, e.key);
      var t := InsertStable(e, batch[1..]);
      hide Ordered;
      forall i | 0 <= i < |t| ensures !Lex.Less(t[i].key, batch[0].key) {
        assert t[i] in multiset(t);
        assert t[i] == e || t[i] in batch[1..];
      }
      ConsOrdered(batch[0], t);
    } else {
      forall j | 0 <= j < |batch| ensures !Lex.Less(batch[j].key, e.key) {
        if Lex.Less(batch[j].key, e.key) {
          BelowAll(e.key, batch, j);
        }
      }
      ConsOrdered(e, batch);
    }
  }

  lemma BelowAll<V>(k: string, batch: seq<Entry<V>>, j: nat)
    requires Ordered(batch) && j < |batch| && Lex.Less(batch[j].key, k)
    ensures Lex.Less(batch[0].key, k)
  {
    if j > 0 {
      Lex.Total(batch[0].key, batch[j].key);
      if Lex.Less(batch[0].key, batch[j].key) {
        Lex.Transitive(batch[0].key, batch[j].key, k);
      }
    }
  }

  lemma {:induction false} SortOrdered<V>(batch: seq<Entry<V>>)
    ensures Ordered(Sort(batch))
  {
    if batch == [] {
    } else {
      SortOrdered(batch[1..]);
      InsertOrdered(batch[0], Sort(batch[1..]));
    }
  }

  lemma {:induction false} InsertFirst<V>(e: Entry<V>, batch: seq<Entry<V>>, k: string)
    ensures First(InsertStable(e, batch), k) == if e.key == k then Some(e.op) else First(batch, k)
  {
    if batch != [] && Lex.Less(batch[0].key, e.key) {
      Lex.Irreflexive(e.key);
      InsertFirst(e, batch[1..], k);
    } else {
      assert ([e] + batch)[1..] == batch;
    }
  }

  /** Stability: sorting does not change which operation on a key comes first. */
  lemma {:induction false} SortFirst<V>(batch: seq<Entry<V>>, k: string)
    ensures First(Sort(batch), k) == First(batch, k)
  {
    if batch == [] {
    } else {
      SortFirst(batch[1..], k);
      InsertFirst(batch[0], Sort(batch[1..]), k);
    }
  }

  lemma {:induction false} DedupFirst<V>(batch: seq<Entry<V>>, k: string)
    ensures First(Dedup(batch), k) == First(batch, k)
    decreases |batch|
  {
    if |batch| > 1 {
      if batch[0].key == batch[1].key {
        DedupFirst([batch[0]] + batch[2..], k);
        assert ([batch[0]] + batch[2..])[1..] == batch[2..];
        assert batch[1..][1..] == batch[2..];
      } else {
        DedupFirst(batch[1..], k);
        assert ([batch[0]] + Dedup(batch[1..]))[1..] == Dedup(batch[1..]);
      }
    }
  }

  lemma {:induction false} DedupIncreasing<V>(batch: seq<Entry<V>>)
    requires Ordered(batch)
    ensures Increasing(Dedup(batch))
    ensures forall e :: e in Dedup(batch) ==> e in batch
    ensures batch != [] ==> Dedup(batch) != [] && Dedup(batch)[0] == batch[0]
    decreases |batch|
  {
    hide Lex.Less;
    if |batch| > 1 {
      if batch[0].key == batch[1].key {
        var shorter := [batch[0]] + batch[2..];
        assert forall i :: 1 <= i < |shorter| ==> shorter[i] == batch[i + 1];
        DedupIncreasing(shorter);
      } else {
        DedupIncreasing(batch[1..]);
        var t := Dedup(batch[1..]);
        Lex.Total(batch[0].key, batch[1].key);
        assert Lex.Less(batch[0].key, batch[1].key);
        forall i | 0 <= i < |t| ensures Lex.Less(batch[0].key, t[i].key) {
          if i > 0 {
            Lex.Transitive(batch[0].key, t[0].key, t[i].key);
          }
        }
      }
    }
  }

  lemma IncreasingIsDistinct<V>(batch: seq<Entry<V>>)
    requires Increasing(batch)
    ensures Distinct(batch)
  {
    forall i, j | 0 <= i < j < |batch| ensures batch[i].key != batch[j].key {
      Lex.Irreflexive(batch[i].key);
    }
  }

  lemma {:induction false} InsertIncreasing<V>(e: Entry<V>, batch: seq<Entry<V>>)
    requires Increasing(batch) && forall i :: 0 <= i < |batch| ==> batch[i].key != e.key
    ensures Increasing(InsertStable(e, batch))
  {
    hide Lex.Less;
    if batch == [] {
    } else {
      Lex.Total(batch[0].key, e.key);
      if Lex.Less(batch[0].key, e.key) {
        InsertIncreasing(e, batch[1..]);
        var t := InsertStable(e, batch[1..]);
        forall i | 0 <= i < |t| ensures Lex.Less(batch[0].key, t[i].key) {
          assert t[i] in multiset(t);
          assert t[i] == e || t[i] in batch[1..];
        }
      } else {
        forall i | 0 <= i < |batch| ensures Lex.Less(e.key, batch[i].key) {
          if i > 0 {
            Lex.Transitive(e.key, batch[0].key, batch[i].key);
          }
        }
      }
    }
  }

  lemma {:induction false} SortDistinct<V>(batch: seq<Entry<V>>)
    requires Distinct(batch)
    ensures Increasing(Sort(batch)) && Distinct(Sort(batch))
  {
    if batch == [] {
    } else {
      SortDistinct(batch[1..]);
      var t := Sort(batch[1..]);
      forall i | 0 <= i < |t| ensures t[i].key != batch[0].key {
        assert t[i] in multiset(t);
        assert t[i] in batch[1..];
      }
      InsertIncreasing(batch[0], t);
    }
    IncreasingIsDistinct(Sort(batch));
  }

  /**
   * The merged batch. Chaining the store batch before the remove batch, sorting stably and
   * dropping repeated keys gives a batch the store accepts, with the effect of removing first
   * and storing then.
   */
  lemma MergedBatch<V>(store: map<string, V>, puts: seq<Entry<V>>, removes: seq<Entry<V>>)
    requires Distinct(puts) && Distinct(removes)
    ensures Increasing(Dedup(Sort(puts + removes)))
    ensures Apply(store, Dedup(Sort(puts + removes))) == Apply(Apply(store, removes), puts)
  {
    var merged := Dedup(Sort(puts + removes));
    SortOrdered(puts + removes);
    DedupIncreasing(Sort(puts + removes));
    IncreasingIsDistinct(merged);
    forall k ensures Get(Apply(store, merged), k) == Get(Apply(Apply(store, removes), puts), k) {
      ApplyDistinct(store, merged, k);
      DedupFirst(Sort(puts + removes), k);
      SortFirst(puts + removes, k);
      FirstConcat(puts, removes, k);
      ApplyDistinct(store, removes, k);
      ApplyDistinct(Apply(store, removes), puts, k);
    }
    SameStore(Apply(store, merged), Apply(Apply(store, removes), puts));
  }

  /** Sorting a batch of distinct keys does not change its effect. */
  lemma SortedBatch<V>(store: map<string, V>, batch: seq<Entry<V>>)
    requires Distinct(batch)
    ensures Increasing(Sort(batch)) && Apply(store, Sort(batch)) == Apply(store, batch)
  {
    SortDistinct(batch);
    forall k ensures Get(Apply(store, Sort(batch)), k) == Get(Apply(store, batch), k) {
      ApplyDistinct(store, Sort(batch), k);
      ApplyDistinct(store, batch, k);
      SortFirst(batch, k);
    }
    SameStore(Apply(store, Sort(batch)), Apply(store, batch));
  }

  lemma {:induction false} OnlyDeletes<V>(batch: seq<Entry<V>>, k: string)
    requires forall i :: 0 <= i < |batch| ==> batch[i].op.Delete?
    ensures First(batch, k).Some? ==> First(batch, k) == Some(Delete)
  {
    if batch == [] {
    } else {
      OnlyDeletes(batch[1..], k);
    }
  }

  lemma {:induction false} FirstAt<V>(items: seq<Entry<V>>, i: nat)
    requires Distinct(items) && i < |items|
    ensures First(items, items[i].key) == Some(items[i].op)
  {
    if i > 0 {
      FirstAt(items[1..], i - 1);
    }
  }

  lemma {:induction false} FirstOccurs<V>(items: seq<Entry<V>>, k: string)
    requires First(items, k).Some?
    ensures exists i :: 0 <= i < |items| && items[i] == Entry(k, First(items, k).value)
  {
    if items[0].key != k {
      FirstOccurs(items[1..], k);
      var i :| 0 <= i < |items[1..]| && items[1..][i] == Entry(k, First(items[1..], k).value);
      assert items[i + 1] == Entry(k, First(items, k).value);
    } else {
      assert items[0] == Entry(k, First(items, k).value);
    }
  }

  /** The key and value pairs under a prefix, in key order, each as a put. */
  method Scan<V>(store: map<string, V>, prefix: string) returns (items: seq<Entry<V>>)
    ensures Increasing(items)
    ensures forall k :: First(items, k) == if k in store && prefix <= k then Some(Put(store[k])) else None
  {
    var todo := set k | k in store && prefix <= k;
    ghost var all := todo;
    items := [];
    while todo != {}
      invariant todo <= all && Increasing(items)
      invariant forall k :: First(items, k) == if k in all - todo then Some(Put(store[k])) else None
      decreases |todo|
    {
      var key :| key in todo;
      var item := Entry(key, Put(store[key]));
      FirstIsNone(items, key);
      InsertIncreasing(item, items);
      forall k ensures First(InsertStable(item, items), k) == if k == key then Some(item.op) else First(items, k) {
        InsertFirst(item, items, k);
      }
      items := InsertStable(item, items);
      todo := todo - {key};
    }
  }

  // -------------------------------------------------------------------------------------------
  // Listings
  // -------------------------------------------------------------------------------------------

  predicate InOrder<V>(items: seq<Entry<V>>, descending: bool) {
    forall i, j :: 0 <= i < j < |items| ==>
                     if descending then Lex.Less(items[j].key, items[i].key) else Lex.Less(items[i].key, items[j].key)
  }

  function Reversed<T>(s: seq<T>): (r: seq<T>)
    ensures |r| == |s| && forall i :: 0 <= i < |s| ==> r[i] == s[|s| - 1 - i]
  {
    if s == [] then [] else Reversed(s[1..]) + [s[0]]
  }

  function Keep<V>(items: seq<Entry<V>>, pick: Entry<V> -> bool): seq<Entry<V>> {
    if items == [] then [] else (if pick(items[0]) then [items[0]] else []) + Keep(items[1..], pick)
  }

  lemma {:induction false} KeepHolds<V>(items: seq<Entry<V>>, pick: Entry<V> -> bool, e: Entry<V>)
    ensures e in Keep(items, pick) <==> e in items && pick(e)
  {
    if items == [] {
    } else {
      KeepHolds(items[1..], pick, e);
      assert e in items <==> e == items[0] || e in items[1..];
    }
  }

  lemma {:induction false} KeepInOrder<V>(items: seq<Entry<V>>, pick: Entry<V> -> bool, descending: bool)
    requires InOrder(items, descending)
    ensures InOrder(Keep(items, pick), descending)
  {
    hide Lex.Less;
    if items == [] {
    } else {
      var rest := Keep(items[1..], pick);
      KeepInOrder(items[1..], pick, descending);
      forall j | 0 <= j < |rest|
        ensures if descending then Lex.Less(rest[j].key, items[0].key) else Lex.Less(items[0].key, rest[j].key)
      {
        KeepHolds(items[1..], pick, rest[j]);
        var i :| 0 <= i < |items[1..]| && items[1..][i] == rest[j];
        assert items[i + 1] == rest[j];
      }
    }
  }

  lemma ReversedOrder<V>(items: seq<Entry<V>>)
    requires Increasing(items)
    ensures InOrder(Reversed(items), true)
  {
    hide Lex.Less, Reversed;
  }

  /** What a scan yields at one place. */
  predicate Yielded<V(==)>(store: map<string, V>, prefix: string, e: Entry<V>) {
    e.key in store && prefix <= e.key && e.op == Put(store[e.key])
  }

  /** The entries under a prefix that are picked, each once, in increasing or decreasing key order. */
  method List<V(==)>(store: map<string, V>, prefix: string, descending: bool, pick: Entry<V> -> bool)
    returns (items: seq<Entry<V>>)
    ensures InOrder(items, descending)
    ensures forall e :: e in items <==> Yielded(store, prefix, e) && pick(e)
  {
    hide First, Lex.Less, Keep, Reversed;
    var all := Scan(store, prefix);
    var order := if descending then Reversed(all) else all;
    ReversedOrder(all);
    items := [];
    for n := 0 to |order|
      invariant items + Keep(order[n..], pick) == Keep(order, pick)
    {
      KeepStep(order, pick, n, items);
      if pick(order[n]) {
        items := items + [order[n]];
      }
    }
    KeepNone(order, pick);
    assert items == Keep(order, pick);
    KeepInOrder(order, pick, descending);
    forall e ensures e in items <==> Yielded(store, prefix, e) && pick(e) {
      KeepHolds(order, pick, e);
      ScanHolds(store, prefix, all, e);
      SameMembers(all, e);
    }
  }

  lemma KeepStep<V>(items: seq<Entry<V>>, pick: Entry<V> -> bool, n: nat, done: seq<Entry<V>>)
    requires n < |items|
    ensures done + Keep(items[n..], pick) ==
            (if pick(items[n]) then done + [items[n]] else done) + Keep(items[n + 1..], pick)
  {
    assert items[n..][0] == items[n] && items[n..][1..] == items[n + 1..];
    var rest := Keep(items[n + 1..], pick);
    assert done + ([items[n]] + rest) == (done + [items[n]]) + rest;
    assert [] + rest == rest;
  }

  lemma KeepNone<V>(items: seq<Entry<V>>, pick: Entry<V> -> bool)
    ensures Keep(items[|items|..], pick) == []
  {
  }

  lemma SameMembers<T>(s: seq<T>, e: T)
    ensures e in Reversed(s) <==> e in s
  {
    hide Reversed;
    if e in s {
      var i :| 0 <= i < |s| && s[i] == e;
      assert Reversed(s)[|s| - 1 - i] == e;
    }
  }

  lemma ScanHolds<V>(store: map<string, V>, prefix: string, items: seq<Entry<V>>, e: Entry<V>)
    requires Increasing(items)
    requires forall k :: First(items, k) == if k in store && prefix <= k then Some(Put(store[k])) else None
    ensures e in items <==> e.key in store && prefix <= e.key && e.op == Put(store[e.key])
  {
    hide First, Lex.Less;
    IncreasingIsDistinct(items);
    if e in items {
      var i :| 0 <= i < |items| && items[i] == e;
      FirstAt(items, i);
      assert First(items, e.key).Some?;
    }
    if e.key in store && prefix <= e.key && e.op == Put(store[e.key]) {
      FirstOccurs(items, e.key);
    }
  }
}
