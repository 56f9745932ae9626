/** The sum of the values of a map. */
module Sums {
  function Value<K>(h: map<K, nat>, k: K): nat { if k in h then h[k] else 0 }

  ghost function Sum<K>(h: map<K, nat>): nat {
    if h == map[] then 0 else
      var k :| k in h;
      h[k] + Sum(h - {k})
  }

  lemma SomePick<K>(h: map<K, nat>) returns (j: K)
    requires h != map[]
    ensures j in h && Sum(h) == h[j] + Sum(h - {j})
  {
    j :| j in h && Sum(h) == h[j] + Sum(h - {j});
  }

  /** The sum does not depend on which key is taken out first. */
  lemma {:induction false} SumPick<K>(h: map<K, nat>, k: K)
    requires k in h
    ensures Sum(h) == h[k] + Sum(h - {k})
    decreases |h|
  {
    var j := SomePick(h);
    hide Sum;
    if j != k {
      SumPick(h - {j}, k);
      SumPick(h - {k}, j);
      assert h - {j} - {k} == h - {k} - {j};
    }
  }

  lemma SumSet<K>(h: map<K, nat>, k: K, n: nat)
    ensures Sum(h[k := n]) == Sum(h) - Value(h, k) + n
  {
    hide Sum;
    SumPick(h[k := n], k);
    assert h[k := n] - {k} == h - {k};
    if k in h {
      SumPick(h, k);
    } else {
      assert h - {k} == h;
    }
  }

  function Minus(a: nat, b: nat): nat { if b <= a then a - b else 0 }

  function Moved<K>(h: map<K, nat>, from: K, to: K, n: nat): map<K, nat> {
    h[from := Minus(Value(h, from), n)][to := Value(h, to) + n]
  }

  /** Moving an amount between two keys keeps the sum and every other value. */
  lemma MovedSum<K>(h: map<K, nat>, from: K, to: K, n: nat)
    requires from != to && n <= Value(h, from)
    ensures Sum(Moved(h, from, to, n)) == Sum(h)
    ensures var g := Moved(h, from, to, n);
            && Value(g, from) + n == Value(h, from)
            && Value(g, to) == Value(h, to) + n
            && forall k :: k != from && k != to ==> Value(g, k) == Value(h, k)
  {
    hide Sum;
    var g := h[from := Minus(Value(h, from), n)];
    SumSet(h, from, Minus(Value(h, from), n));
    SumSet(g, to, Value(h, to) + n);
  }
}
