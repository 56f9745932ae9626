/** When a ledger command is accepted, and what it does to the balance of every address. */
module LedgerEffects {
  import opened Wrappers
  import A = Address
  import opened Sums
  import opened Ledger

  /** What a distribution gives an address, if it lists it. */
  function ShareOf(d: seq<Share>, id: A.Id): Option<nat> {
    if d == [] then None
    else if d[0].who == id then Some(d[0].amount)
    else ShareOf(d[1..], id)
  }

  predicate AllPositive(d: seq<Share>) {
    forall i :: 0 <= i < |d| ==> d[i].amount > 0
  }

  lemma {:induction false} ShareAt(d: seq<Share>, i: nat)
    requires Once(d) && i < |d|
    ensures ShareOf(d, d[i].who) == Some(d[i].amount)
  {
    if i == 0 {
    } else {
      assert d[0].who != d[i].who;
      ShareAt(d[1..], i - 1);
    }
  }

  lemma {:induction false} ShareOfNone(d: seq<Share>, id: A.Id)
    ensures ShareOf(d, id).None? <==> forall i :: 0 <= i < |d| ==> d[i].who != id
  {
    if d == [] {
    } else {
      ShareOfNone(d[1..], id);
      assert forall i :: 0 < i < |d| ==> d[i] == d[1..][i - 1];
    }
  }

  lemma PositiveUnfolded(d: seq<Share>)
    requires d != []
    ensures AllPositive(d) <==> d[0].amount > 0 && AllPositive(d[1..])
  {
    if d[0].amount > 0 && AllPositive(d[1..]) {
      forall i | 0 <= i < |d| ensures d[i].amount > 0 {
        if i > 0 { assert d[1..][i - 1].amount > 0; }
      }
    }
  }

  // -------------------------------------------------------------------------------------------
  // Sending
  // -------------------------------------------------------------------------------------------

  /**
   * A send is accepted just when it moves something between two different addresses, neither of them
   * anonymous, and the sender holds it.
   */
  lemma SendIff(t: Token, from: A.Id, to: A.Id, amount: nat)
    ensures Send(t, from, to, amount).Ok? <==>
            && from != to && from != A.ANONYMOUS && to != A.ANONYMOUS
            && 0 < amount <= Value(t.holders, from)
    ensures Send(t, from, to, amount).Err? ==>
              match Send(t, from, to, amount).error
              case DestinationIsSource => from == to
              case AmountIsZero => amount == 0
              case AnonymousFunds => from == A.ANONYMOUS || to == A.ANONYMOUS
              case InsufficientFunds => amount > Value(t.holders, from)
              case _ => false
  {
    hide A.Eq, A.IsAnonymous, A.Valid, Moved, Value;
    A.EqIsByteEquality(from, to);
    AnonymousIff(from);
    AnonymousIff(to);
  }

  lemma AnonymousIff(a: A.Id)
    ensures A.IsAnonymous(a) <==> a == A.ANONYMOUS
  {
    if A.IsAnonymous(a) {
      A.AnonymousIsUnique(a);
    }
  }

  // -------------------------------------------------------------------------------------------
  // Minting
  // -------------------------------------------------------------------------------------------

  lemma {:induction false} MintSharesIff(t: Token, tally: Tally, d: seq<Share>)
    ensures MintShares(t, tally, d).Ok? <==>
            && AllPositive(d)
            && (d != [] && t.maximum.Some? ==> t.circulating + tally.amount + Shares(d) <= t.maximum.value)
    ensures MintShares(t, tally, d).Ok? ==> MintShares(t, tally, d).value.amount == tally.amount + Shares(d)
    ensures MintShares(t, tally, d).Err? ==>
              match MintShares(t, tally, d).error
              case ZeroShare => !AllPositive(d)
              case OverMaximum => t.maximum.Some? && t.circulating + tally.amount + Shares(d) > t.maximum.value
              case _ => false
    decreases |d|
  {
    if d == [] {
    } else {
      hide Balance, AllPositive;
      PositiveUnfolded(d);
      var next := MintShare(t, tally, d[0]);
      if next.Ok? {
        MintSharesIff(t, next.value, d[1..]);
        NoneLeft(d[1..]);
      }
    }
  }

  lemma NoneLeft(d: seq<Share>)
    ensures d == [] ==> Shares(d) == 0 && AllPositive(d)
  {
  }

  lemma {:induction false} MintSharesEach(t: Token, tally: Tally, d: seq<Share>, id: A.Id)
    requires Once(d) && MintShares(t, tally, d).Ok?
    ensures Value(MintShares(t, tally, d).value.holders, id) ==
              match ShareOf(d, id)
              case None => Value(tally.holders, id)
              case Some(n) => Balance(t.holders, id) + n
    decreases |d|
  {
    if d == [] {
    } else {
      hide Balance;
      var next := MintShare(t, tally, d[0]).value;
      TailOnce(d);
      MintSharesEach(t, next, d[1..], id);
    }
  }

  lemma TailOnce(d: seq<Share>)
    requires Once(d) && d != []
    ensures Once(d[1..]) && ShareOf(d[1..], d[0].who).None?
  {
    assert forall i :: 0 <= i < |d[1..]| ==> d[1..][i] == d[i + 1];
    ShareOfNone(d[1..], d[0].who);
  }

  /**
   * A mint is accepted just when every share is positive and the supply stays within the maximum. It
   * adds to each listed address its share, to no other address anything, and to both supplies the
   * shares together. The anonymous address is taken to have held nothing.
   */
  lemma MintEffect(t: Token, d: Distribution)
    ensures Mint(t, d).Ok? <==>
            AllPositive(d) && (d != [] && t.maximum.Some? ==> t.circulating + Shares(d) <= t.maximum.value)
    ensures Mint(t, d).Err? ==>
              match Mint(t, d).error
              case ZeroShare => !AllPositive(d)
              case OverMaximum => t.maximum.Some? && t.circulating + Shares(d) > t.maximum.value
              case _ => false
    ensures Mint(t, d).Ok? ==>
              var u := Mint(t, d).value;
              && u.total == t.total + Shares(d) && u.circulating == t.circulating + Shares(d)
              && u.maximum == t.maximum
              && forall id :: Value(u.holders, id) ==
                                match ShareOf(d, id)
                                case None => Value(t.holders, id)
                                case Some(n) => (if id == A.ANONYMOUS then 0 else Value(t.holders, id)) + n
  {
    hide MintShares, Shares, ShareOf, AllPositive, Value;
    MintSharesIff(t, Tally(t.holders, 0), d);
    if Mint(t, d).Ok? {
      forall id ensures Value(Mint(t, d).value.holders, id) ==
                        match ShareOf(d, id)
                        case None => Value(t.holders, id)
                        case Some(n) => (if id == A.ANONYMOUS then 0 else Value(t.holders, id)) + n {
        MintSharesEach(t, Tally(t.holders, 0), d, id);
      }
    }
  }

  // -------------------------------------------------------------------------------------------
  // Burning
  // -------------------------------------------------------------------------------------------

  /** Every listed address can pay its share: it is not anonymous and holds that much. */
  predicate Covered(h: Holders, d: seq<Share>) {
    forall i :: 0 <= i < |d| ==> d[i].who != A.ANONYMOUS && d[i].amount <= Value(h, d[i].who)
  }

  lemma CoveredUnfolded(h: Holders, d: seq<Share>)
    requires d != []
    ensures Covered(h, d) <==>
            d[0].who != A.ANONYMOUS && d[0].amount <= Value(h, d[0].who) && Covered(h, d[1..])
  {
    hide Value;
    if d[0].who != A.ANONYMOUS && d[0].amount <= Value(h, d[0].who) && Covered(h, d[1..]) {
      forall i | 0 <= i < |d| ensures d[i].who != A.ANONYMOUS && d[i].amount <= Value(h, d[i].who) {
        if i > 0 { assert d[1..][i - 1] == d[i]; }
      }
    }
  }

  lemma {:induction false} BurnSharesIff(t: Token, tally: Tally, d: seq<Share>)
    ensures BurnShares(t, tally, d).Ok? <==> AllPositive(d) && Covered(t.holders, d)
    ensures BurnShares(t, tally, d).Ok? ==> BurnShares(t, tally, d).value.amount == tally.amount + Shares(d)
    ensures BurnShares(t, tally, d).Err? ==>
              match BurnShares(t, tally, d).error
              case ZeroShare => !AllPositive(d)
              case MissingFunds => !Covered(t.holders, d)
              case _ => false
    decreases |d|
  {
    if d == [] {
    } else {
      hide AllPositive, Covered;
      PositiveUnfolded(d);
      CoveredUnfolded(t.holders, d);
      var next := BurnShare(t, tally, d[0]);
      if next.Ok? {
        BurnSharesIff(t, next.value, d[1..]);
      }
    }
  }

  lemma {:induction false} BurnSharesEach(t: Token, tally: Tally, d: seq<Share>, id: A.Id)
    requires Once(d) && BurnShares(t, tally, d).Ok?
    ensures match ShareOf(d, id)
            case None => Value(BurnShares(t, tally, d).value.holders, id) == Value(tally.holders, id)
            case Some(n) => Value(BurnShares(t, tally, d).value.holders, id) + n == Value(t.holders, id)
    decreases |d|
  {
    if d == [] {
    } else {
      var next := BurnShare(t, tally, d[0]).value;
      TailOnce(d);
      BurnSharesEach(t, next, d[1..], id);
    }
  }

  /**
   * A burn is accepted just when every share is positive and covered. It takes from each listed
   * address its share, from no other address anything, and from both supplies the shares together;
   * it stops where a supply is less than that.
   */
  lemma BurnEffect(t: Token, d: Distribution)
    ensures Burn(t, d).Ok? <==> AllPositive(d) && Covered(t.holders, d)
    ensures Burn(t, d).Err? ==>
              match Burn(t, d).error
              case ZeroShare => !AllPositive(d)
              case MissingFunds => !Covered(t.holders, d)
              case _ => false
    ensures Burn(t, d).Ok? ==>
              (Burn(t, d).value.Some? <==> Shares(d) <= t.circulating && Shares(d) <= t.total)
    ensures Burn(t, d).Ok? && Burn(t, d).value.Some? ==>
              var u := Burn(t, d).value.value;
              && u.total + Shares(d) == t.total && u.circulating + Shares(d) == t.circulating
              && u.maximum == t.maximum
              && forall id :: match ShareOf(d, id)
                              case None => Value(u.holders, id) == Value(t.holders, id)
                              case Some(n) => Value(u.holders, id) + n == Value(t.holders, id)
  {
    hide BurnShares, Shares, ShareOf, AllPositive, Covered, Value;
    BurnSharesIff(t, Tally(t.holders, 0), d);
    if Burn(t, d).Ok? {
      forall id ensures match ShareOf(d, id)
                        case None => Value(BurnShares(t, Tally(t.holders, 0), d).value.holders, id) ==
                                       Value(t.holders, id)
                        case Some(n) => Value(BurnShares(t, Tally(t.holders, 0), d).value.holders, id) + n ==
                                          Value(t.holders, id) {
        BurnSharesEach(t, Tally(t.holders, 0), d, id);
      }
    }
  }

  // -------------------------------------------------------------------------------------------
  // Creation
  // -------------------------------------------------------------------------------------------

  lemma {:induction false} DealtEach(h: Holders, d: seq<Share>, id: A.Id)
    requires Once(d)
    ensures Value(Dealt(h, d), id) == if ShareOf(d, id).Some? then ShareOf(d, id).value else Value(h, id)
    decreases |d|
  {
    if d == [] {
    } else {
      TailOnce(d);
      DealtEach(h[d[0].who := d[0].amount], d[1..], id);
    }
  }

  /** A new token gives each listed address its share and no other address anything. */
  lemma CreatedEffect(d: Distribution, maximum: Option<nat>, id: A.Id)
    ensures var t := Created(d, maximum);
            && Value(t.holders, id) == (if ShareOf(d, id).Some? then ShareOf(d, id).value else 0)
            && t.total == Shares(d) && t.circulating == Shares(d) && t.maximum == maximum
  {
    hide Dealt, Shares, ShareOf;
    DealtEach(map[], d, id);
  }

  /** A distribution gives the address at each place the amount at that place, and the others nothing. */
  lemma ShareOfIs(d: Distribution, id: A.Id, n: nat)
    ensures ShareOf(d, id) == Some(n) <==> Share(id, n) in d
  {
    hide Once;
    ShareOfNone(d, id);
    if Share(id, n) in d {
      var i :| 0 <= i < |d| && d[i] == Share(id, n);
      ShareAt(d, i);
    }
    if ShareOf(d, id) == Some(n) {
      var i :| 0 <= i < |d| && d[i].who == id;
      ShareAt(d, i);
    }
  }
}
