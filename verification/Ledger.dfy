/** Balances and supplies of the ledger's tokens under send, mint and burn. */
module Ledger {
  import opened Wrappers
  import A = Address
  import Keys
  import opened Sums

  type Holders = map<A.Id, nat>

  /** A token: the stored balances, the two supply figures, which move together, and a ceiling. */
  datatype Token = Token(holders: Holders, total: nat, circulating: nat, maximum: Option<nat>)

  datatype Error =
    | DestinationIsSource
    | AmountIsZero
    | AnonymousFunds
    | InsufficientFunds
    | ZeroShare
    | OverMaximum
    | MissingFunds

  datatype Share = Share(who: A.Id, amount: nat)

  /** The iteration order of an address map: each address once. */
  predicate Once(d: seq<Share>) { forall i, j :: 0 <= i < j < |d| ==> d[i].who != d[j].who }

  type Distribution = d: seq<Share> | Once(d)

  function BalanceKey(id: A.Id, symbol: A.Id): string { Keys.Under("/balances/", id, A.ToText(symbol)) }

  /** Every holder and symbol has a key of its own. */
  lemma BalanceKeysDistinct(id: A.Id, symbol: A.Id, id': A.Id, symbol': A.Id)
    ensures BalanceKey(id, symbol) == BalanceKey(id', symbol') <==> id == id' && symbol == symbol'
  {
    Keys.UnderInjective("/balances/", id, A.ToText(symbol), id', A.ToText(symbol'));
    if A.ToText(symbol) == A.ToText(symbol') {
      A.TextInjective(symbol, symbol');
    }
  }

  /** A balance as read: the anonymous address is taken to hold nothing. */
  function Balance(h: Holders, id: A.Id): nat { if A.IsAnonymous(id) then 0 else Value(h, id) }

  function Shares(d: seq<Share>): nat { if d == [] then 0 else d[0].amount + Shares(d[1..]) }

  // -------------------------------------------------------------------------------------------
  // Operations
  // -------------------------------------------------------------------------------------------

  function Send(t: Token, from: A.Id, to: A.Id, amount: nat): Result<Token, Error> {
    if A.Eq(from, to) then Err(DestinationIsSource)
    else if amount == 0 then Err(AmountIsZero)
    else if A.IsAnonymous(to) || A.IsAnonymous(from) then Err(AnonymousFunds)
    else if amount > Balance(t.holders, from) then Err(InsufficientFunds)
    else Ok(t.(holders := Moved(t.holders, from, to, amount)))
  }

  datatype Tally = Tally(holders: Holders, amount: nat)

  /** One share of a mint; balances are read from the store, not from the batch. */
  function MintShare(t: Token, tally: Tally, s: Share): Result<Tally, Error> {
    if s.amount == 0 then Err(ZeroShare)
    else if t.maximum.Some? && t.circulating + tally.amount + s.amount > t.maximum.value then Err(OverMaximum)
    else Ok(Tally(tally.holders[s.who := Balance(t.holders, s.who) + s.amount], tally.amount + s.amount))
  }

  function BurnShare(t: Token, tally: Tally, s: Share): Result<Tally, Error> {
    if s.amount == 0 then Err(ZeroShare)
    else if A.IsAnonymous(s.who) || s.who !in t.holders || t.holders[s.who] < s.amount then Err(MissingFunds)
    else Ok(Tally(tally.holders[s.who := t.holders[s.who] - s.amount], tally.amount + s.amount))
  }

  function MintShares(t: Token, tally: Tally, d: seq<Share>): Result<Tally, Error>
    decreases |d|
  {
    if d == [] then Ok(tally)
    else
      var next :- MintShare(t, tally, d[0]);
      MintShares(t, next, d[1..])
  }

  lemma MintTurn(t: Token, tally: Tally, d: seq<Share>, i: nat)
    requires i < |d|
    ensures MintShares(t, tally, d[i..]) ==
            var r := MintShare(t, tally, d[i]);
            if r.Ok? then MintShares(t, r.value, d[i + 1..]) else Err(r.error)
  {
    hide MintShare;
    assert d[i..][0] == d[i] && d[i..][1..] == d[i + 1..];
  }

  function BurnShares(t: Token, tally: Tally, d: seq<Share>): Result<Tally, Error>
    decreases |d|
  {
    if d == [] then Ok(tally)
    else
      var next :- BurnShare(t, tally, d[0]);
      BurnShares(t, next, d[1..])
  }

  lemma BurnTurn(t: Token, tally: Tally, d: seq<Share>, i: nat)
    requires i < |d|
    ensures BurnShares(t, tally, d[i..]) ==
            var r := BurnShare(t, tally, d[i]);
            if r.Ok? then BurnShares(t, r.value, d[i + 1..]) else Err(r.error)
  {
    hide BurnShare;
    assert d[i..][0] == d[i] && d[i..][1..] == d[i + 1..];
  }

  lemma NoShares(t: Token, tally: Tally, d: seq<Share>)
    ensures MintShares(t, tally, d[|d|..]) == Ok(tally) && BurnShares(t, tally, d[|d|..]) == Ok(tally)
  {
  }

  /** None where the subtraction of unsigned amounts would fall below zero. */
  function Subtract(a: nat, b: nat): Option<nat> { if b <= a then Some(a - b) else None }

  function Mint(t: Token, d: Distribution): Result<Token, Error> {
    var r :- MintShares(t, Tally(t.holders, 0), d);
    Ok(Token(r.holders, t.total + r.amount, t.circulating + r.amount, t.maximum))
  }

  /** `Ok(None)` stands for the failed subtraction. */
  function Burn(t: Token, d: Distribution): Result<Option<Token>, Error> {
    var r :- BurnShares(t, Tally(t.holders, 0), d);
    var c, n := Subtract(t.circulating, r.amount), Subtract(t.total, r.amount);
    Ok(if c.Some? && n.Some? then Some(Token(r.holders, n.value, c.value, t.maximum)) else None)
  }

  // -------------------------------------------------------------------------------------------
  // Accounts
  // -------------------------------------------------------------------------------------------

  lemma SendConserves(t: Token, from: A.Id, to: A.Id, amount: nat)
    requires Send(t, from, to, amount).Ok?
    ensures Sum(Send(t, from, to, amount).value.holders) == Sum(t.holders)
    ensures var h := Send(t, from, to, amount).value.holders;
            && Value(h, from) + amount == Value(t.holders, from)
            && Value(h, to) == Value(t.holders, to) + amount
            && forall id :: id != from && id != to ==> Value(h, id) == Value(t.holders, id)
  {
    hide Sum, A.Eq, A.IsAnonymous, A.Valid, Moved, Value;
    A.EqIsByteEquality(from, to);
    MovedSum(t.holders, from, to, amount);
  }

  /** What a mint overwrites: the balance stored for the anonymous address, where it has a share. */
  function Overwritten(h: Holders, d: seq<Share>): nat {
    if d == [] then 0
    else Wiped(h, d[0].who) + Overwritten(h, d[1..])
  }

  predicate Agree(h: Holders, g: Holders, d: seq<Share>) {
    forall i :: 0 <= i < |d| ==> Value(h, d[i].who) == Value(g, d[i].who)
  }

  function Wiped(h: Holders, id: A.Id): nat { if A.IsAnonymous(id) then Value(h, id) else 0 }

  lemma MintShareSum(t: Token, tally: Tally, s: Share)
    requires MintShare(t, tally, s).Ok? && Value(tally.holders, s.who) == Value(t.holders, s.who)
    ensures var r := MintShare(t, tally, s).value;
            && r.amount == tally.amount + s.amount
            && Sum(r.holders) + Wiped(t.holders, s.who) == Sum(tally.holders) + s.amount
            && (t.maximum.Some? ==> t.circulating + r.amount <= t.maximum.value)
            && forall id :: id != s.who ==> Value(r.holders, id) == Value(tally.holders, id)
  {
    hide Sum, A.IsAnonymous;
    SumSet(tally.holders, s.who, Balance(t.holders, s.who) + s.amount);
  }

  lemma BurnShareSum(t: Token, tally: Tally, s: Share)
    requires BurnShare(t, tally, s).Ok? && Value(tally.holders, s.who) == Value(t.holders, s.who)
    ensures var r := BurnShare(t, tally, s).value;
            && r.amount == tally.amount + s.amount
            && Sum(r.holders) + s.amount == Sum(tally.holders)
            && forall id :: id != s.who ==> Value(r.holders, id) == Value(tally.holders, id)
  {
    hide Sum, A.IsAnonymous;
    SumSet(tally.holders, s.who, t.holders[s.who] - s.amount);
  }

  lemma AgreeOn(t: Token, before: Holders, after: Holders, d: seq<Share>)
    requires d != [] && Once(d) && Agree(before, t.holders, d)
    requires forall id :: id != d[0].who ==> Value(after, id) == Value(before, id)
    ensures Once(d[1..]) && Agree(after, t.holders, d[1..])
  {
    hide Value;
    assert forall i :: 0 <= i < |d[1..]| ==> d[1..][i] == d[i + 1];
  }

  lemma {:induction false} MintSum(t: Token, tally: Tally, d: seq<Share>)
    requires Once(d) && Agree(tally.holders, t.holders, d) && MintShares(t, tally, d).Ok?
    ensures var r := MintShares(t, tally, d).value;
            && r.amount == tally.amount + Shares(d)
            && Sum(r.holders) + Overwritten(t.holders, d) == Sum(tally.holders) + Shares(d)
            && (d != [] && t.maximum.Some? ==> t.circulating + r.amount <= t.maximum.value)
    decreases |d|
  {
    hide Sum, MintShare, Wiped, Once, Value;
    if d == [] {
    } else {
      var next := MintShare(t, tally, d[0]).value;
      MintShareSum(t, tally, d[0]);
      AgreeOn(t, tally.holders, next.holders, d);
      MintSum(t, next, d[1..]);
      MintNothing(t, next, d[1..]);
    }
  }

  lemma {:induction false} BurnSum(t: Token, tally: Tally, d: seq<Share>)
    requires Once(d) && Agree(tally.holders, t.holders, d) && BurnShares(t, tally, d).Ok?
    ensures var r := BurnShares(t, tally, d).value;
            r.amount == tally.amount + Shares(d) && Sum(r.holders) + Shares(d) == Sum(tally.holders)
    decreases |d|
  {
    hide Sum, BurnShare, Once, Value;
    if d == [] {
    } else {
      var next := BurnShare(t, tally, d[0]).value;
      BurnShareSum(t, tally, d[0]);
      AgreeOn(t, tally.holders, next.holders, d);
      BurnSum(t, next, d[1..]);
    }
  }

  /** The figure for the supply and the balances agree. */
  ghost predicate Conserved(t: Token) { t.circulating == Sum(t.holders) }

  /** A mint keeps them in agreement just when it overwrites no balance of the anonymous address. */
  lemma MintConservesIff(t: Token, d: Distribution)
    requires Conserved(t) && Mint(t, d).Ok?
    ensures Conserved(Mint(t, d).value) <==> Overwritten(t.holders, d) == 0
  {
    hide Sum, MintShares, Shares, Overwritten;
    MintSum(t, Tally(t.holders, 0), d);
  }

  // -------------------------------------------------------------------------------------------
  // Runs
  // -------------------------------------------------------------------------------------------

  datatype Command =
    | SendCommand(from: A.Id, to: A.Id, amount: nat)
    | MintCommand(shares: Distribution)
    | BurnCommand(shares: Distribution)

  /** What a command makes of a token; a refused one leaves it, and so would a failed subtraction. */
  function Next(t: Token, c: Command): Token {
    match c
    case SendCommand(from, to, amount) => var r := Send(t, from, to, amount); if r.Ok? then r.value else t
    case MintCommand(d) => var r := Mint(t, d); if r.Ok? then r.value else t
    case BurnCommand(d) => var r := Burn(t, d); if r.Ok? && r.value.Some? then r.value.value else t
  }

  function Run(t: Token, cs: seq<Command>): Token
    decreases |cs|
  {
    if cs == [] then t else Run(Next(t, cs[0]), cs[1..])
  }

  /** What one command overwrites, and what a run does. */
  function Loss(t: Token, c: Command): nat {
    if c.MintCommand? && Mint(t, c.shares).Ok? then Overwritten(t.holders, c.shares) else 0
  }

  function Losses(t: Token, cs: seq<Command>): nat
    decreases |cs|
  {
    if cs == [] then 0 else Loss(t, cs[0]) + Losses(Next(t, cs[0]), cs[1..])
  }

  /** The supply figures are the balances and what was lost on the way. */
  ghost predicate Accounted(t: Token, lost: nat) {
    t.circulating == Sum(t.holders) + lost && t.total == t.circulating
  }

  lemma BurnFits(t: Token, d: Distribution, lost: nat)
    requires Accounted(t, lost) && Burn(t, d).Ok?
    ensures Burn(t, d).value.Some? && Accounted(Burn(t, d).value.value, lost)
  {
    hide Sum, BurnShares, Shares;
    BurnSum(t, Tally(t.holders, 0), d);
  }

  lemma NextAccounted(t: Token, c: Command, lost: nat)
    requires Accounted(t, lost)
    ensures Accounted(Next(t, c), lost + Loss(t, c))
    ensures c.BurnCommand? && Burn(t, c.shares).Ok? ==> Burn(t, c.shares).value.Some?
  {
    hide Sum, MintShares, BurnShares, Shares, Overwritten, Send;
    match c
    case SendCommand(from, to, amount) =>
      if Send(t, from, to, amount).Ok? {
        SendConserves(t, from, to, amount);
        SendKeepsSupply(t, from, to, amount);
      }
    case MintCommand(d) =>
      if Mint(t, d).Ok? {
        MintSum(t, Tally(t.holders, 0), d);
      }
    case BurnCommand(d) =>
      if Burn(t, d).Ok? {
        BurnFits(t, d, lost);
      }
  }

  lemma SendKeepsSupply(t: Token, from: A.Id, to: A.Id, amount: nat)
    requires Send(t, from, to, amount).Ok?
    ensures var u := Send(t, from, to, amount).value;
            u.total == t.total && u.circulating == t.circulating && u.maximum == t.maximum
  {
    hide A.Eq, Balance;
  }

  /**
   * Conservation. After every run of sends, mints and burns the circulating supply is the sum of
   * all balances plus exactly what mints have overwritten at the anonymous address.
   */
  lemma {:induction false} RunAccounted(t: Token, cs: seq<Command>, lost: nat)
    requires Accounted(t, lost)
    ensures Accounted(Run(t, cs), lost + Losses(t, cs))
    decreases |cs|
  {
    hide Accounted, Next, Loss;
    if cs == [] {
    } else {
      NextAccounted(t, cs[0], lost);
      RunAccounted(Next(t, cs[0]), cs[1..], lost + Loss(t, cs[0]));
    }
  }

  /** The balances make up the supply after a run just when nothing was overwritten in it. */
  lemma RunConservesIff(t: Token, cs: seq<Command>)
    requires Accounted(t, 0)
    ensures Conserved(Run(t, cs)) <==> Losses(t, cs) == 0
  {
    hide Run, Losses, Sum;
    RunAccounted(t, cs, 0);
  }

  /** In every run a burn that finds the funds also finds the supply: no subtraction fails. */
  lemma BurnNeverUnderflows(t: Token, cs: seq<Command>, d: Distribution)
    requires Accounted(t, 0) && Burn(Run(t, cs), d).Ok?
    ensures Burn(Run(t, cs), d).value.Some?
  {
    hide Run, Losses, Accounted, Burn;
    RunAccounted(t, cs, 0);
    BurnFits(Run(t, cs), d, Losses(t, cs));
  }

  predicate WithinMaximum(t: Token) { t.maximum.Some? ==> t.circulating <= t.maximum.value }

  /** A supply within its maximum stays so. */
  lemma {:induction false} StaysWithinMaximum(t: Token, cs: seq<Command>)
    requires WithinMaximum(t)
    ensures WithinMaximum(Run(t, cs)) && Run(t, cs).maximum == t.maximum
    decreases |cs|
  {
    hide Next;
    if cs == [] {
    } else {
      NextWithinMaximum(t, cs[0]);
      StaysWithinMaximum(Next(t, cs[0]), cs[1..]);
    }
  }

  lemma NextWithinMaximum(t: Token, c: Command)
    requires WithinMaximum(t)
    ensures WithinMaximum(Next(t, c)) && Next(t, c).maximum == t.maximum
  {
    hide MintShares, BurnShares, Shares, Overwritten, Send, Sum;
    match c
    case SendCommand(from, to, amount) =>
      if Send(t, from, to, amount).Ok? {
        SendKeepsSupply(t, from, to, amount);
      }
    case MintCommand(d) =>
      if Mint(t, d).Ok? {
        MintSum(t, Tally(t.holders, 0), d);
        MintNothing(t, Tally(t.holders, 0), d);
      }
    case BurnCommand(d) =>
  }

  lemma MintNothing(t: Token, tally: Tally, d: seq<Share>)
    ensures d == [] ==> MintShares(t, tally, d) == Ok(tally)
  {
  }

  // -------------------------------------------------------------------------------------------
  // The ledger object
  // -------------------------------------------------------------------------------------------

  class TokenStore {
    var token: Token

    constructor (token: Token)
      ensures this.token == token
    {
      this.token := token;
    }

    method SendTokens(from: A.Id, to: A.Id, amount: nat) returns (error: Option<Error>)
      modifies this
      ensures token == Next(old(token), SendCommand(from, to, amount))
      ensures error == var r := Send(old(token), from, to, amount); if r.Err? then Some(r.error) else None
    {
      hide A.Eq, A.IsAnonymous, A.Valid;
      if A.Eq(from, to) {
        return Some(DestinationIsSource);
      }
      if amount == 0 {
        return Some(AmountIsZero);
      }
      if A.IsAnonymous(to) || A.IsAnonymous(from) {
        return Some(AnonymousFunds);
      }
      var amountFrom := Balance(token.holders, from);
      if amount > amountFrom {
        return Some(InsufficientFunds);
      }
      var amountTo := Balance(token.holders, to);
      token := token.(holders := token.holders[from := amountFrom - amount][to := amountTo + amount]);
      return None;
    }

    method MintTokens(d: Distribution) returns (error: Option<Error>)
      modifies this
      ensures token == Next(old(token), MintCommand(d))
      ensures error == var r := Mint(old(token), d); if r.Err? then Some(r.error) else None
    {
      hide MintShares, BurnShares, Once, A.IsAnonymous;
      var batch: Holders := token.holders;
      var circulating: nat := 0;
      assert d[0..] == d;
      for i := 0 to |d|
        invariant token == old(token)
        invariant MintShares(token, Tally(batch, circulating), d[i..]) == MintShares(token, Tally(token.holders, 0), d)
      {
        MintTurn(token, Tally(batch, circulating), d, i);
        if d[i].amount == 0 {
          return Some(ZeroShare);
        }
        if token.maximum.Some? && token.circulating + circulating + d[i].amount > token.maximum.value {
          return Some(OverMaximum);
        }
        batch := batch[d[i].who := Balance(token.holders, d[i].who) + d[i].amount];
        circulating := circulating + d[i].amount;
      }
      NoShares(token, Tally(batch, circulating), d);
      token := Token(batch, token.total + circulating, token.circulating + circulating, token.maximum);
      return None;
    }

    /** `stopped` where the subtraction of a supply fails. */
    method BurnTokens(d: Distribution) returns (error: Option<Error>, stopped: bool)
      modifies this
      ensures token == Next(old(token), BurnCommand(d))
      ensures error == var r := Burn(old(token), d); if r.Err? then Some(r.error) else None
      ensures stopped <==> Burn(old(token), d) == Ok(None)
    {
      hide MintShares, BurnShares, Once, A.IsAnonymous;
      stopped := false;
      var batch: Holders := token.holders;
      var circulating: nat := 0;
      assert d[0..] == d;
      for i := 0 to |d|
        invariant token == old(token) && !stopped
        invariant BurnShares(token, Tally(batch, circulating), d[i..]) == BurnShares(token, Tally(token.holders, 0), d)
      {
        BurnTurn(token, Tally(batch, circulating), d, i);
        if d[i].amount == 0 {
          return Some(ZeroShare), false;
        }
        if A.IsAnonymous(d[i].who) || d[i].who !in token.holders || token.holders[d[i].who] < d[i].amount {
          return Some(MissingFunds), false;
        }
        batch := batch[d[i].who := token.holders[d[i].who] - d[i].amount];
        circulating := circulating + d[i].amount;
      }
      NoShares(token, Tally(batch, circulating), d);
      if token.circulating < circulating || token.total < circulating {
        return None, true;
      }
      token := Token(batch, token.total - circulating, token.circulating - circulating, token.maximum);
      return None, false;
    }
  }

  // -------------------------------------------------------------------------------------------
  // Creation
  // -------------------------------------------------------------------------------------------

  function Dealt(h: Holders, d: seq<Share>): Holders
    decreases |d|
  {
    if d == [] then h else Dealt(h[d[0].who := d[0].amount], d[1..])
  }

  /** A new token: the initial distribution is written as it stands. */
  function Created(d: Distribution, maximum: Option<nat>): Token {
    Token(Dealt(map[], d), Shares(d), Shares(d), maximum)
  }

  method CreateToken(d: Distribution, maximum: Option<nat>) returns (t: Token)
    ensures t == Created(d, maximum)
  {
    hide Once;
    var batch: Holders := map[];
    var supply: nat := 0;
    for i := 0 to |d|
      invariant Dealt(batch, d[i..]) == Dealt(map[], d)
      invariant supply + Shares(d[i..]) == Shares(d)
    {
      assert d[i..][0] == d[i] && d[i..][1..] == d[i + 1..];
      batch := batch[d[i].who := d[i].amount];
      supply := supply + d[i].amount;
    }
    t := Token(batch, supply, supply, maximum);
  }

  lemma {:induction false} DealtSum(h: Holders, d: seq<Share>)
    requires Once(d) && forall i :: 0 <= i < |d| ==> d[i].who !in h
    ensures Sum(Dealt(h, d)) == Sum(h) + Shares(d)
    decreases |d|
  {
    hide Sum;
    if d == [] {
    } else {
      SumSet(h, d[0].who, d[0].amount);
      assert forall i :: 0 <= i < |d[1..]| ==> d[1..][i] == d[i + 1];
      DealtSum(h[d[0].who := d[0].amount], d[1..]);
    }
  }

  /** From its creation on, in every run, the supply of a token is its balances and what was overwritten. */
  lemma AccountedSinceCreation(d: Distribution, maximum: Option<nat>, cs: seq<Command>)
    ensures var t := Created(d, maximum);
            Accounted(Run(t, cs), Losses(t, cs))
  {
    hide Run, Losses, Dealt, Sum, Shares;
    DealtSum(map[], d);
    NobodyHolds();
    RunAccounted(Created(d, maximum), cs, 0);
  }

  lemma NobodyHolds()
    ensures Sum<A.Id>(map[]) == 0
  {
  }

  /** Creation does not look at the maximum: it is kept from then on just when the distribution kept it. */
  lemma MaximumSinceCreation(d: Distribution, maximum: nat, cs: seq<Command>)
    ensures Shares(d) <= maximum ==> Run(Created(d, Some(maximum)), cs).circulating <= maximum
    ensures Shares(d) > maximum ==> Run(Created(d, Some(maximum)), []).circulating > maximum
  {
    hide Shares, Dealt, Next;
    if Shares(d) <= maximum {
      StaysWithinMaximum(Created(d, Some(maximum)), cs);
    }
  }

  /** Such a loss is real: a token created for the anonymous address and minted to it again. */
  lemma AnonymousLoses(n: nat, m: nat)
    requires m > 0
    ensures var t := Run(Created([Share(Nobody(), n)], None), [MintCommand([Share(Nobody(), m)])]);
            t.circulating == n + m && Sum(t.holders) == m &&
              Losses(Created([Share(Nobody(), n)], None), [MintCommand([Share(Nobody(), m)])]) == n
  {
    hide Sum, A.IsAnonymous, Nobody;
    var first, second := Share(Nobody(), n), Share(Nobody(), m);
    var t := Created([first], None);
    OneShare(map[], first);
    assert t.holders == map[Nobody() := n];
    OneShare(t.holders, second);
    OneMint(t, second);
    OneCommand(t, MintCommand([second]));
    SumSet(map[], Nobody(), m);
    NobodyHolds();
    assert t.holders[Nobody() := m] == map[Nobody() := m];
  }

  lemma OneShare(h: Holders, s: Share)
    ensures Shares([s]) == s.amount && Dealt(h, [s]) == h[s.who := s.amount] && Overwritten(h, [s]) == Wiped(h, s.who)
  {
    assert [s][1..] == [];
    assert Shares([s][1..]) == 0 && Dealt(h[s.who := s.amount], [s][1..]) == h[s.who := s.amount] &&
           Overwritten(h, [s][1..]) == 0;
  }

  lemma OneMint(t: Token, s: Share)
    ensures var d: Distribution := [s];
            MintShares(t, Tally(t.holders, 0), d) == MintShare(t, Tally(t.holders, 0), s)
  {
    hide MintShare;
    assert [s][1..] == [];
    var r := MintShare(t, Tally(t.holders, 0), s);
    if r.Ok? {
      MintNothing(t, r.value, [s][1..]);
    }
  }

  lemma OneCommand(t: Token, c: Command)
    ensures Run(t, [c]) == Next(t, c) && Losses(t, [c]) == Loss(t, c)
  {
    hide Next, Loss;
    assert [c][1..] == [];
    assert Run(Next(t, c), [c][1..]) == Next(t, c) && Losses(Next(t, c), [c][1..]) == 0;
  }

  function Nobody(): (a: A.Id)
    ensures A.IsAnonymous(a)
  {
    A.ANONYMOUS
  }
}
