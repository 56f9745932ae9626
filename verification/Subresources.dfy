/** The allocator of fresh subresource addresses for accounts and tokens. */
module Subresources {
  import opened Wrappers
  import A = Address

  const IDENTITY_ROOT := "/config/identity"
  const ACCOUNT_IDENTITY_ROOT := "/config/account_identity"
  const TOKEN_IDENTITY_ROOT := "/config/token_identity"
  const ACCOUNT_SUBRESOURCE_ID_ROOT := "/config/account_id"

  datatype Error = Exhausted | KeyNotFound | NoSubresources

  /** The stored counters and identities, by store key, and the token symbols in use. */
  datatype State = State(counters: map<string, nat>, identities: map<string, A.Id>, symbols: set<A.Address>)

  /** One counter for each identity since the token migration, a single one before it. */
  function CounterKey(id: A.Id, tokens: bool): string {
    if tokens then "/config/subresource_counter/" + A.ToText(id) else ACCOUNT_SUBRESOURCE_ID_ROOT
  }

  function Counter(s: State, id: A.Id, tokens: bool): nat {
    if CounterKey(id, tokens) in s.counters then s.counters[CounterKey(id, tokens)] else 0
  }

  function IdentityAt(s: State, root: string): Option<A.Id> {
    if root in s.identities then Some(s.identities[root])
    else if IDENTITY_ROOT in s.identities then Some(s.identities[IDENTITY_ROOT])
    else None
  }

  predicate HasSubresources(a: A.Id) { A.IsPublicKey(a) || A.IsSubresource(a) }

  predicate Taken(s: State, a: A.Id, id: nat)
    requires HasSubresources(a) && id <= A.MAX_SUBRESOURCE_ID
  {
    At(a, id) in s.symbols
  }

  function At(a: A.Id, id: nat): (r: A.Address)
    requires HasSubresources(a) && id <= A.MAX_SUBRESOURCE_ID
    ensures A.SubresourceId(r) == Some(id) && A.KeyHash(r) == A.KeyHash(a) && A.KeyHash(a).Some?
  {
    A.SubresourceExact(a, id);
    A.WithSubresourceId(a, id).value
  }

  /** The least id at or above the counter whose address is not a symbol. */
  predicate IsLeast(s: State, a: A.Id, from: nat, id: nat)
    requires HasSubresources(a)
  {
    && from <= id <= A.MAX_SUBRESOURCE_ID
    && !Taken(s, a, id)
    && forall k :: from <= k < id ==> Taken(s, a, k)
  }

  predicate AllTaken(s: State, a: A.Id, from: nat)
    requires HasSubresources(a)
  {
    forall k :: from <= k <= A.MAX_SUBRESOURCE_ID ==> Taken(s, a, k)
  }

  datatype Grant = Grant(identity: A.Id, id: nat, address: A.Address)

  /** The allocation, as a relation between the state before, the answer and the state after. */
  ghost predicate Allocates(s: State, tokens: bool, root: string, r: Result<Grant, Error>, t: State) {
    var identity := IdentityAt(s, root);
    if identity.None? then r == Err(KeyNotFound) && t == s
    else
      var a := identity.value;
      var from := Counter(s, a, tokens);
      if from > A.MAX_SUBRESOURCE_ID then r == Err(Exhausted) && t == s
      else if !HasSubresources(a) then r == Err(NoSubresources) && t == s
      else match r
        case Err(e) => e == Exhausted && AllTaken(s, a, from) && t == s
        case Ok(g) =>
          && g.identity == a && IsLeast(s, a, from, g.id) && g.address == At(a, g.id)
          && t == s.(counters := s.counters[CounterKey(a, tokens) := g.id + 1])
  }

  class Allocator {
    var state: State

    constructor (state: State)
      ensures this.state == state
    {
      this.state := state;
    }

    method NextSubresource(tokens: bool, root: string) returns (r: Result<Grant, Error>)
      modifies this
      ensures Allocates(old(state), tokens, root, r, state)
    {
      hide A.WithSubresourceId, A.SubresourceId, A.KeyHash, CounterKey, At;
      var identity := IdentityAt(state, root);
      if identity.None? {
        return Err(KeyNotFound);
      }
      var a := identity.value;
      var id := Counter(state, a, tokens);
      if id > A.MAX_SUBRESOURCE_ID {
        return Err(Exhausted);
      }
      if !HasSubresources(a) {
        return Err(NoSubresources);
      }
      ghost var from := id;
      var next := At(a, id);
      while next in state.symbols
        invariant from <= id <= A.MAX_SUBRESOURCE_ID && next == At(a, id)
        invariant state == old(state)
        invariant forall k :: from <= k < id ==> Taken(state, a, k)
        decreases A.MAX_SUBRESOURCE_ID - id
      {
        assert Taken(state, a, id);
        id := id + 1;
        if id > A.MAX_SUBRESOURCE_ID {
          return Err(Exhausted);
        }
        next := At(a, id);
      }
      state := state.(counters := state.counters[CounterKey(a, tokens) := id + 1]);
      return Ok(Grant(a, id, next));
    }
  }

  lemma LeastIsOne(s: State, a: A.Id, from: nat, x: nat, y: nat)
    requires HasSubresources(a) && IsLeast(s, a, from, x) && IsLeast(s, a, from, y)
    ensures x == y
  {
  }

  /** The answer is the only one: the relation is a function. */
  lemma AllocatesOne(s: State, tokens: bool, root: string, r: Result<Grant, Error>, t: State, q: Result<Grant,
      Error>, u: State)
    requires Allocates(s, tokens, root, r, t) && Allocates(s, tokens, root, q, u)
    ensures r == q && t == u
  {
    hide A.WithSubresourceId, CounterKey, At, Counter, IsLeast, A.SubresourceId, A.KeyHash;
    if IdentityAt(s, root).Some? && HasSubresources(IdentityAt(s, root).value) {
      ExhaustedIff(s, tokens, root, r, t);
      ExhaustedIff(s, tokens, root, q, u);
    }
    if r.Ok? && q.Ok? {
      var a := IdentityAt(s, root).value;
      LeastIsOne(s, a, Counter(s, a, tokens), r.value.id, q.value.id);
    }
  }

  /** At one moment: exhaustion is reported just when every id from the counter up is a symbol. */
  lemma ExhaustedIff(s: State, tokens: bool, root: string, r: Result<Grant, Error>, t: State)
    requires Allocates(s, tokens, root, r, t)
    requires IdentityAt(s, root).Some? && HasSubresources(IdentityAt(s, root).value)
    ensures r == Err(Exhausted) <==>
            AllTaken(s, IdentityAt(s, root).value, Counter(s, IdentityAt(s, root).value, tokens))
  {
    hide A.WithSubresourceId, CounterKey, At, Counter;
    if r.Ok? {
      var a := IdentityAt(s, root).value;
      assert !Taken(s, a, r.value.id);
    }
  }

  // -------------------------------------------------------------------------------------------
  // Runs
  // -------------------------------------------------------------------------------------------

  /** Allocations, with other commands in between that may change symbols and identities. */
  datatype Event =
    | Allocate(root: string, answer: Result<Grant, Error>)
    | Other(identities: map<string, A.Id>, symbols: set<A.Address>)

  ghost predicate Step(tokens: bool, s: State, e: Event, t: State) {
    match e
    case Allocate(root, answer) => Allocates(s, tokens, root, answer, t)
    case Other(identities, symbols) => t == State(s.counters, identities, symbols)
  }

  /** A run: the states it passes through and what happened between each and the next. */
  ghost predicate IsRun(tokens: bool, states: seq<State>, events: seq<Event>) {
    |states| == |events| + 1 && forall i :: 0 <= i < |events| ==> Step(tokens, states[i], events[i], states[i + 1])
  }

  lemma CounterGrows(tokens: bool, s: State, e: Event, t: State, id: A.Id)
    requires Step(tokens, s, e, t)
    ensures Counter(s, id, tokens) <= Counter(t, id, tokens)
    ensures e.Allocate? && e.answer.Ok? && CounterKey(e.answer.value.identity, tokens) == CounterKey(id, tokens) ==>
            Counter(s, id, tokens) <= e.answer.value.id < Counter(t, id, tokens)
  {
    hide A.WithSubresourceId, CounterKey, At;
  }

  lemma {:induction false} CounterGrowsOver(tokens: bool, states: seq<State>, events: seq<Event>, i: nat, j: nat,
      id: A.Id)
    requires IsRun(tokens, states, events) && i <= j < |states|
    ensures Counter(states[i], id, tokens) <= Counter(states[j], id, tokens)
    decreases j
  {
    hide Counter, Step;
    if i < j {
      CounterGrowsOver(tokens, states, events, i, j - 1, id);
      CounterGrows(tokens, states[j - 1], events[j - 1], states[j], id);
    }
  }

  predicate Granted(events: seq<Event>, i: nat) { i < |events| && events[i].Allocate? && events[i].answer.Ok? }

  /** Two grants on one counter come in the order of their ids. */
  lemma GrantsIncrease(tokens: bool, states: seq<State>, events: seq<Event>, i: nat, j: nat)
    requires IsRun(tokens, states, events) && i < j && Granted(events, i) && Granted(events, j)
    requires CounterKey(events[i].answer.value.identity, tokens) == CounterKey(events[j].answer.value.identity, tokens)
    ensures events[i].answer.value.id < events[j].answer.value.id
  {
    hide Counter, Step, CounterKey;
    var id := events[i].answer.value.identity;
    CounterGrows(tokens, states[i], events[i], states[i + 1], id);
    CounterGrowsOver(tokens, states, events, i + 1, j, id);
    CounterGrows(tokens, states[j], events[j], states[j + 1], id);
  }

  /**
   * The id was passed by an earlier grant on this counter: it was the one granted, or it was below
   * that one and a symbol had its address.
   */
  ghost predicate PassedBy(tokens: bool, states: seq<State>, events: seq<Event>, i: nat, id: A.Id, k: nat)
    requires |states| == |events| + 1
  {
    && Granted(events, i)
    && var g := events[i].answer.value;
       && CounterKey(g.identity, tokens) == CounterKey(id, tokens)
       && (k == g.id || (k < g.id <= A.MAX_SUBRESOURCE_ID && HasSubresources(g.identity) &&
         Taken(states[i], g.identity, k)))
  }

  ghost predicate Passed(tokens: bool, states: seq<State>, events: seq<Event>, j: nat, id: A.Id, k: nat)
    requires |states| == |events| + 1
  {
    exists i :: 0 <= i < j && PassedBy(tokens, states, events, i, id, k)
  }

  lemma StepPasses(tokens: bool, states: seq<State>, events: seq<Event>, j: nat, id: A.Id, k: nat)
    requires IsRun(tokens, states, events) && j < |events|
    requires Counter(states[j], id, tokens) <= k < Counter(states[j + 1], id, tokens)
    ensures PassedBy(tokens, states, events, j, id, k)
  {
    hide A.WithSubresourceId, A.SubresourceId, A.KeyHash, CounterKey, At;
    assert Step(tokens, states[j], events[j], states[j + 1]);
  }

  /** Along every run, each id below a counter that was not below it at the start has been passed. */
  lemma {:induction false} BelowIsPassed(tokens: bool, states: seq<State>, events: seq<Event>, j: nat, id: A.Id, k: nat)
    requires IsRun(tokens, states, events) && j < |states|
    requires Counter(states[0], id, tokens) <= k < Counter(states[j], id, tokens)
    ensures Passed(tokens, states, events, j, id, k)
    decreases j
  {
    hide Counter, PassedBy, Step;
    if j == 0 {
    } else if k < Counter(states[j - 1], id, tokens) {
      BelowIsPassed(tokens, states, events, j - 1, id, k);
      var i :| 0 <= i < j - 1 && PassedBy(tokens, states, events, i, id, k);
      assert PassedBy(tokens, states, events, i, id, k);
    } else {
      StepPasses(tokens, states, events, j - 1, id, k);
      assert PassedBy(tokens, states, events, j - 1, id, k);
    }
  }

  lemma PassedIsBelow(tokens: bool, states: seq<State>, events: seq<Event>, j: nat, id: A.Id, k: nat)
    requires IsRun(tokens, states, events) && j < |states| && Passed(tokens, states, events, j, id, k)
    ensures k < Counter(states[j], id, tokens)
  {
    hide Counter, Step, CounterKey;
    var i :| 0 <= i < j && PassedBy(tokens, states, events, i, id, k);
    assert Step(tokens, states[i], events[i], states[i + 1]);
    CounterGrows(tokens, states[i], events[i], states[i + 1], id);
    CounterGrowsOver(tokens, states, events, i + 1, j, id);
  }

  /**
   * Along every run an identity is exhausted just when each of its ids, from where the run began, has
   * been passed by an earlier grant or is a symbol now.
   */
  lemma ExhaustedOverRun(tokens: bool, states: seq<State>, events: seq<Event>, j: nat, a: A.Id)
    requires IsRun(tokens, states, events) && j < |events| && events[j].Allocate?
    requires IdentityAt(states[j], events[j].root) == Some(a) && HasSubresources(a)
    ensures events[j].answer == Err(Exhausted) <==>
            forall k :: Counter(states[0], a, tokens) <= k <= A.MAX_SUBRESOURCE_ID ==>
                          Passed(tokens, states, events, j, a, k) || Taken(states[j], a, k)
  {
    hide Counter, CounterKey, Passed, Taken, Allocates, HasSubresources;
    assert Step(tokens, states[j], events[j], states[j + 1]);
    ExhaustedIff(states[j], tokens, events[j].root, events[j].answer, states[j + 1]);
    CounterGrowsOver(tokens, states, events, 0, j, a);
    var from := Counter(states[j], a, tokens);
    forall k | Counter(states[0], a, tokens) <= k <= A.MAX_SUBRESOURCE_ID
      ensures Passed(tokens, states, events, j, a, k) <==> k < from
    {
      if k < from {
        BelowIsPassed(tokens, states, events, j, a, k);
      }
      if Passed(tokens, states, events, j, a, k) {
        PassedIsBelow(tokens, states, events, j, a, k);
      }
    }
  }

  lemma GrantShape(tokens: bool, states: seq<State>, events: seq<Event>, i: nat)
    requires IsRun(tokens, states, events) && Granted(events, i)
    ensures var g := events[i].answer.value;
            && g.id <= A.MAX_SUBRESOURCE_ID
            && A.SubresourceId(g.address) == Some(g.id)
            && A.KeyHash(g.address) == A.KeyHash(g.identity) && A.KeyHash(g.identity).Some?
            && g.address == A.Subresource(A.KeyHash(g.identity).value, g.id)
  {
    hide CounterKey, A.Subresource;
    assert Step(tokens, states[i], events[i], states[i + 1]);
  }

  /** Counters are shared before the token migration and kept apart since. */
  lemma CounterKeys(a: A.Id, b: A.Id, tokens: bool)
    ensures CounterKey(a, tokens) == CounterKey(b, tokens) <==> !tokens || a == b
  {
    if tokens && CounterKey(a, tokens) == CounterKey(b, tokens) {
      var root := "/config/subresource_counter/";
      assert A.ToText(a) == (root + A.ToText(a))[|root|..] && A.ToText(b) == (root + A.ToText(b))[|root|..];
      A.TextInjective(a, b);
    }
  }

  /** Two grants of a run have one address just when their ids and the keys of their identities are equal. */
  lemma SameAddressIff(tokens: bool, states: seq<State>, events: seq<Event>, i: nat, j: nat)
    requires IsRun(tokens, states, events) && Granted(events, i) && Granted(events, j)
    ensures var g, k := events[i].answer.value, events[j].answer.value;
            g.address == k.address <==> g.id == k.id && A.KeyHash(g.identity) == A.KeyHash(k.identity)
  {
    hide IsRun, A.SubresourceId, A.KeyHash, A.Subresource;
    GrantShape(tokens, states, events, i);
    GrantShape(tokens, states, events, j);
  }

  /**
   * Along every run no address is granted twice, save by two different identities of one key, each
   * with a counter of its own, that have come to the same id.
   */
  lemma GrantsDistinct(tokens: bool, states: seq<State>, events: seq<Event>, i: nat, j: nat)
    requires IsRun(tokens, states, events) && i < j && Granted(events, i) && Granted(events, j)
    ensures var g, k := events[i].answer.value, events[j].answer.value;
            g.address == k.address <==>
            tokens && g.identity != k.identity && A.KeyHash(g.identity) == A.KeyHash(k.identity) && g.id == k.id
  {
    hide IsRun, CounterKey, A.SubresourceId, A.KeyHash;
    SameAddressIff(tokens, states, events, i, j);
    CounterKeys(events[i].answer.value.identity, events[j].answer.value.identity, tokens);
    if CounterKey(events[i].answer.value.identity, tokens) == CounterKey(events[j].answer.value.identity, tokens) {
      GrantsIncrease(tokens, states, events, i, j);
    }
  }

  /** A first grant: nothing is taken and nothing counted yet. */
  lemma FirstGrant(s: State, root: string, a: A.Id)
    requires IdentityAt(s, root) == Some(a) && HasSubresources(a) && s.symbols == {} &&
             CounterKey(a, true) !in s.counters
    ensures Allocates(s, true, root, Ok(Grant(a, 0, At(a, 0))), s.(counters := s.counters[CounterKey(a, true) := 1]))
  {
    hide A.WithSubresourceId, A.SubresourceId, A.KeyHash, CounterKey, At;
  }

  /** A run that grants the first id of two identities, one for accounts and one for tokens. */
  lemma TwoGrants(account: string, token: string, a: A.Id, b: A.Id) returns (states: seq<State>, events: seq<Event>)
    requires HasSubresources(a) && HasSubresources(b) && a != b && account != token
    ensures IsRun(true, states, events) && Granted(events, 0) && Granted(events, 1)
    ensures events[0].answer.value == Grant(a, 0, At(a, 0)) && events[1].answer.value == Grant(b, 0, At(b, 0))
  {
    hide Allocates, At, CounterKey, HasSubresources, A.Valid;
    var s := State(map[], map[account := a, token := b], {});
    var t := s.(counters := s.counters[CounterKey(a, true) := 1]);
    var u := t.(counters := t.counters[CounterKey(b, true) := 1]);
    CounterKeys(a, b, true);
    FirstGrant(s, account, a);
    FirstGrant(t, token, b);
    states := [s, t, u];
    events := [Allocate(account, Ok(Grant(a, 0, At(a, 0)))), Allocate(token, Ok(Grant(b, 0, At(b, 0))))];
    assert Step(true, states[0], events[0], states[1]) && Step(true, states[1], events[1], states[2]);
  }

  /**
   * That exception is real. Where accounts belong to a key and tokens to a subresource of it, the
   * first account and the first token are granted one address.
   */
  lemma SharedKeyCollides(hash: A.Hash) returns (states: seq<State>, events: seq<Event>)
    ensures IsRun(true, states, events) && Granted(events, 0) && Granted(events, 1)
    ensures events[0].answer.value.identity == A.PublicKey(hash)
    ensures events[1].answer.value.identity == A.Subresource(hash, 0)
    ensures events[0].answer.value.address == events[1].answer.value.address
  {
    hide IsRun, A.PublicKey, A.Subresource, At, A.Valid, Granted;
    KeyAndSubresource(hash);
    RootsDiffer();
    states, events := TwoGrants(ACCOUNT_IDENTITY_ROOT, TOKEN_IDENTITY_ROOT, A.PublicKey(hash), A.Subresource(hash, 0));
  }

  lemma RootsDiffer()
    ensures ACCOUNT_IDENTITY_ROOT != TOKEN_IDENTITY_ROOT
  {
    assert ACCOUNT_IDENTITY_ROOT[8] == 'a' && TOKEN_IDENTITY_ROOT[8] == 't';
  }

  lemma KeyAndSubresource(hash: A.Hash)
    ensures var a, b := A.PublicKey(hash), A.Subresource(hash, 0);
            a != b && At(a, 0) == At(b, 0)
  {
    var b := A.Subresource(hash, 0);
    A.PublicKeyHash(hash);
    A.SubresourceParts(hash, 0);
    assert A.KeyHash(b) == Some(hash);
  }
}
