/** What the token migration does to the allocator of subresources, and to the addresses granted so far. */
module TokenMigration {
  import opened Wrappers
  import opened Subresources
  import A = Address

  /**
   * What the migration does to the counters and identities. The single counter becomes that of the
   * root identity, which accounts now belong to; tokens get an identity and a counter from the
   * migration's parameters, written last.
   */
  function Migrate(s: State, token: A.Id, next: nat): Option<State> {
    if IDENTITY_ROOT !in s.identities then None
    else
      var root := s.identities[IDENTITY_ROOT];
      Some(State(
        Carried(s.counters, CounterKey(root, true), Counter(s, root, false), CounterKey(token, true), next),
        Assigned(s.identities, root, token),
        s.symbols))
  }

  function Carried(counters: map<string, nat>, root: string, count: nat, token: string, next: nat): map<string, nat> {
    (counters - {ACCOUNT_SUBRESOURCE_ID_ROOT})[root := count][token := next]
  }

  function Assigned(identities: map<string, A.Id>, root: A.Id, token: A.Id): map<string, A.Id> {
    identities[ACCOUNT_IDENTITY_ROOT := root][TOKEN_IDENTITY_ROOT := token]
  }

  lemma CounterKeyIsNotShared(a: A.Id)
    ensures CounterKey(a, true) != ACCOUNT_SUBRESOURCE_ID_ROOT
  {
    hide A.ToText;
    assert CounterKey(a, true)[8] == 's' && ACCOUNT_SUBRESOURCE_ID_ROOT[8] == 'a';
  }

  lemma MigratedCounter(s: State, token: A.Id, next: nat, x: A.Id)
    requires Migrate(s, token, next).Some?
    ensures Counter(Migrate(s, token, next).value, x, true) ==
            if x == token then next
            else if x == s.identities[IDENTITY_ROOT] then Counter(s, x, false)
            else Counter(s, x, true)
  {
    hide CounterKey, Assigned;
    var root := s.identities[IDENTITY_ROOT];
    CounterKeyIsNotShared(x);
    CounterKeys(x, token, true);
    CounterKeys(x, root, true);
    CounterKeys(x, root, false);
  }

  /**
   * The migration needs the root identity. Accounts then belong to it and tokens to the identity
   * given; every other identity, and the symbols, stay; and the single counter is gone.
   */
  lemma MigratedIdentities(s: State, token: A.Id, next: nat)
    ensures Migrate(s, token, next).Some? <==> IDENTITY_ROOT in s.identities
    ensures Migrate(s, token, next).Some? ==>
              var after := Migrate(s, token, next).value;
              && IdentityAt(after, ACCOUNT_IDENTITY_ROOT) == Some(s.identities[IDENTITY_ROOT])
              && IdentityAt(after, TOKEN_IDENTITY_ROOT) == Some(token)
              && (forall root :: root != ACCOUNT_IDENTITY_ROOT && root != TOKEN_IDENTITY_ROOT ==>
                    IdentityAt(after, root) == IdentityAt(s, root))
              && after.symbols == s.symbols
              && ACCOUNT_SUBRESOURCE_ID_ROOT !in after.counters
  {
    hide CounterKey;
    assert ACCOUNT_IDENTITY_ROOT[8] == 'a' && TOKEN_IDENTITY_ROOT[8] == 't' && IDENTITY_ROOT[8] == 'i';
    if Migrate(s, token, next).Some? {
      CounterKeyIsNotShared(token);
      CounterKeyIsNotShared(s.identities[IDENTITY_ROOT]);
    }
  }

  /** Some run from this state grants the address to this identity. */
  ghost predicate CanGrant(s: State, x: A.Id, address: A.Address) {
    exists states, events, j :: GrantsAt(s, x, address, states, events, j)
  }

  ghost predicate GrantsAt(s: State, x: A.Id, address: A.Address, states: seq<State>, events: seq<Event>, j: nat) {
    && IsRun(true, states, events) && states[0] == s && Granted(events, j)
    && events[j].answer.value.identity == x && events[j].answer.value.address == address
  }

  /** The addresses of the ids from one number up to another. */
  function Addresses(a: A.Id, lo: nat, hi: nat): set<A.Address>
    requires HasSubresources(a) && lo <= hi <= A.MAX_SUBRESOURCE_ID
    decreases hi - lo
  {
    if lo == hi then {} else {At(a, lo)} + Addresses(a, lo + 1, hi)
  }

  lemma {:induction false} Among(a: A.Id, lo: nat, hi: nat, id: nat)
    requires HasSubresources(a) && lo <= hi <= A.MAX_SUBRESOURCE_ID && id <= A.MAX_SUBRESOURCE_ID
    ensures At(a, id) in Addresses(a, lo, hi) <==> lo <= id < hi
    decreases hi - lo
  {
    hide At, HasSubresources, A.KeyHash;
    if lo == hi {
    } else {
      SameAt(a, lo, a, id);
      Among(a, lo + 1, hi, id);
    }
  }

  /** An identity can be granted any of its ids from its counter up, once symbols have the ids below. */
  lemma CanReach(s: State, x: A.Id, id: nat)
    requires HasSubresources(x) && Counter(s, x, true) <= id <= A.MAX_SUBRESOURCE_ID
    ensures CanGrant(s, x, At(x, id))
  {
    hide At, CounterKey, HasSubresources, A.Valid, Addresses, Counter, Allocates, Assigned;
    var from := Counter(s, x, true);
    var t := State(s.counters, map[IDENTITY_ROOT := x], Addresses(x, from, id));
    var g := Grant(x, id, At(x, id));
    var u := t.(counters := t.counters[CounterKey(x, true) := id + 1]);
    SameCounter(s, t, x);
    forall k | from <= k <= id ensures Taken(t, x, k) <==> k < id {
      Among(x, from, id, k);
    }
    NextIs(t, IDENTITY_ROOT, x, id);
    var states, events := [s, t, u], [Other(t.identities, t.symbols), Allocate(IDENTITY_ROOT, Ok(g))];
    assert Step(true, states[0], events[0], states[1]) && Step(true, states[1], events[1], states[2]);
    assert GrantsAt(s, x, At(x, id), states, events, 1);
  }

  lemma SameCounter(s: State, t: State, x: A.Id)
    requires s.counters == t.counters
    ensures Counter(s, x, true) == Counter(t, x, true)
  {
    hide CounterKey;
  }

  lemma NextIs(t: State, root: string, x: A.Id, id: nat)
    requires IdentityAt(t, root) == Some(x) && HasSubresources(x) && Counter(t, x, true) <= id <= A.MAX_SUBRESOURCE_ID
    requires forall k :: Counter(t, x, true) <= k <= id ==> (Taken(t, x, k) <==> k < id)
    ensures Allocates(t, true, root, Ok(Grant(x, id, At(x, id))), t.(counters := t.counters[CounterKey(x,
            true) := id + 1]))
  {
    hide At, CounterKey, HasSubresources, Counter, IdentityAt, A.Valid, A.KeyHash, A.SubresourceId, IsLeast;
    LeastFree(t, x, Counter(t, x, true), id);
  }

  lemma LeastFree(t: State, x: A.Id, from: nat, id: nat)
    requires HasSubresources(x) && from <= id <= A.MAX_SUBRESOURCE_ID
    requires forall k :: from <= k <= id ==> (Taken(t, x, k) <==> k < id)
    ensures IsLeast(t, x, from, id)
  {
    hide Taken, HasSubresources;
  }

  lemma GrantedFrom(s: State, x: A.Id, address: A.Address, states: seq<State>, events: seq<Event>, j: nat)
    returns (id: nat)
    requires GrantsAt(s, x, address, states, events, j)
    ensures Counter(s, x, true) <= id <= A.MAX_SUBRESOURCE_ID && HasSubresources(x) && address == At(x, id)
  {
    id := events[j].answer.value.id;
    hide CounterKey, A.WithSubresourceId, A.SubresourceId, A.KeyHash, At, Counter;
    assert Step(true, states[j], events[j], states[j + 1]);
    CounterGrows(true, states[j], events[j], states[j + 1], x);
    CounterGrowsOver(true, states, events, 0, j, x);
  }

  lemma SameAt(a: A.Id, id: nat, b: A.Id, k: nat)
    requires HasSubresources(a) && HasSubresources(b) && id <= A.MAX_SUBRESOURCE_ID && k <= A.MAX_SUBRESOURCE_ID
    ensures At(a, id) == At(b, k) <==> id == k && A.KeyHash(a) == A.KeyHash(b)
  {
    hide A.Subresource;
  }

  /** Exactly which addresses an identity can still be granted: those of its key from its counter up. */
  lemma CanGrantIff(s: State, x: A.Id, a: A.Id, id: nat)
    requires HasSubresources(x) && HasSubresources(a) && id <= A.MAX_SUBRESOURCE_ID
    ensures CanGrant(s, x, At(a, id)) <==> A.KeyHash(x) == A.KeyHash(a) && Counter(s, x, true) <= id
  {
    hide At, A.KeyHash, Counter, HasSubresources, GrantsAt;
    if CanGrant(s, x, At(a, id)) {
      var states: seq<State>, events: seq<Event>, j: nat :| GrantsAt(s, x, At(a, id), states, events, j);
      var k := GrantedFrom(s, x, At(a, id), states, events, j);
      SameAt(x, k, a, id);
    }
    if A.KeyHash(x) == A.KeyHash(a) && Counter(s, x, true) <= id {
      SameAt(x, id, a, id);
      CanReach(s, x, id);
    }
  }

  /** Before the migration every id granted is below the one counter. */
  lemma GrantIsBelow(states: seq<State>, events: seq<Event>, i: nat, root: A.Id)
    requires IsRun(false, states, events) && Granted(events, i)
    ensures events[i].answer.value.id < Counter(states[|events|], root, false)
    ensures HasSubresources(events[i].answer.value.identity) && events[i].answer.value.id <= A.MAX_SUBRESOURCE_ID
    ensures events[i].answer.value.address == At(events[i].answer.value.identity, events[i].answer.value.id)
  {
    hide A.WithSubresourceId, A.SubresourceId, A.KeyHash, At, Counter;
    assert Step(false, states[i], events[i], states[i + 1]);
    CounterGrows(false, states[i], events[i], states[i + 1], root);
    CounterGrowsOver(false, states, events, i + 1, |events|, root);
  }

  /**
   * Across the migration: an address granted in any run before it can be granted again after it, to
   * an identity of the same key, just when that identity's counter starts at or below its id. For the
   * root identity that cannot be, unless tokens were given the root identity and a counter set back.
   */
  lemma GrantedAgainIff(states: seq<State>, events: seq<Event>, i: nat, token: A.Id, next: nat, x: A.Id)
    requires IsRun(false, states, events) && Granted(events, i) && HasSubresources(x)
    requires Migrate(states[|events|], token, next).Some?
    ensures var g, last := events[i].answer.value, states[|events|];
            CanGrant(Migrate(last, token, next).value, x, g.address) <==>
            && A.KeyHash(x) == A.KeyHash(g.identity)
            && if x == token then next <= g.id
               else x != last.identities[IDENTITY_ROOT] && Counter(last, x, true) <= g.id
  {
    hide At, A.KeyHash, Counter, CounterKey, HasSubresources, CanGrant, Step;
    var g, last := events[i].answer.value, states[|events|];
    GrantIsBelow(states, events, i, x);
    MigratedCounter(last, token, next, x);
    CanGrantIff(Migrate(last, token, next).value, x, g.identity, g.id);
  }
}
