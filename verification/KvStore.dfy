/**
 * The key-value store module: each key has a value and an access record, kept in one store under
 * two one-byte prefixes. Keys are byte strings, each byte shown as the character of that code.
 */
module KvStore {
  import opened Wrappers
  import opened Bytes
  import opened Store
  import A = Address
  import Lex

  datatype Disabled = Flag(on: bool) | Because(reason: string)

  datatype Metadata = Metadata(owner: A.Id, disabled: Option<Disabled>, previous: Option<A.Id>)

  datatype Value = Raw(bytes: Bytes) | Meta(meta: Metadata)

  type Kv = map<string, Value>

  datatype Error =
    | KeyDisabled | KeyNotFound | EmptyKey | AnonymousDenied | PermissionDenied | Undecodable

  function AclKey(key: string): string { "a" + key }

  function DataKey(key: string): string { "s" + key }

  predicate IsDisabled(m: Metadata) { m.disabled.Some? && m.disabled.value != Flag(false) }

  function MetaOf(store: Kv, key: string): Option<Metadata> {
    if AclKey(key) in store && store[AclKey(key)].Meta? then Some(store[AclKey(key)].meta) else None
  }

  function Read(store: Kv, key: string): Result<Option<Value>, Error> {
    if AclKey(key) in store then
      match store[AclKey(key)]
      case Raw(_) => Err(Undecodable)
      case Meta(m) => if IsDisabled(m) then Err(KeyDisabled) else Ok(Get(store, DataKey(key)))
    else Ok(Get(store, DataKey(key)))
  }

  /** On whose behalf a command is sent; whether the account lets the sender is decided elsewhere. */
  datatype Via = Direct | Alternative(account: A.Id, allowed: bool)

  function Effective(sender: A.Id, via: Via): Result<A.Id, Error> {
    match via
    case Direct => Ok(sender)
    case Alternative(account, allowed) => if allowed then Ok(account) else Err(PermissionDenied)
  }

  function VerifyAcl(store: Kv, who: A.Id, key: string): Option<Error> {
    if AclKey(key) in store then
      match store[AclKey(key)]
      case Raw(_) => Some(Undecodable)
      case Meta(m) => if A.Eq(m.owner, who) then None else Some(PermissionDenied)
    else None
  }

  function PutValue(store: Kv, sender: A.Id, via: Via, key: string, value: Bytes): Result<Kv, Error> {
    var owner :- Effective(sender, via);
    var denied := VerifyAcl(store, owner, key);
    if denied.Some? then Err(denied.value)
    else Ok(store[AclKey(key) := Meta(Metadata(owner, Some(Flag(false)), None))][DataKey(key) := Raw(value)])
  }

  function Disable(store: Kv, sender: A.Id, via: Via, key: string, reason: Option<string>): Result<Kv, Error> {
    var v :- Read(store, key);
    if v.None? then Err(EmptyKey)
    else
      var owner :- Effective(sender, via);
      var denied := VerifyAcl(store, owner, key);
      if denied.Some? then Err(denied.value)
      else
        var why := if reason.Some? then Because(reason.value) else Flag(true);
        Ok(store[AclKey(key) := Meta(Metadata(owner, Some(why), None))])
  }

  function Transfer(store: Kv, sender: A.Id, via: Via, key: string, newOwner: A.Id): Result<Kv, Error> {
    var v :- Read(store, key);
    if v.None? then Err(KeyNotFound)
    else if A.IsAnonymous(newOwner) then Err(AnonymousDenied)
    else if AclKey(key) !in store then Err(KeyNotFound)
    else if !store[AclKey(key)].Meta? then Err(Undecodable)
    else
      var m := store[AclKey(key)].meta;
      var owner :- Effective(sender, via);
      var denied := VerifyAcl(store, owner, key);
      if denied.Some? then Err(denied.value)
      else Ok(store[AclKey(key) := Meta(Metadata(newOwner, m.disabled, Some(m.owner)))])
  }

  datatype Command =
    | PutCommand(sender: A.Id, via: Via, key: string, value: Bytes)
    | DisableCommand(sender: A.Id, via: Via, key: string, reason: Option<string>)
    | TransferCommand(sender: A.Id, via: Via, key: string, newOwner: A.Id)
    | Housekeeping(writes: Kv)

  /** Accounts, events, heights and the configuration live under keys that begin with a slash. */
  predicate Admissible(c: Command) {
    c.Housekeeping? ==> forall k :: k in c.writes ==> k != "" && k[0] == '/'
  }

  function Outcome(store: Kv, c: Command): Result<Kv, Error> {
    match c
    case PutCommand(sender, via, key, value) => PutValue(store, sender, via, key, value)
    case DisableCommand(sender, via, key, reason) => Disable(store, sender, via, key, reason)
    case TransferCommand(sender, via, key, newOwner) => Transfer(store, sender, via, key, newOwner)
    case Housekeeping(writes) => Ok(store + writes)
  }

  function Next(store: Kv, c: Command): Kv {
    var r := Outcome(store, c);
    if r.Ok? then r.value else store
  }

  function Run(store: Kv, cs: seq<Command>): Kv
    decreases |cs|
  {
    if cs == [] then store else Run(Next(store, cs[0]), cs[1..])
  }

  // -------------------------------------------------------------------------------------------
  // Keys
  // -------------------------------------------------------------------------------------------

  lemma KeysApart(j: string, k: string)
    ensures AclKey(j) != DataKey(k)
    ensures AclKey(j) == AclKey(k) <==> j == k
    ensures DataKey(j) == DataKey(k) <==> j == k
  {
    assert AclKey(j)[0] == 'a' && DataKey(k)[0] == 's';
    assert AclKey(j)[1..] == j && AclKey(k)[1..] == k && DataKey(j)[1..] == j && DataKey(k)[1..] == k;
  }

  lemma OthersApart(c: Command, k: string)
    requires c.Housekeeping? && Admissible(c)
    ensures AclKey(k) !in c.writes && DataKey(k) !in c.writes
  {
    assert AclKey(k)[0] == 'a' && DataKey(k)[0] == 's';
  }

  predicate SameAt(store: Kv, after: Kv, k: string) {
    Get(after, AclKey(k)) == Get(store, AclKey(k)) && Get(after, DataKey(k)) == Get(store, DataKey(k))
  }

  /** A command concerns one key. */
  lemma Elsewhere(store: Kv, c: Command, k: string)
    requires Admissible(c) && (c.Housekeeping? || c.key != k)
    ensures SameAt(store, Next(store, c), k)
  {
    hide AclKey, DataKey, Effective, VerifyAcl, Read;
    if c.Housekeeping? {
      OthersApart(c, k);
    } else {
      KeysApart(c.key, k);
      KeysApart(k, c.key);
    }
  }

  // -------------------------------------------------------------------------------------------
  // Values and access records
  // -------------------------------------------------------------------------------------------

  /** A key with a value has an access record. */
  predicate Recorded(store: Kv, k: string) { DataKey(k) in store ==> MetaOf(store, k).Some? }

  lemma ReadIsThere(store: Kv, k: string)
    requires Read(store, k).Ok? && Read(store, k).value.Some?
    ensures DataKey(k) in store
  {
    hide AclKey, DataKey;
  }

  /** A command that succeeds leaves its key with a record and a value. */
  lemma LeavesBoth(store: Kv, c: Command)
    requires !c.Housekeeping? && Outcome(store, c).Ok?
    ensures MetaOf(Outcome(store, c).value, c.key).Some? && DataKey(c.key) in Outcome(store, c).value
  {
    hide AclKey, DataKey, Effective, VerifyAcl, Read;
    KeysApart(c.key, c.key);
    if !c.PutCommand? {
      ReadIsThere(store, c.key);
    }
  }

  lemma NextRecorded(store: Kv, c: Command, k: string)
    requires Recorded(store, k) && Admissible(c)
    ensures Recorded(Next(store, c), k)
  {
    hide AclKey, DataKey, Outcome;
    if c.Housekeeping? || c.key != k {
      Elsewhere(store, c, k);
    } else if Outcome(store, c).Ok? {
      LeavesBoth(store, c);
    }
  }

  /** A record without a value is one the genesis list put there and no `put` has completed. */
  predicate Completed(store: Kv, genesis: set<string>, k: string) {
    AclKey(k) in store && k !in genesis ==> DataKey(k) in store
  }

  lemma NextCompleted(store: Kv, c: Command, genesis: set<string>, k: string)
    requires Completed(store, genesis, k) && Admissible(c)
    ensures Completed(Next(store, c), genesis, k)
  {
    hide AclKey, DataKey, Outcome;
    if c.Housekeeping? || c.key != k {
      Elsewhere(store, c, k);
    } else if Outcome(store, c).Ok? {
      LeavesBoth(store, c);
    }
  }

  /** In every reachable state a key with a value has a record, and outside genesis the converse. */
  lemma {:induction false} ValuesAreRecorded(store: Kv, cs: seq<Command>, genesis: set<string>, k: string)
    requires forall i :: 0 <= i < |cs| ==> Admissible(cs[i])
    requires Recorded(store, k) && Completed(store, genesis, k)
    ensures Recorded(Run(store, cs), k) && Completed(Run(store, cs), genesis, k)
    decreases |cs|
  {
    hide Recorded, Completed, Next, Admissible;
    if cs == [] {
    } else {
      NextRecorded(store, cs[0], k);
      NextCompleted(store, cs[0], genesis, k);
      assert forall i :: 0 <= i < |cs[1..]| ==> cs[1..][i] == cs[i + 1];
      ValuesAreRecorded(Next(store, cs[0]), cs[1..], genesis, k);
    }
  }

  // -------------------------------------------------------------------------------------------
  // Disabled keys
  // -------------------------------------------------------------------------------------------

  predicate DisabledAt(store: Kv, k: string) { MetaOf(store, k).Some? && IsDisabled(MetaOf(store, k).value) }

  lemma DisabledRefuses(store: Kv, c: Command)
    requires (c.DisableCommand? || c.TransferCommand?) && DisabledAt(store, c.key)
    ensures Outcome(store, c) == Err(KeyDisabled)
  {
    hide AclKey, DataKey, Effective, VerifyAcl;
  }

  lemma NextKeepsDisabled(store: Kv, c: Command, k: string)
    requires DisabledAt(store, k) && Admissible(c) && !(c.PutCommand? && c.key == k)
    ensures MetaOf(Next(store, c), k) == MetaOf(store, k) && Get(Next(store, c), DataKey(k)) == Get(store, DataKey(k))
  {
    hide AclKey, DataKey, Outcome;
    if c.Housekeeping? || c.key != k {
      Elsewhere(store, c, k);
    } else {
      DisabledRefuses(store, c);
    }
  }

  /**
   * A disabled key keeps its owner, its reason and its value under every run that does not put to
   * it. Transfers of it fail too, although the module's own comment allows them.
   */
  lemma {:induction false} DisabledStays(store: Kv, cs: seq<Command>, k: string)
    requires DisabledAt(store, k)
    requires forall i :: 0 <= i < |cs| ==> Admissible(cs[i]) && !(cs[i].PutCommand? && cs[i].key == k)
    ensures MetaOf(Run(store, cs), k) == MetaOf(store, k)
    ensures Get(Run(store, cs), DataKey(k)) == Get(store, DataKey(k))
    ensures Read(Run(store, cs), k) == Err(KeyDisabled)
    decreases |cs|
  {
    hide Next, Admissible, AclKey, DataKey;
    if cs == [] {
    } else {
      NextKeepsDisabled(store, cs[0], k);
      assert forall i :: 0 <= i < |cs[1..]| ==> cs[1..][i] == cs[i + 1];
      DisabledStays(Next(store, cs[0]), cs[1..], k);
    }
  }

  // -------------------------------------------------------------------------------------------
  // Ownership
  // -------------------------------------------------------------------------------------------

  /** The command acts on this key for this owner. */
  predicate ActsFor(c: Command, k: string, owner: A.Id) {
    !c.Housekeeping? && c.key == k && Effective(c.sender, c.via) == Ok(owner)
  }

  /**
   * The record or the value of a key that has a record changes only by a command for its owner,
   * and the owner changes only by that owner's transfer, which is then the previous owner.
   */
  lemma OnlyTheOwner(store: Kv, c: Command, k: string)
    requires Admissible(c) && MetaOf(store, k).Some?
    ensures var m, n := MetaOf(store, k), MetaOf(Next(store, c), k);
            && n.Some?
            && (n != m || Get(Next(store, c), DataKey(k)) != Get(store, DataKey(k)) ==> ActsFor(c, k, m.value.owner))
            && (n.value.owner != m.value.owner ==>
                  c.TransferCommand? && n.value == Metadata(c.newOwner, m.value.disabled, Some(m.value.owner)))
  {
    hide AclKey, DataKey, Effective, VerifyAcl;
    if c.Housekeeping? || c.key != k {
      Elsewhere(store, c, k);
    } else {
      KeysApart(k, k);
      OwnerOnly(store, c.sender, c.via, k, k);
    }
  }

  lemma OwnerOnly(store: Kv, sender: A.Id, via: Via, key: string, k: string)
    requires MetaOf(store, k).Some?
    ensures key == k && Effective(sender, via).Ok? && VerifyAcl(store, Effective(sender, via).value, key).None? ==>
            Effective(sender, via) == Ok(MetaOf(store, k).value.owner)
  {
    hide AclKey, DataKey, A.Eq;
    if Effective(sender, via).Ok? {
      A.EqIsByteEquality(MetaOf(store, k).value.owner, Effective(sender, via).value);
    }
  }

  predicate OwnedBy(store: Kv, k: string, owner: A.Id) {
    MetaOf(store, k).Some? && MetaOf(store, k).value.owner == owner
  }

  /** Over every run in which nobody acts for the owner, the record and the value stay. */
  lemma {:induction false} UntouchedWithoutOwner(store: Kv, cs: seq<Command>, k: string, owner: A.Id)
    requires OwnedBy(store, k, owner)
    requires forall i :: 0 <= i < |cs| ==> Admissible(cs[i]) && !ActsFor(cs[i], k, owner)
    ensures MetaOf(Run(store, cs), k) == MetaOf(store, k)
    ensures Get(Run(store, cs), DataKey(k)) == Get(store, DataKey(k))
    decreases |cs|
  {
    hide Next, Admissible, AclKey, DataKey, ActsFor;
    if cs == [] {
    } else {
      OnlyTheOwner(store, cs[0], k);
      assert forall i :: 0 <= i < |cs[1..]| ==> cs[1..][i] == cs[i + 1];
      UntouchedWithoutOwner(Next(store, cs[0]), cs[1..], k, owner);
    }
  }

  // -------------------------------------------------------------------------------------------
  // When a command is accepted, and what it leaves
  // -------------------------------------------------------------------------------------------

  /** Whose keys a command may touch: the sender's, or those of an account that lets the sender. */
  predicate ActsAs(sender: A.Id, via: Via, who: A.Id) {
    match via
    case Direct => who == sender
    case Alternative(account, allowed) => allowed && who == account
  }

  /** Without a record a key is open to all; with one it is its owner's. */
  predicate OpenTo(store: Kv, key: string, who: A.Id) {
    AclKey(key) !in store || OwnedBy(store, key, who)
  }

  /** There is a value, and no record that disables it. */
  predicate InForce(store: Kv, key: string) {
    && DataKey(key) in store
    && (AclKey(key) in store ==>
         && store[AclKey(key)].Meta?
         && (store[AclKey(key)].meta.disabled == None || store[AclKey(key)].meta.disabled == Some(Flag(false))))
  }

  lemma AccessIff(store: Kv, sender: A.Id, via: Via, key: string, who: A.Id)
    requires ActsAs(sender, via, who)
    ensures Effective(sender, via) == Ok(who)
    ensures VerifyAcl(store, who, key).None? <==> OpenTo(store, key, who)
  {
    hide AclKey, A.Eq;
    if MetaOf(store, key).Some? {
      A.EqIsByteEquality(MetaOf(store, key).value.owner, who);
    }
  }

  lemma Accepted(store: Kv, sender: A.Id, via: Via, key: string)
    ensures Effective(sender, via).Ok? && VerifyAcl(store, Effective(sender, via).value, key).None? <==>
            exists who :: ActsAs(sender, via, who) && OpenTo(store, key, who)
  {
    hide VerifyAcl, OpenTo;
    if Effective(sender, via).Ok? {
      var who := Effective(sender, via).value;
      assert ActsAs(sender, via, who);
      AccessIff(store, sender, via, key, who);
    }
  }

  lemma ReadIff(store: Kv, key: string)
    ensures Read(store, key).Ok? && Read(store, key).value.Some? <==> InForce(store, key)
    ensures InForce(store, key) ==> Read(store, key) == Ok(Some(store[DataKey(key)]))
  {
    hide AclKey, DataKey;
  }

  /**
   * A put is accepted just when the one it acts for may access the key. The key then reads as the
   * value put, and its record has that owner, is not disabled and has no previous owner.
   */
  lemma PutEffect(store: Kv, sender: A.Id, via: Via, key: string, value: Bytes, who: A.Id)
    requires ActsAs(sender, via, who)
    ensures PutValue(store, sender, via, key, value).Ok? <==> OpenTo(store, key, who)
    ensures PutValue(store, sender, via, key, value).Ok? ==>
              var after := PutValue(store, sender, via, key, value).value;
              && Read(after, key) == Ok(Some(Raw(value)))
              && MetaOf(after, key) == Some(Metadata(who, Some(Flag(false)), None))
  {
    hide AclKey, DataKey, VerifyAcl, OpenTo, Effective, A.Valid, Read, MetaOf;
    AccessIff(store, sender, via, key, who);
    ReadBack(store, key, Metadata(who, Some(Flag(false)), None), value);
  }

  lemma ReadBack(store: Kv, key: string, m: Metadata, value: Bytes)
    requires !IsDisabled(m)
    ensures var after := store[AclKey(key) := Meta(m)][DataKey(key) := Raw(value)];
            Read(after, key) == Ok(Some(Raw(value))) && MetaOf(after, key) == Some(m)
  {
    hide AclKey, DataKey;
    KeysApart(key, key);
  }

  /**
   * A key is disabled just when it has a value in force and the command acts for one who may access
   * it. Reading it then says so; the record has the reason given, and the value is still there.
   */
  lemma DisableEffect(store: Kv, sender: A.Id, via: Via, key: string, reason: Option<string>, who: A.Id)
    requires ActsAs(sender, via, who)
    ensures Disable(store, sender, via, key, reason).Ok? <==> InForce(store, key) && OpenTo(store, key, who)
    ensures Disable(store, sender, via, key, reason).Ok? ==>
              var after := Disable(store, sender, via, key, reason).value;
              var why := match reason case None => Flag(true) case Some(text) => Because(text);
              && Read(after, key) == Err(KeyDisabled)
              && MetaOf(after, key) == Some(Metadata(who, Some(why), None))
              && Get(after, DataKey(key)) == Get(store, DataKey(key))
  {
    hide AclKey, DataKey, VerifyAcl, OpenTo, InForce;
    AccessIff(store, sender, via, key, who);
    ReadIff(store, key);
    KeysApart(key, key);
  }

  /**
   * A key is transferred just when it has a value in force and a record owned by the one the command
   * acts for, to anyone but the anonymous identity. Its record names the new and the previous owner,
   * and it reads as before.
   */
  lemma TransferEffect(store: Kv, sender: A.Id, via: Via, key: string, newOwner: A.Id, who: A.Id)
    requires ActsAs(sender, via, who)
    ensures Transfer(store, sender, via, key, newOwner).Ok? <==>
              InForce(store, key) && newOwner != A.ANONYMOUS && OwnedBy(store, key, who)
    ensures Transfer(store, sender, via, key, newOwner).Ok? ==>
              var after := Transfer(store, sender, via, key, newOwner).value;
              && MetaOf(after, key) == Some(Metadata(newOwner, MetaOf(store, key).value.disabled, Some(who)))
              && Read(after, key) == Read(store, key)
              && Get(after, DataKey(key)) == Get(store, DataKey(key))
  {
    hide AclKey, DataKey, VerifyAcl, A.Eq;
    AccessIff(store, sender, via, key, who);
    ReadIff(store, key);
    KeysApart(key, key);
  }

  /** The record of a key cannot be read. */
  predicate Garbled(store: Kv, key: string) { AclKey(key) in store && store[AclKey(key)].Raw? }

  /** A refusal names something that is wrong. */
  lemma Refusals(store: Kv, c: Command, who: A.Id)
    requires !c.Housekeeping? && ActsAs(c.sender, c.via, who) && Outcome(store, c).Err?
    ensures match Outcome(store, c).error
            case KeyDisabled => !c.PutCommand? && DisabledAt(store, c.key)
            case EmptyKey => c.DisableCommand? && DataKey(c.key) !in store
            case KeyNotFound => c.TransferCommand? && (DataKey(c.key) !in store || AclKey(c.key) !in store)
            case AnonymousDenied => c.TransferCommand? && c.newOwner == A.ANONYMOUS
            case Undecodable => Garbled(store, c.key)
            case PermissionDenied => MetaOf(store, c.key).Some? && !OwnedBy(store, c.key, who)
  {
    hide AclKey, DataKey, A.Eq;
    AccessIff(store, c.sender, c.via, c.key, who);
    if MetaOf(store, c.key).Some? {
      A.EqIsByteEquality(MetaOf(store, c.key).value.owner, who);
    }
  }

  /** A command for an account that does not let the sender changes nothing. */
  lemma NotLet(store: Kv, c: Command)
    requires !c.Housekeeping? && c.via.Alternative? && !c.via.allowed
    ensures Outcome(store, c).Err? && Next(store, c) == store
  {
    hide AclKey, DataKey, VerifyAcl, Read;
  }

  // -------------------------------------------------------------------------------------------
  // Listing
  // -------------------------------------------------------------------------------------------

  datatype Filter = ByOwner(owner: A.Id) | ByPrevious(previous: A.Id) | ByDisabled(disabled: bool)

  predicate Passes(f: Filter, m: Metadata) {
    match f
    case ByOwner(a) => A.Eq(m.owner, a)
    // An absent previous owner is equal to the anonymous address.
    case ByPrevious(a) => if m.previous.Some? then A.Eq(a, m.previous.value) else A.IsAnonymous(a)
    case ByDisabled(disabled) =>
      if disabled then m.disabled == Some(Flag(true)) || (m.disabled.Some? && m.disabled.value.Because?)
      else m.disabled == None || m.disabled == Some(Flag(false))
  }

  predicate PassesAll(filters: seq<Filter>, v: Value) {
    filters != [] ==> v.Meta? && forall i :: 0 <= i < |filters| ==> Passes(filters[i], v.meta)
  }

  /** The keys a listing selects. */
  predicate Listed(store: Kv, filters: seq<Filter>, k: string) {
    AclKey(k) in store && PassesAll(filters, store[AclKey(k)])
  }

  /** Listing the disabled keys selects just those whose reading says disabled. */
  lemma DisabledListing(store: Kv, k: string)
    ensures Listed(store, [ByDisabled(true)], k) <==> Read(store, k) == Err(KeyDisabled)
    ensures Listed(store, [ByDisabled(false)], k) <==> AclKey(k) in store && Read(store, k).Ok?
  {
    hide AclKey, DataKey;
    if AclKey(k) in store && store[AclKey(k)].Meta? {
      var m := store[AclKey(k)].meta;
      assert PassesAll([ByDisabled(true)], Meta(m)) <==> Passes([ByDisabled(true)][0], m);
      assert PassesAll([ByDisabled(false)], Meta(m)) <==> Passes([ByDisabled(false)][0], m);
    }
  }

  /** What the other filters select: the keys of an owner, and those that an owner has given away. */
  lemma OwnerListing(store: Kv, k: string, a: A.Id)
    ensures Listed(store, [ByOwner(a)], k) <==> OwnedBy(store, k, a)
    ensures Listed(store, [ByPrevious(a)], k) <==>
              MetaOf(store, k).Some? &&
                if MetaOf(store, k).value.previous.Some? then MetaOf(store, k).value.previous == Some(a)
                else a == A.ANONYMOUS
    ensures Listed(store, [], k) <==> AclKey(k) in store
  {
    hide AclKey, A.Eq;
    if AclKey(k) in store && store[AclKey(k)].Meta? {
      var m := store[AclKey(k)].meta;
      assert PassesAll([ByOwner(a)], Meta(m)) <==> Passes([ByOwner(a)][0], m);
      assert PassesAll([ByPrevious(a)], Meta(m)) <==> Passes([ByPrevious(a)][0], m);
      A.EqIsByteEquality(m.owner, a);
      if m.previous.Some? {
        A.EqIsByteEquality(a, m.previous.value);
      }
    }
  }

  /** Filters select together just what each selects. */
  lemma FiltersIntersect(store: Kv, fs: seq<Filter>, gs: seq<Filter>, k: string)
    ensures Listed(store, fs + gs, k) <==> Listed(store, fs, k) && Listed(store, gs, k)
  {
    hide AclKey, Passes;
    if AclKey(k) in store && store[AclKey(k)].Meta? && Listed(store, fs + gs, k) {
      var m := store[AclKey(k)].meta;
      forall i | 0 <= i < |gs| ensures Passes(gs[i], m) {
        assert Passes((fs + gs)[|fs| + i], m);
      }
      forall i | 0 <= i < |fs| ensures Passes(fs[i], m) {
        assert Passes((fs + gs)[i], m);
      }
    }
  }

  class KvStoreModule {
    var store: Kv

    constructor (genesis: Kv)
      ensures store == genesis
    {
      store := genesis;
    }

    /** Access is open where there is no record; where there is one, it is its owner's. */
    method VerifyAccess(who: A.Id, key: string) returns (r: Option<Error>)
      ensures r.None? <==> AclKey(key) !in store || OwnedBy(store, key, who)
      ensures r == VerifyAcl(store, who, key)
    {
      hide AclKey, A.Eq;
      if AclKey(key) in store {
        var v := store[AclKey(key)];
        if v.Raw? {
          return Some(Undecodable);
        }
        A.EqIsByteEquality(v.meta.owner, who);
        if A.Eq(v.meta.owner, who) {
          return None;
        }
        return Some(PermissionDenied);
      }
      return None;
    }

    method PutKey(sender: A.Id, via: Via, key: string, value: Bytes) returns (r: Result<(), Error>)
      modifies this
      ensures store == Next(old(store), PutCommand(sender, via, key, value))
      ensures r == var o := PutValue(old(store), sender, via, key, value); if o.Ok? then Ok(()) else Err(o.error)
      ensures r.Ok? ==> Read(store, key) == Ok(Some(Raw(value)))
      ensures r.Ok? <==> exists who :: ActsAs(sender, via, who) && OpenTo(old(store), key, who)
    {
      hide AclKey, DataKey, VerifyAcl, OpenTo;
      Accepted(store, sender, via, key);
      KeysApart(key, key);
      var owner :- Effective(sender, via);
      var denied := VerifyAccess(owner, key);
      if denied.Some? {
        return Err(denied.value);
      }
      store := store[AclKey(key) := Meta(Metadata(owner, Some(Flag(false)), None))];
      store := store[DataKey(key) := Raw(value)];
      return Ok(());
    }

    method DisableKey(sender: A.Id, via: Via, key: string, reason: Option<string>) returns (r: Result<(), Error>)
      modifies this
      ensures store == Next(old(store), DisableCommand(sender, via, key, reason))
      ensures r == var o := Disable(old(store), sender, via, key, reason); if o.Ok? then Ok(()) else Err(o.error)
    {
      hide AclKey, DataKey, VerifyAcl;
      var v :- Read(store, key);
      if v.None? {
        return Err(EmptyKey);
      }
      var owner :- Effective(sender, via);
      var denied := VerifyAccess(owner, key);
      if denied.Some? {
        return Err(denied.value);
      }
      var why := if reason.Some? then Because(reason.value) else Flag(true);
      store := store[AclKey(key) := Meta(Metadata(owner, Some(why), None))];
      return Ok(());
    }

    method TransferKey(sender: A.Id, via: Via, key: string, newOwner: A.Id) returns (r: Result<(), Error>)
      modifies this
      ensures store == Next(old(store), TransferCommand(sender, via, key, newOwner))
      ensures r == var o := Transfer(old(store), sender, via, key, newOwner); if o.Ok? then Ok(()) else Err(o.error)
    {
      hide AclKey, DataKey, VerifyAcl;
      var v :- Read(store, key);
      if v.None? {
        return Err(KeyNotFound);
      }
      if A.IsAnonymous(newOwner) {
        return Err(AnonymousDenied);
      }
      if AclKey(key) !in store {
        return Err(KeyNotFound);
      }
      if !store[AclKey(key)].Meta? {
        return Err(Undecodable);
      }
      var m := store[AclKey(key)].meta;
      var owner :- Effective(sender, via);
      var denied := VerifyAccess(owner, key);
      if denied.Some? {
        return Err(denied.value);
      }
      store := store[AclKey(key) := Meta(Metadata(newOwner, m.disabled, Some(m.owner)))];
      return Ok(());
    }

    /** The selected keys, each once, in increasing or decreasing order. */
    method ListKeys(descending: bool, filters: seq<Filter>) returns (keys: seq<string>)
      ensures forall k :: k in keys <==> Listed(store, filters, k)
      ensures Monotone(keys, descending)
    {
      hide PassesAll, Lex.Less;
      var pick: Entry<Value> -> bool := e => PassesAll(filters, Shown(e));
      var items := List(store, "a", descending, pick);
      keys := [];
      for n := 0 to |items|
        invariant |keys| == n && forall i :: 0 <= i < n ==> items[i].key == AclKey(keys[i])
      {
        StartsWithA(store, items[n]);
        keys := keys + [items[n].key[1..]];
      }
      KeysInOrder(items, keys, descending);
      forall k ensures k in keys <==> Listed(store, filters, k) {
        KeyListed(store, filters, pick, items, keys, k);
      }
    }
  }

  predicate Monotone(keys: seq<string>, descending: bool) {
    forall i, j :: 0 <= i < j < |keys| ==>
                     if descending then Lex.Less(keys[j], keys[i]) else Lex.Less(keys[i], keys[j])
  }

  function Shown(item: Entry<Value>): Value {
    if item.op.Put? then item.op.value else Raw([])
  }

  lemma StartsWithA(store: Kv, e: Entry<Value>)
    ensures Yielded(store, "a", e) ==> e.key != "" && e.key == AclKey(e.key[1..])
  {
    if "a" <= e.key {
      assert e.key[..1] == "a";
      assert e.key == e.key[..1] + e.key[1..];
    }
  }

  lemma TailLess(x: string, y: string)
    requires Lex.Less(AclKey(x), AclKey(y))
    ensures Lex.Less(x, y)
  {
    assert AclKey(x)[1..] == x && AclKey(y)[1..] == y;
  }

  lemma KeysInOrder(items: seq<Entry<Value>>, keys: seq<string>, descending: bool)
    requires InOrder(items, descending) && |keys| == |items|
    requires forall i :: 0 <= i < |items| ==> items[i].key == AclKey(keys[i])
    ensures Monotone(keys, descending)
  {
    hide Lex.Less, AclKey;
    forall i, j | 0 <= i < j < |keys|
      ensures if descending then Lex.Less(keys[j], keys[i]) else Lex.Less(keys[i], keys[j])
    {
      if descending {
        TailLess(keys[j], keys[i]);
      } else {
        TailLess(keys[i], keys[j]);
      }
    }
  }

  lemma KeyListed(store: Kv, filters: seq<Filter>, pick: Entry<Value> -> bool, items: seq<Entry<Value>>,
      keys: seq<string>, k: string)
    requires |keys| == |items| && forall i :: 0 <= i < |items| ==> items[i].key == AclKey(keys[i])
    requires forall e :: e in items <==> Yielded(store, "a", e) && pick(e)
    requires forall e :: pick(e) <==> PassesAll(filters, Shown(e))
    ensures k in keys <==> Listed(store, filters, k)
  {
    hide PassesAll;
    if k in keys {
      var i :| 0 <= i < |keys| && keys[i] == k;
      assert items[i] in items;
    }
    if Listed(store, filters, k) {
      var e := Entry(AclKey(k), Op.Put(store[AclKey(k)]));
      assert Yielded(store, "a", e);
      var i :| 0 <= i < |items| && items[i] == e;
      assert AclKey(keys[i])[1..] == keys[i] && AclKey(k)[1..] == k;
      assert keys[i] == k;
    }
  }
}
