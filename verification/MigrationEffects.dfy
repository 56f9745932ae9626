/**
 * What the migration engine leaves, said without the engine: the storage of every run as a fold of
 * the configured callbacks over the heights, and the loaded set as a function of the configuration.
 */
module MigrationEffects {
  import opened Wrappers
  import opened Bytes
  import Lex
  import opened Migration

  // -------------------------------------------------------------------------------------------
  // Storage
  // -------------------------------------------------------------------------------------------

  /** The storage after the first `n` migrations have made their owed callbacks. */
  function Through<T>(ms: seq<Migration<T>>, s: T, h: Height, n: nat): T
    requires n <= |ms|
  {
    if n == 0 then s
    else
      var before := Through(ms, s, h, n - 1);
      match Owed(ms[n - 1], h)
      case None => before
      case Some(callback) => callback(before, ms[n - 1].metadata.extra).storage
  }

  /** Whether a migration owes no callback, or one that succeeds on this storage. */
  predicate Succeeds<T>(m: Migration<T>, s: T, h: Height) {
    match Owed(m, h)
    case None => true
    case Some(callback) => callback(s, m.metadata.extra).ok
  }

  lemma {:induction false} ThroughUnfolded<T>(ms: seq<Migration<T>>, s: T, h: Height, n: nat)
    requires 0 < n <= |ms|
    ensures Through(ms, s, h, n) == Through(ms[1..], Through(ms, s, h, 1), h, n - 1)
  {
    if n == 1 {
    } else {
      ThroughUnfolded(ms, s, h, n - 1);
      assert ms[1..][n - 2] == ms[n - 1];
    }
  }

  /**
   * A step applies the owed callbacks in name order: those before the failing position succeed, the
   * one at it fails but leaves its storage, and those behind it are not made.
   */
  lemma {:induction false} StepUpToFailing<T>(ms: seq<Migration<T>>, s: T, h: Height)
    ensures var i := Failing(ms, s, h);
            var r := StepAll(ms, s, h);
            && (forall k :: 0 <= k < i ==> Succeeds(ms[k], Through(ms, s, h, k), h))
            && (i < |ms| ==> !Succeeds(ms[i], Through(ms, s, h, i), h))
            && r.ok == (i == |ms|)
            && r.storage == Through(ms, s, h, if i < |ms| then i + 1 else i)
  {
    if ms == [] {
    } else {
      var one := StepOne(ms[0], s, h);
      FirstStep(ms, s, h);
      if one.ok {
        hide StepOne, Owed, Succeeds;
        StepUpToFailing(ms[1..], one.storage, h);
        var i := Failing(ms, s, h);
        forall k | 0 <= k <= i && k < |ms| ensures k > 0 ==>
          Through(ms, s, h, k) == Through(ms[1..], one.storage, h, k - 1) && ms[k] == ms[1..][k - 1]
        {
          if k > 0 { ThroughUnfolded(ms, s, h, k); }
        }
        ThroughUnfolded(ms, s, h, if i < |ms| then i + 1 else i);
      }
    }
  }

  lemma FirstStep<T>(ms: seq<Migration<T>>, s: T, h: Height)
    requires ms != []
    ensures StepOne(ms[0], s, h).storage == Through(ms, s, h, 1)
    ensures StepOne(ms[0], s, h).ok <==> Succeeds(ms[0], Through(ms, s, h, 0), h)
  {
    assert Through(ms, s, h, 0) == s;
  }

  /** The callbacks of a configured set over a list of heights, each height up to its first failure. */
  function FoldAll<T>(base: seq<Migration<T>>, s: T, hs: seq<Height>): T
    decreases |hs|
  {
    if hs == [] then s else FoldAll(base, Fold(base, s, hs[0]).storage, hs[1..])
  }

  predicate AllSucceed<T>(base: seq<Migration<T>>, s: T, hs: seq<Height>)
    decreases |hs|
  {
    hs == [] || (Fold(base, s, hs[0]).ok && AllSucceed(base, Fold(base, s, hs[0]).storage, hs[1..]))
  }

  /** What is owed at the next height is what the configuration says, however the flags stand. */
  lemma {:induction false} FoldAgrees<T>(ms: seq<Migration<T>>, base: seq<Migration<T>>, s: T, h: Height)
    requires AllAgree(ms, base, h)
    ensures Fold(ms, s, h + 1) == Fold(base, s, h + 1)
  {
    if ms == [] {
    } else {
      assert Agree(ms[0], base[0], h);
      assert Owed(ms[0], h + 1) == Owed(base[0], h + 1);
      assert AllAgree(ms[1..], base[1..], h);
      match Owed(ms[0], h + 1)
      case None => FoldAgrees(ms[1..], base[1..], s, h);
      case Some(callback) => FoldAgrees(ms[1..], base[1..], callback(s, ms[0].metadata.extra).storage, h);
    }
  }

  lemma {:induction false} RunIsFoldFrom<T>(base: seq<Migration<T>>, n: Node<T>, events: seq<Event>)
    requires AllAgree(n.set_, base, n.height)
    ensures Run(base, n, events).storage == FoldAll(base, n.storage, HeightsFrom(n.height, events))
    ensures Run(base, n, events).ok <==> n.ok && AllSucceed(base, n.storage, HeightsFrom(n.height, events))
    decreases |events|
  {
    hide AllAgree, StepAll, Fold, AllAtHeight;
    if events == [] {
    } else if events[0].Block? {
      StepIsFold(n.set_, n.storage, n.height + 1);
      FoldAgrees(n.set_, base, n.storage, n.height);
      StepAllKeeps(n.set_, base, n.storage, n.height);
      RunIsFoldFrom(base, Next(base, n, Block), events[1..]);
      assert HeightsFrom(n.height, events)[1..] == HeightsFrom(n.height + 1, events[1..]);
    } else {
      LoadAgrees(base, n.height);
      RunIsFoldFrom(base, Next(base, n, Restart), events[1..]);
    }
  }

  /**
   * Every run, with any restarts and whatever fails in it: its storage is the fold of the configured
   * callbacks over the heights of its blocks, `initialize` at each migration's own height and `update`
   * above it, and it fails just when one of them does.
   */
  lemma RunIsFold<T>(base: seq<Migration<T>>, s: T, h0: Height, events: seq<Event>)
    requires Inactive(base)
    ensures var r := Run(base, Start(base, s, h0), events);
            && r.storage == FoldAll(base, s, HeightsFrom(h0, events))
            && (r.ok <==> AllSucceed(base, s, HeightsFrom(h0, events)))
  {
    hide AllAgree, AllAtHeight, Run, FoldAll, AllSucceed;
    LoadAgrees(base, h0);
    RunIsFoldFrom(base, Start(base, s, h0), events);
  }

  // -------------------------------------------------------------------------------------------
  // Configuration
  // -------------------------------------------------------------------------------------------

  /** The place of the last registered migration of a name. */
  predicate LastRegistered<T>(registry: seq<Inner<T>>, name: string, i: nat) {
    && i < |registry| && registry[i].name == name
    && forall k :: i < k < |registry| ==> registry[k].name != name
  }

  /** The place of the last configuration entry of a name. */
  predicate LastConfigured(entries: seq<(string, Metadata)>, name: string, j: nat) {
    && j < |entries| && entries[j].0 == name
    && forall k :: j < k < |entries| ==> entries[k].0 != name
  }

  predicate IsRegistered<T>(registry: seq<Inner<T>>, name: string) {
    exists i :: 0 <= i < |registry| && registry[i].name == name
  }

  predicate IsConfigured(entries: seq<(string, Metadata)>, name: string) {
    exists j :: 0 <= j < |entries| && entries[j].0 == name
  }

  lemma {:induction false} LookupIsLast<T>(registry: seq<Inner<T>>, name: string)
    ensures Lookup(registry, name).Some? <==> IsRegistered(registry, name)
    ensures forall i: nat :: LastRegistered(registry, name, i) ==> Lookup(registry, name) == Some(registry[i])
    ensures Lookup(registry, name).Some? ==> Lookup(registry, name).value.name == name
  {
    if registry == [] {
    } else {
      var n := |registry| - 1;
      LookupIsLast(registry[..n], name);
      forall i: nat | LastRegistered(registry, name, i) ensures Lookup(registry, name) == Some(registry[i]) {
        if i < n {
          assert LastRegistered(registry[..n], name, i);
        }
      }
    }
  }

  function MemberAt<T>(ms: seq<Migration<T>>, name: string): Option<Migration<T>> {
    if ms == [] then None
    else if ms[0].inner.name == name then Some(ms[0])
    else MemberAt(ms[1..], name)
  }

  lemma {:induction false} InsertAt<T>(ms: seq<Migration<T>>, m: Migration<T>, name: string)
    ensures MemberAt(Insert(ms, m), name) == if m.inner.name == name then Some(m) else MemberAt(ms, name)
  {
    if ms == [] {
    } else {
      InsertAt(ms[1..], m, name);
      assert ([m] + ms)[1..] == ms;
      assert ([m] + ms[1..])[1..] == ms[1..];
    }
  }

  lemma {:induction false} MemberIn<T>(ms: seq<Migration<T>>, name: string) returns (k: nat)
    requires MemberAt(ms, name).Some?
    ensures k < |ms| && ms[k] == MemberAt(ms, name).value && ms[k].inner.name == name
  {
    if ms[0].inner.name == name {
      return 0;
    }
    k := MemberIn(ms[1..], name);
    k := k + 1;
  }

  lemma {:induction false} MemberNamed<T>(ms: seq<Migration<T>>, name: string)
    ensures MemberAt(ms, name).Some? <==> name in Names(ms)
  {
    if ms == [] {
    } else {
      MemberNamed(ms[1..], name);
    }
  }

  /** Every entry is known: what `Configure` asks of a configuration. */
  predicate AllRegistered<T>(registry: seq<Inner<T>>, entries: seq<(string, Metadata)>) {
    forall j :: 0 <= j < |entries| ==> IsRegistered(registry, entries[j].0)
  }

  lemma {:induction false} ConfigureIff<T>(registry: seq<Inner<T>>, entries: seq<(string, Metadata)>,
      acc: seq<Migration<T>>)
    ensures Configure(registry, entries, acc).Some? <==> AllRegistered(registry, entries)
    decreases |entries|
  {
    if entries == [] {
    } else {
      hide IsRegistered, Insert;
      LookupIsLast(registry, entries[0].0);
      if Lookup(registry, entries[0].0).Some? {
        ConfigureIff(registry, entries[1..], Insert(acc, New(Lookup(registry, entries[0].0).value, entries[0].1)));
        assert entries == [entries[0]] + entries[1..];
        assert AllRegistered(registry, entries) <==> AllRegistered(registry, entries[1..]) by {
          forall j | 0 < j < |entries| ensures entries[j] == entries[1..][j - 1] {}
        }
      }
    }
  }

  /** A configured migration: the last registered one of the name, with the last metadata of the name. */
  function Configured<T>(inner: Inner<T>, metadata: Metadata): Migration<T> {
    Migration(inner, metadata, !metadata.disabled, false)
  }

  lemma {:induction false} ConfigureOther<T>(registry: seq<Inner<T>>, entries: seq<(string, Metadata)>,
      acc: seq<Migration<T>>, name: string)
    requires Configure(registry, entries, acc).Some? && !IsConfigured(entries, name)
    ensures MemberAt(Configure(registry, entries, acc).value, name) == MemberAt(acc, name)
    decreases |entries|
  {
    if entries == [] {
    } else {
      hide Insert, MemberAt;
      assert entries[0].0 != name;
      assert !IsConfigured(entries[1..], name) by {
        assert forall j :: 0 <= j < |entries| - 1 ==> entries[1..][j] == entries[j + 1];
      }
      LookupIsLast(registry, entries[0].0);
      var m := New(Lookup(registry, entries[0].0).value, entries[0].1);
      InsertAt(acc, m, name);
      ConfigureOther(registry, entries[1..], Insert(acc, m), name);
    }
  }

  lemma {:induction false} ConfigureNamed<T>(registry: seq<Inner<T>>, entries: seq<(string, Metadata)>,
      acc: seq<Migration<T>>, name: string, i: nat, j: nat)
    requires Configure(registry, entries, acc).Some?
    requires LastRegistered(registry, name, i) && LastConfigured(entries, name, j)
    ensures MemberAt(Configure(registry, entries, acc).value, name) == Some(Configured(registry[i], entries[j].1))
    decreases |entries|
  {
    hide Insert, MemberAt;
    LookupIsLast(registry, entries[0].0);
    var m := New(Lookup(registry, entries[0].0).value, entries[0].1);
    if j == 0 {
      assert !IsConfigured(entries[1..], name) by {
        assert forall k :: 0 <= k < |entries| - 1 ==> entries[1..][k] == entries[k + 1];
      }
      LookupIsLast(registry, name);
      InsertAt(acc, m, name);
      ConfigureOther(registry, entries[1..], Insert(acc, m), name);
    } else {
      assert LastConfigured(entries[1..], name, j - 1);
      ConfigureNamed(registry, entries[1..], Insert(acc, m), name, i, j - 1);
    }
  }

  lemma {:induction false} FindRegistered<T>(registry: seq<Inner<T>>, name: string) returns (i: nat)
    requires IsRegistered(registry, name)
    ensures LastRegistered(registry, name, i)
  {
    i := |registry| - 1;
    if registry[i].name != name {
      var k :| 0 <= k < |registry| && registry[k].name == name;
      assert registry[..i][k].name == name;
      i := FindRegistered(registry[..i], name);
    }
  }

  lemma {:induction false} FindConfigured(entries: seq<(string, Metadata)>, name: string) returns (j: nat)
    requires IsConfigured(entries, name)
    ensures LastConfigured(entries, name, j)
  {
    j := |entries| - 1;
    if entries[j].0 != name {
      var k :| 0 <= k < |entries| && entries[k].0 == name;
      assert entries[..j][k].0 == name;
      j := FindConfigured(entries[..j], name);
    }
  }

  /** The names of the set are those configured. */
  lemma ConfiguredNames<T>(registry: seq<Inner<T>>, entries: seq<(string, Metadata)>, name: string)
    requires Configure(registry, entries, []).Some?
    ensures name in Names(Configure(registry, entries, []).value) <==> IsConfigured(entries, name)
  {
    hide Configure, MemberAt, Names, IsRegistered;
    var ms := Configure(registry, entries, []).value;
    MemberNamed(ms, name);
    ConfigureIff(registry, entries, []);
    if IsConfigured(entries, name) {
      var j := FindConfigured(entries, name);
      assert IsRegistered(registry, entries[j].0);
      var i := FindRegistered(registry, name);
      ConfigureNamed(registry, entries, [], name, i, j);
    } else {
      ConfigureOther(registry, entries, [], name);
      NoMember<T>(name);
    }
  }

  lemma NoMember<T>(name: string)
    ensures MemberAt<T>([], name) == None
  {
  }

  /**
   * A configuration is accepted just when every entry names a registered migration and, if it is
   * strict, every registered migration has an entry.
   */
  lemma LoadIff<T>(registry: seq<Inner<T>>, config: Config, h: Height)
    ensures Load(registry, config, h).Some? <==>
            && AllRegistered(registry, config.migrations)
            && (config.strict ==>
                 forall i :: 0 <= i < |registry| ==> IsConfigured(config.migrations, registry[i].name))
  {
    hide Configure, IsConfigured, AllRegistered, Names, AllAtHeight;
    ConfigureIff(registry, config.migrations, []);
    if Configure(registry, config.migrations, []).Some? {
      forall i | 0 <= i < |registry|
        ensures registry[i].name in Names(Configure(registry, config.migrations, []).value) <==>
                IsConfigured(config.migrations, registry[i].name)
      {
        ConfiguredNames(registry, config.migrations, registry[i].name);
      }
    }
  }

  /**
   * A loaded set holds, for each configured name, the last migration registered under it with the
   * last metadata configured for it. It is enabled unless disabled there, and active just when it is
   * enabled and its height is reached or, for a trigger, the height is in its half-open range.
   */
  lemma LoadedMember<T>(registry: seq<Inner<T>>, config: Config, h: Height, name: string, i: nat, j: nat)
      returns (k: nat)
    requires Load(registry, config, h).Some?
    requires LastRegistered(registry, name, i) && LastConfigured(config.migrations, name, j)
    ensures var ms := Load(registry, config, h).value;
            var metadata := config.migrations[j].1;
            var upper := if metadata.upperBlockHeight.Some? then metadata.upperBlockHeight.value else TWO_64 - 1;
            && k < |ms| && ms[k].inner == registry[i] && ms[k].metadata == metadata
            && ms[k].enabled == !metadata.disabled
            && (ms[k].active <==>
                 (!metadata.disabled && metadata.blockHeight <= h && (registry[i].kind.Trigger? ==> h < upper)))
  {
    hide Configure, MemberAt, LastRegistered, LastConfigured;
    ConfigureNamed(registry, config.migrations, [], name, i, j);
    var base := Base(registry, config).value;
    k := MemberIn(base, name);
    assert Load(registry, config, h).value[k] == AtHeight(base[k], h);
  }

  /** The set is in name order and holds no other names. */
  lemma LoadedNames<T>(registry: seq<Inner<T>>, config: Config, h: Height)
    requires Load(registry, config, h).Some?
    ensures var ms := Load(registry, config, h).value;
            Sorted(ms) && forall name :: name in Names(ms) <==> IsConfigured(config.migrations, name)
  {
    hide Configure, IsConfigured, Sorted, AllAtHeight;
    var base := Base(registry, config).value;
    Ordered(registry, config);
    SortedAtHeight(base, h);
    forall name ensures name in Names(base) <==> IsConfigured(config.migrations, name) {
      ConfiguredNames(registry, config.migrations, name);
    }
  }

  lemma Ordered<T>(registry: seq<Inner<T>>, config: Config)
    requires Base(registry, config).Some?
    ensures Sorted(Base(registry, config).value) && Inactive(Base(registry, config).value)
  {
    hide Configure;
    assert Sorted<T>([]) && Inactive<T>([]);
    ConfigureKeeps<T>(registry, config.migrations, []);
  }

  // -------------------------------------------------------------------------------------------
  // Disabled migrations
  // -------------------------------------------------------------------------------------------

  lemma DisabledStep<T>(ms: seq<Migration<T>>, s: T, h: Height, j: nat)
    requires Sorted(ms) && j < |ms| && !ms[j].enabled
    ensures StepAll(ms, s, h).after[j] == ms[j]
    ensures CallsOf(StepAll(ms, s, h).calls, ms[j].inner.name) == []
  {
    hide StepAll, CallsOf, Sorted;
    StepEach(ms, s, h, j);
  }

  lemma {:induction false} DisabledFrom<T>(base: seq<Migration<T>>, n: Node<T>, events: seq<Event>, j: nat)
    requires Sorted(base) && Sorted(n.set_) && |n.set_| == |base|
    requires j < |base| && !base[j].enabled && n.set_[j] == base[j]
    requires CallsOf(n.calls, base[j].inner.name) == []
    ensures var r := Run(base, n, events);
            && |r.set_| == |base| && r.set_[j] == base[j]
            && CallsOf(r.calls, base[j].inner.name) == []
    decreases |events|
  {
    hide StepAll, CallsOf, Sorted, AllAtHeight;
    if events == [] {
    } else {
      if events[0].Block? {
        var step := StepAll(n.set_, n.storage, n.height + 1);
        DisabledStep(n.set_, n.storage, n.height + 1, j);
        StepKeepsNames(n.set_, n.storage, n.height + 1);
        CallsOfConcat(n.calls, step.calls, base[j].inner.name);
      } else {
        SortedAtHeight(base, n.height);
      }
      DisabledFrom(base, Next(base, n, events[0]), events[1..], j);
    }
  }

  /**
   * A migration disabled in the configuration keeps its flag over every run: no callback is made to
   * it, no hotfix of it applies, and only a trigger that is active by default counts as active.
   */
  lemma DisabledStaysOff<T>(registry: seq<Inner<T>>, config: Config, s: T, h0: Height, events: seq<Event>,
      name: string, i: nat, j: nat) returns (k: nat)
    requires Base(registry, config).Some?
    requires LastRegistered(registry, name, i) && LastConfigured(config.migrations, name, j)
    requires config.migrations[j].1.disabled
    ensures var base := Base(registry, config).value;
            var r := Run(base, Start(base, s, h0), events);
            && k < |r.set_| && r.set_[k].inner == registry[i] && CallsOf(r.calls, name) == []
            && (r.set_[k].IsActive() <==> registry[i].kind.Trigger? && registry[i].kind.activeByDefault)
            && (forall b, h :: HotfixOf(r.set_[k], b, h) == None)
  {
    hide Configure, MemberAt, LastRegistered, LastConfigured, Run, CallsOf, Sorted;
    ConfigureNamed(registry, config.migrations, [], name, i, j);
    var base := Base(registry, config).value;
    k := MemberIn(base, name);
    Ordered(registry, config);
    SortedAtHeight(base, h0);
    NoCalls(name);
    DisabledFrom(base, Start(base, s, h0), events, k);
  }

  lemma NoCalls(name: string)
    ensures CallsOf([], name) == []
  {
  }
}
