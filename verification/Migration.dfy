/**
 * The migration engine. A migration becomes active in two ways: `load` marks the ones whose
 * height was already reached, and the step made at each block activates a migration at exactly
 * its height. Callbacks change the storage and may fail; a failure ends the step.
 */
module Migration {
  import opened Wrappers
  import opened Bytes
  import Lex

  type Height = nat
  type Extra = map<string, string>

  /** What a callback leaves: the storage, possibly changed even when it failed. */
  datatype Done<+T> = Done(storage: T, ok: bool)

  type Callback<!T> = (T, Extra) -> Done<T>

  datatype Kind<!T> =
    | Regular(initialize: Callback<T>, update: Callback<T>)
    | Hotfix(fix: Bytes -> Option<Bytes>)
    | Trigger(activeByDefault: bool)

  datatype Inner<!T> = Inner(kind: Kind<T>, name: string)

  datatype Metadata = Metadata(blockHeight: Height, upperBlockHeight: Option<Height>, disabled: bool, extra: Extra)

  datatype Migration<!T> = Migration(inner: Inner<T>, metadata: Metadata, enabled: bool, active: bool) {
    predicate IsTrigger() { inner.kind.Trigger? }
    predicate IsRegular() { inner.kind.Regular? }

    /** The half-open range of a trigger; without an upper bound it ends at the largest height. */
    predicate InRange(h: Height) {
      metadata.blockHeight <=
        h < (if metadata.upperBlockHeight.Some? then metadata.upperBlockHeight.value else TWO_64 - 1)
    }

    predicate IsActive() {
      active || (inner.kind.Trigger? && !enabled && inner.kind.activeByDefault)
    }
  }

  function New<T>(inner: Inner<T>, metadata: Metadata): Migration<T> {
    Migration(inner, metadata, !metadata.disabled, false)
  }

  datatype Activated = Initialize | Update | Nothing

  /** One migration at one block: whether it becomes active, and which callback is due. */
  function ActivateAt<T>(m: Migration<T>, h: Height): (Migration<T>, Activated) {
    if m.IsTrigger() then (m.(active := m.InRange(h)), Nothing)
    else if h == m.metadata.blockHeight && !m.active then (m.(active := true), Initialize)
    else if h > m.metadata.blockHeight then (m, Update)
    else (m, Nothing)
  }

  /** Activation while loading: no callback is made. */
  function SetActiveAt<T>(m: Migration<T>, h: Height): Migration<T> {
    if m.IsTrigger() then m.(active := m.InRange(h))
    else if h >= m.metadata.blockHeight then m.(active := true)
    else m
  }

  /** A callback that was made. */
  datatype Call = Call(name: string, what: Activated)

  /** The effect of a step on one migration or on a list of them, and the callbacks it made. */
  datatype Stepped<!M, +T> = Stepped(after: M, storage: T, ok: bool, calls: seq<Call>)

  function StepOne<T>(m: Migration<T>, s: T, h: Height): Stepped<Migration<T>, T> {
    if !m.enabled then Stepped(m, s, true, [])
    else
      var (m', what) := ActivateAt(m, h);
      if what == Nothing || !m.IsRegular() then Stepped(m', s, true, [])
      else
        var callback := if what == Initialize then m.inner.kind.initialize else m.inner.kind.update;
        var done := callback(s, m.metadata.extra);
        Stepped(m', done.storage, done.ok, [Call(m.inner.name, what)])
  }

  /** All migrations in name order, up to the first callback that fails. */
  function StepAll<T>(ms: seq<Migration<T>>, s: T, h: Height): (r: Stepped<seq<Migration<T>>, T>)
    ensures |r.after| == |ms|
  {
    if ms == [] then Stepped([], s, true, [])
    else
      var one := StepOne(ms[0], s, h);
      if !one.ok then Stepped([one.after] + ms[1..], one.storage, false, one.calls)
      else
        var rest := StepAll(ms[1..], one.storage, h);
        Stepped([one.after] + rest.after, rest.storage, rest.ok, one.calls + rest.calls)
  }

  // -------------------------------------------------------------------------------------------
  // The storage
  // -------------------------------------------------------------------------------------------

  /** The callback that a migration owes a block: `initialize` at its height, `update` above it. */
  function Owed<T>(m: Migration<T>, h: Height): Option<Callback<T>> {
    if !m.enabled || !m.inner.kind.Regular? || h < m.metadata.blockHeight then None
    else if h > m.metadata.blockHeight then Some(m.inner.kind.update)
    else if m.active then None
    else Some(m.inner.kind.initialize)
  }

  /** The owed callbacks applied in name order, each with its own `extra`, up to the first that fails. */
  function Fold<T>(ms: seq<Migration<T>>, s: T, h: Height): Done<T> {
    if ms == [] then Done(s, true)
    else
      match Owed(ms[0], h)
      case None => Fold(ms[1..], s, h)
      case Some(callback) =>
        var done := callback(s, ms[0].metadata.extra);
        if done.ok then Fold(ms[1..], done.storage, h) else done
  }

  /** A step leaves the storage and the outcome of the owed callbacks. */
  lemma {:induction false} StepIsFold<T>(ms: seq<Migration<T>>, s: T, h: Height)
    ensures StepAll(ms, s, h).storage == Fold(ms, s, h).storage && StepAll(ms, s, h).ok == Fold(ms, s, h).ok
  {
    if ms == [] {
    } else {
      var one := StepOne(ms[0], s, h);
      if one.ok {
        StepIsFold(ms[1..], one.storage, h);
      }
    }
  }

  // -------------------------------------------------------------------------------------------
  // Loading
  // -------------------------------------------------------------------------------------------

  datatype Config = Config(strict: bool, migrations: seq<(string, Metadata)>)

  /** The last registered migration of that name. */
  function Lookup<T>(registry: seq<Inner<T>>, name: string): Option<Inner<T>> {
    if registry == [] then None
    else
      var n := |registry| - 1;
      if registry[n].name == name then Some(registry[n]) else Lookup(registry[..n], name)
  }

  /** `BTreeMap::insert` by name. */
  function Insert<T>(ms: seq<Migration<T>>, m: Migration<T>): seq<Migration<T>> {
    if ms == [] then [m]
    else if m.inner.name == ms[0].inner.name then [m] + ms[1..]
    else if Lex.Less(m.inner.name, ms[0].inner.name) then [m] + ms
    else [ms[0]] + Insert(ms[1..], m)
  }

  /** The configured migrations, none of them active yet; an unknown name is an error. */
  function Configure<T>(registry: seq<Inner<T>>, entries: seq<(string, Metadata)>,
      acc: seq<Migration<T>>): Option<seq<Migration<T>>>
    decreases |entries|
  {
    if entries == [] then Some(acc)
    else
      var inner :- Lookup(registry, entries[0].0);
      Configure(registry, entries[1..], Insert(acc, New(inner, entries[0].1)))
  }

  function Names<T>(ms: seq<Migration<T>>): set<string> {
    if ms == [] then {} else {ms[0].inner.name} + Names(ms[1..])
  }

  /** The set before activation, or `None` when the configuration is refused. */
  function Base<T>(registry: seq<Inner<T>>, config: Config): Option<seq<Migration<T>>> {
    var ms :- Configure(registry, config.migrations, []);
    if config.strict && exists i :: 0 <= i < |registry| && registry[i].name !in Names(ms) then None else Some(ms)
  }

  function AtHeight<T>(m: Migration<T>, h: Height): Migration<T> {
    if m.enabled then SetActiveAt(m, h) else m
  }

  function AllAtHeight<T>(ms: seq<Migration<T>>, h: Height): (r: seq<Migration<T>>)
    ensures |r| == |ms|
    ensures forall i :: 0 <= i < |ms| ==> r[i] == AtHeight(ms[i], h)
  {
    if ms == [] then [] else [AtHeight(ms[0], h)] + AllAtHeight(ms[1..], h)
  }

  function Load<T>(registry: seq<Inner<T>>, config: Config, h: Height): Option<seq<Migration<T>>> {
    var ms :- Base(registry, config);
    Some(AllAtHeight(ms, h))
  }

  /** Names in strictly increasing order: the keys of the map. */
  predicate Sorted<T>(ms: seq<Migration<T>>) {
    ms == [] || ((forall n :: n in Names(ms[1..]) ==> Lex.Less(ms[0].inner.name, n)) && Sorted(ms[1..]))
  }

  predicate Inactive<T>(ms: seq<Migration<T>>) {
    forall i :: 0 <= i < |ms| ==> !ms[i].active
  }

  lemma {:induction false} InsertKeeps<T>(ms: seq<Migration<T>>, m: Migration<T>)
    requires Sorted(ms) && Inactive(ms) && !m.active
    ensures Names(Insert(ms, m)) == Names(ms) + {m.inner.name}
    ensures Sorted(Insert(ms, m)) && Inactive(Insert(ms, m))
  {
    if ms == [] {
    } else {
      var x, y := m.inner.name, ms[0].inner.name;
      if x == y {
        assert ([m] + ms[1..])[1..] == ms[1..];
      } else if Lex.Less(x, y) {
        forall n | n in Names(ms[1..]) ensures Lex.Less(x, n) {
          Lex.Transitive(x, y, n);
        }
        assert ([m] + ms)[1..] == ms;
      } else {
        Lex.Total(x, y);
        InsertKeeps(ms[1..], m);
        assert ([ms[0]] + Insert(ms[1..], m))[1..] == Insert(ms[1..], m);
      }
    }
  }

  lemma {:induction false} ConfigureKeeps<T>(registry: seq<Inner<T>>, entries: seq<(string, Metadata)>,
      acc: seq<Migration<T>>)
    requires Sorted(acc) && Inactive(acc)
    ensures Configure(registry, entries, acc).Some? ==>
              Sorted(Configure(registry, entries, acc).value) && Inactive(Configure(registry, entries, acc).value)
    decreases |entries|
  {
    if entries != [] && Lookup(registry, entries[0].0).Some? {
      var m := New(Lookup(registry, entries[0].0).value, entries[0].1);
      InsertKeeps(acc, m);
      ConfigureKeeps(registry, entries[1..], Insert(acc, m));
    }
  }

  // -------------------------------------------------------------------------------------------
  // Restarts
  // -------------------------------------------------------------------------------------------

  /** A node between two blocks. */
  datatype Node<!T> = Node(set_: seq<Migration<T>>, storage: T, height: Height, ok: bool, calls: seq<Call>)

  datatype Event = Block | Restart

  /** A block steps at the next height; a restart loads the set again at the height reached. */
  function Next<T>(base: seq<Migration<T>>, n: Node<T>, e: Event): Node<T> {
    match e
    case Block =>
      var r := StepAll(n.set_, n.storage, n.height + 1);
      Node(r.after, r.storage, n.height + 1, n.ok && r.ok, n.calls + r.calls)
    case Restart => n.(set_ := AllAtHeight(base, n.height))
  }

  function Run<T>(base: seq<Migration<T>>, n: Node<T>, events: seq<Event>): Node<T>
    decreases |events|
  {
    if events == [] then n else Run(base, Next(base, n, events[0]), events[1..])
  }

  function Start<T>(base: seq<Migration<T>>, s: T, h: Height): Node<T> {
    Node(AllAtHeight(base, h), s, h, true, [])
  }

  function OnlyBlocks(events: seq<Event>): seq<Event> {
    if events == [] then [] else (if events[0].Block? then [Block] else []) + OnlyBlocks(events[1..])
  }

  // -------------------------------------------------------------------------------------------
  // What a restart cannot change, whatever fails
  // -------------------------------------------------------------------------------------------

  /**
   * The same migration, but for a flag that no longer decides anything: below the height of a
   * regular migration or a hotfix the flag decides whether it is still to be activated; from there
   * on, and for triggers at once, no callback depends on it.
   */
  ghost predicate Agree<T>(x: Migration<T>, y: Migration<T>, h: Height) {
    && x.inner == y.inner && x.metadata == y.metadata && x.enabled == y.enabled
    && (!x.IsTrigger() && x.metadata.blockHeight > h ==> x.active == y.active)
  }

  ghost predicate AllAgree<T>(xs: seq<Migration<T>>, ys: seq<Migration<T>>, h: Height) {
    |xs| == |ys| && forall i :: 0 <= i < |xs| ==> Agree(xs[i], ys[i], h)
  }

  lemma StepOneAgrees<T>(x: Migration<T>, y: Migration<T>, s: T, h: Height)
    requires Agree(x, y, h)
    ensures var p, q := StepOne(x, s, h + 1), StepOne(y, s, h + 1);
            p.storage == q.storage && p.ok == q.ok && p.calls == q.calls && Agree(p.after, q.after, h + 1)
    ensures Agree(StepOne(x, s, h + 1).after, y, h + 1)
  {
  }

  lemma Later<T>(xs: seq<Migration<T>>, ys: seq<Migration<T>>, h: Height)
    requires AllAgree(xs, ys, h)
    ensures AllAgree(xs, ys, h + 1)
  {
  }

  /** Two sets that agree make the same callbacks with the same outcome, and agree afterwards. */
  lemma {:induction false} StepAllAgrees<T>(xs: seq<Migration<T>>, ys: seq<Migration<T>>, s: T, h: Height)
    requires AllAgree(xs, ys, h)
    ensures var p, q := StepAll(xs, s, h + 1), StepAll(ys, s, h + 1);
            p.storage == q.storage && p.ok == q.ok && p.calls == q.calls && AllAgree(p.after, q.after, h + 1)
  {
    if xs == [] {
    } else {
      hide StepOne, Agree;
      var one, two := StepOne(xs[0], s, h + 1), StepOne(ys[0], s, h + 1);
      assert Agree(xs[0], ys[0], h);
      StepOneAgrees(xs[0], ys[0], s, h);
      assert AllAgree(xs[1..], ys[1..], h);
      if one.ok {
        StepAllAgrees(xs[1..], ys[1..], one.storage, h);
      } else {
        Later(xs[1..], ys[1..], h);
      }
    }
  }

  /** A set goes on agreeing with the one it was configured from. */
  lemma {:induction false} StepAllKeeps<T>(xs: seq<Migration<T>>, base: seq<Migration<T>>, s: T, h: Height)
    requires AllAgree(xs, base, h)
    ensures AllAgree(StepAll(xs, s, h + 1).after, base, h + 1)
  {
    if xs == [] {
    } else {
      hide StepOne, Agree;
      var one := StepOne(xs[0], s, h + 1);
      assert Agree(xs[0], base[0], h);
      StepOneAgrees(xs[0], base[0], s, h);
      assert AllAgree(xs[1..], base[1..], h);
      if one.ok {
        StepAllKeeps(xs[1..], base[1..], one.storage, h);
      } else {
        Later(xs[1..], base[1..], h);
      }
    }
  }

  lemma LoadAgrees<T>(base: seq<Migration<T>>, h: Height)
    ensures AllAgree(AllAtHeight(base, h), base, h)
  {
  }

  /** Two sets that agree with a third agree with each other. */
  lemma AgreeThrough<T>(xs: seq<Migration<T>>, ys: seq<Migration<T>>, base: seq<Migration<T>>, h: Height)
    requires AllAgree(xs, base, h) && AllAgree(ys, base, h)
    ensures AllAgree(xs, ys, h)
  {
    forall i | 0 <= i < |xs| ensures Agree(xs[i], ys[i], h) {
      assert Agree(xs[i], base[i], h) && Agree(ys[i], base[i], h);
    }
  }

  /** The same storage, height, outcome and callbacks, with sets that agree. */
  ghost predicate SameEffects<T>(x: Node<T>, y: Node<T>) {
    && x.storage == y.storage && x.height == y.height && x.ok == y.ok && x.calls == y.calls
    && AllAgree(x.set_, y.set_, x.height)
  }

  lemma BlockKeepsEffects<T>(base: seq<Migration<T>>, x: Node<T>, y: Node<T>)
    requires AllAgree(x.set_, base, x.height) && AllAgree(y.set_, base, y.height) && SameEffects(x, y)
    ensures var p, q := Next(base, x, Block), Next(base, y, Block);
            AllAgree(p.set_, base, p.height) && AllAgree(q.set_, base, q.height) && SameEffects(p, q)
  {
    hide StepAll, AllAgree;
    StepAllAgrees(x.set_, y.set_, x.storage, x.height);
    StepAllKeeps(x.set_, base, x.storage, x.height);
    StepAllKeeps(y.set_, base, y.storage, y.height);
  }

  lemma RestartKeepsEffects<T>(base: seq<Migration<T>>, x: Node<T>, y: Node<T>)
    requires AllAgree(x.set_, base, x.height) && AllAgree(y.set_, base, y.height) && SameEffects(x, y)
    ensures var p := Next(base, x, Restart);
            AllAgree(p.set_, base, p.height) && SameEffects(p, y)
  {
    hide AllAtHeight, AllAgree;
    LoadAgrees(base, x.height);
    AgreeThrough(AllAtHeight(base, x.height), y.set_, base, x.height);
  }

  lemma {:induction false} RunsKeepEffects<T>(base: seq<Migration<T>>, x: Node<T>, y: Node<T>, events: seq<Event>)
    requires AllAgree(x.set_, base, x.height) && AllAgree(y.set_, base, y.height) && SameEffects(x, y)
    ensures SameEffects(Run(base, x, events), Run(base, y, OnlyBlocks(events)))
    decreases |events|
  {
    hide Next, AllAgree, SameEffects;
    if events == [] {
    } else if events[0].Block? {
      assert OnlyBlocks(events)[1..] == OnlyBlocks(events[1..]);
      BlockKeepsEffects(base, x, y);
      RunsKeepEffects(base, Next(base, x, Block), Next(base, y, Block), events[1..]);
    } else {
      assert [] + OnlyBlocks(events[1..]) == OnlyBlocks(events[1..]);
      RestartKeepsEffects(base, x, y);
      RunsKeepEffects(base, Next(base, x, Restart), y, events[1..]);
    }
  }

  // -------------------------------------------------------------------------------------------
  // The flags
  // -------------------------------------------------------------------------------------------

  /** One migration, loaded at a height and stepped to the next, is as if loaded at the next. */
  lemma StepOneIsLoad<T>(m: Migration<T>, s: T, h: Height)
    requires !m.active
    ensures StepOne(AtHeight(m, h), s, h + 1).after == AtHeight(m, h + 1)
  {
  }

  /** So is the whole set, up to where a callback failed. */
  lemma {:induction false} StepAllIsLoad<T>(ms: seq<Migration<T>>, s: T, h: Height)
    requires Inactive(ms)
    ensures StepAll(AllAtHeight(ms, h), s, h + 1).ok ==>
            StepAll(AllAtHeight(ms, h), s, h + 1).after == AllAtHeight(ms, h + 1)
  {
    if ms == [] {
    } else {
      var loaded := AllAtHeight(ms, h);
      var one := StepOne(loaded[0], s, h + 1);
      StepOneIsLoad(ms[0], s, h);
      assert loaded[1..] == AllAtHeight(ms[1..], h);
      if one.ok {
        StepAllIsLoad(ms[1..], one.storage, h);
      }
    }
  }

  lemma {:induction false} RunKeepsFailure<T>(base: seq<Migration<T>>, n: Node<T>, events: seq<Event>)
    requires !n.ok
    ensures !Run(base, n, events).ok
    decreases |events|
  {
    if events == [] {
    } else {
      RunKeepsFailure(base, Next(base, n, events[0]), events[1..]);
    }
  }

  lemma {:induction false} RunsKeepFlags<T>(base: seq<Migration<T>>, n: Node<T>, events: seq<Event>)
    requires Inactive(base) && n.set_ == AllAtHeight(base, n.height)
    requires Run(base, n, OnlyBlocks(events)).ok
    ensures Run(base, n, events) == Run(base, n, OnlyBlocks(events))
    ensures Run(base, n, events).set_ == AllAtHeight(base, Run(base, n, events).height)
    decreases |events|
  {
    hide StepAll, AllAtHeight;
    if events == [] {
    } else {
      var next := Next(base, n, events[0]);
      if events[0].Block? {
        assert OnlyBlocks(events)[1..] == OnlyBlocks(events[1..]);
        if !next.ok {
          RunKeepsFailure(base, next, OnlyBlocks(events[1..]));
        }
        StepAllIsLoad(base, n.storage, n.height);
      } else {
        assert [] + OnlyBlocks(events[1..]) == OnlyBlocks(events[1..]);
      }
      RunsKeepFlags(base, next, events[1..]);
    }
  }

  /**
   * Restarting after any blocks, any number of times, whatever fails: the same storage, height,
   * outcome and callbacks as the run without restarts. If no callback failed, the same flags too.
   */
  lemma RestartsInvisible<T>(base: seq<Migration<T>>, n: Node<T>, events: seq<Event>)
    requires Inactive(base) && n.set_ == AllAtHeight(base, n.height)
    ensures SameEffects(Run(base, n, events), Run(base, n, OnlyBlocks(events)))
    ensures Run(base, n, OnlyBlocks(events)).ok ==>
              && Run(base, n, events) == Run(base, n, OnlyBlocks(events))
              && Run(base, n, events).set_ == AllAtHeight(base, Run(base, n, events).height)
  {
    hide Run, AllAgree;
    LoadAgrees(base, n.height);
    AgreeThrough(n.set_, n.set_, base, n.height);
    RunsKeepEffects(base, n, n, events);
    if Run(base, n, OnlyBlocks(events)).ok {
      RunsKeepFlags(base, n, events);
    }
  }

  /** The same, from the configuration: load at `h0`, then blocks and restarts in any order. */
  lemma RestartTransparency<T>(registry: seq<Inner<T>>, config: Config, s: T, h0: Height, events: seq<Event>)
    requires Base(registry, config).Some?
    ensures var base := Base(registry, config).value;
            var n := Start(base, s, h0);
            && Load(registry, config, h0) == Some(n.set_)
            && SameEffects(Run(base, n, events), Run(base, n, OnlyBlocks(events)))
            && (Run(base, n, OnlyBlocks(events)).ok ==> Run(base, n, events) == Run(base, n, OnlyBlocks(events)))
  {
    hide Run, SameEffects;
    ConfigureKeeps(registry, config.migrations, []);
    RestartsInvisible(Base(registry, config).value, Start(Base(registry, config).value, s, h0), events);
  }

  // -------------------------------------------------------------------------------------------
  // Failing callbacks
  // -------------------------------------------------------------------------------------------

  /** The position of the first migration whose callback fails, or the length of the list. */
  function Failing<T>(ms: seq<Migration<T>>, s: T, h: Height): (i: nat)
    ensures i <= |ms|
  {
    if ms == [] then 0
    else
      var one := StepOne(ms[0], s, h);
      if !one.ok then 0 else 1 + Failing(ms[1..], one.storage, h)
  }

  /** A step moves the migrations up to the failing one and leaves those behind it. */
  lemma {:induction false} StepAt<T>(ms: seq<Migration<T>>, s: T, h: Height, j: nat)
    requires j < |ms|
    ensures StepAll(ms, s, h).after[j] == if j <= Failing(ms, s, h) then Moved(ms[j], h) else ms[j]
    ensures StepAll(ms, s, h).ok <==> Failing(ms, s, h) == |ms|
  {
    var one := StepOne(ms[0], s, h);
    if one.ok && |ms| > 1 {
      StepAt(ms[1..], one.storage, h, if j == 0 then 0 else j - 1);
    }
  }

  /** A node that loads at `h0` and then sees `k` blocks, whatever fails in them. */
  function Blocked<T>(base: seq<Migration<T>>, s: T, h0: Height, k: nat): (n: Node<T>)
    ensures |n.set_| == |base| && n.height == h0 + k
  {
    if k == 0 then Start(base, s, h0) else Next(base, Blocked(base, s, h0, k - 1), Block)
  }

  /** Whether the `i`-th block after the load got as far as this migration. */
  predicate Reached<T>(base: seq<Migration<T>>, s: T, h0: Height, i: nat, j: nat)
    requires i > 0
  {
    var n := Blocked(base, s, h0, i - 1);
    j <= Failing(n.set_, n.storage, h0 + i)
  }

  /** The last of the first `k` blocks that got as far, or the load. */
  function LastReached<T>(base: seq<Migration<T>>, s: T, h0: Height, k: nat, j: nat): (i: nat)
    ensures i <= k
  {
    if k == 0 || Reached(base, s, h0, k, j) then k else LastReached(base, s, h0, k - 1, j)
  }

  /** The flag as the blocks since the load have left it. */
  predicate Flag<T>(base: seq<Migration<T>>, s: T, h0: Height, k: nat, j: nat)
    requires j < |base|
  {
    var m := base[j];
    var bh := m.metadata.blockHeight;
    m.enabled &&
    if m.IsTrigger() then m.InRange(h0 + LastReached(base, s, h0, k, j))
    else bh <= h0 || (bh <= h0 + k && Reached(base, s, h0, bh - h0, j))
  }

  lemma {:induction false} FlagAt<T>(base: seq<Migration<T>>, s: T, h0: Height, k: nat, j: nat)
    requires Inactive(base) && j < |base|
    ensures Blocked(base, s, h0, k).set_[j] == base[j].(active := Flag(base, s, h0, k, j))
  {
    hide StepAll, Failing;
    if k == 0 {
    } else {
      var n := Blocked(base, s, h0, k - 1);
      FlagAt(base, s, h0, k - 1, j);
      StepAt(n.set_, n.storage, h0 + k, j);
    }
  }

  /** What a restart would not change at this migration. */
  predicate UpToDate<T>(base: seq<Migration<T>>, s: T, h0: Height, k: nat, j: nat)
    requires j < |base|
  {
    var m := base[j];
    var bh := m.metadata.blockHeight;
    m.enabled ==>
      if m.IsTrigger() then m.InRange(h0 + LastReached(base, s, h0, k, j)) == m.InRange(h0 + k)
      else h0 < bh <= h0 + k ==> Reached(base, s, h0, bh - h0, j)
  }

  lemma BlockedInvisibleIff<T>(base: seq<Migration<T>>, s: T, h0: Height, k: nat)
    requires Inactive(base)
    ensures Blocked(base, s, h0, k).set_ == AllAtHeight(base, h0 + k) <==>
            forall j :: 0 <= j < |base| ==> UpToDate(base, s, h0, k, j)
  {
    hide Blocked, Reached, LastReached;
    var n := Blocked(base, s, h0, k);
    var loaded := AllAtHeight(base, h0 + k);
    forall j | 0 <= j < |base| ensures n.set_[j] == loaded[j] <==> UpToDate(base, s, h0, k, j) {
      FlagAt(base, s, h0, k, j);
    }
    assert n.set_ == loaded <==> forall j :: 0 <= j < |base| ==> n.set_[j] == loaded[j];
  }

  /** The last load of a run: the storage and height it was made at, and the blocks seen since. */
  datatype LastLoad<T> = LastLoad(storage: T, height: Height, blocks: nat)

  function LoadOf<T>(base: seq<Migration<T>>, l: LastLoad<T>, events: seq<Event>): LastLoad<T>
    decreases |events|
  {
    if events == [] then l
    else
      match events[0]
      case Block => LoadOf(base, l.(blocks := l.blocks + 1), events[1..])
      case Restart =>
        LoadOf(base, LastLoad(Blocked(base, l.storage, l.height, l.blocks).storage, l.height + l.blocks, 0),
          events[1..])
  }

  ghost predicate Since<T>(base: seq<Migration<T>>, n: Node<T>, l: LastLoad<T>) {
    var b := Blocked(base, l.storage, l.height, l.blocks);
    n.set_ == b.set_ && n.storage == b.storage && n.height == b.height
  }

  lemma {:induction false} RunSinceLoad<T>(base: seq<Migration<T>>, n: Node<T>, l: LastLoad<T>, events: seq<Event>)
    requires Since(base, n, l)
    ensures Since(base, Run(base, n, events), LoadOf(base, l, events))
    decreases |events|
  {
    hide StepAll, AllAtHeight;
    if events == [] {
    } else if events[0].Block? {
      RunSinceLoad(base, Next(base, n, Block), l.(blocks := l.blocks + 1), events[1..]);
    } else {
      RunSinceLoad(base, Next(base, n, Restart), LastLoad(n.storage, n.height, 0), events[1..]);
    }
  }

  /**
   * After every run, with any restarts and whatever failed in it, one more restart leaves the node
   * as it is just when, since the last load, every regular migration or hotfix whose height came was
   * reached at that height, and every trigger is in range now just when it was at the last block
   * that reached it.
   */
  lemma RestartInvisibleIff<T>(base: seq<Migration<T>>, s: T, h0: Height, events: seq<Event>)
    requires Inactive(base)
    ensures var n := Run(base, Start(base, s, h0), events);
            var l := LoadOf(base, LastLoad(s, h0, 0), events);
            Next(base, n, Restart) == n <==>
            forall j :: 0 <= j < |base| ==> UpToDate(base, l.storage, l.height, l.blocks, j)
  {
    hide Run, LoadOf, UpToDate, AllAtHeight;
    RunSinceLoad(base, Start(base, s, h0), LastLoad(s, h0, 0), events);
    var l := LoadOf(base, LastLoad(s, h0, 0), events);
    BlockedInvisibleIff(base, l.storage, l.height, l.blocks);
  }

  /**
   * Three migrations due at one block, the first of which fails there. One block later nothing
   * fails and the trigger has caught up, but the regular one has not, and a restart shows it.
   */
  lemma FailureShows()
    ensures var fails: Callback<int> := (s, _) => Done(s, false);
            var works: Callback<int> := (s, _) => Done(s, true);
            var five := Metadata(5, None, false, map[]);
            var base := [New(Inner(Regular(fails, works), "a"), five), New(Inner(Regular(works, works), "b"), five),
                         New(Inner(Trigger(false), "c"), five)];
            var n := Blocked(base, 0, 4, 2);
            && n.height == 6 && !n.set_[1].active && n.set_[2].active
            && Next(base, n, Restart).set_[1].active && Next(base, n, Restart).set_[2].active
  {
    var fails: Callback<int> := (s, _) => Done(s, false);
    var works: Callback<int> := (s, _) => Done(s, true);
    var five := Metadata(5, None, false, map[]);
    var base := [New(Inner(Regular(fails, works), "a"), five), New(Inner(Regular(works, works), "b"), five),
                 New<int>(Inner(Trigger(false), "c"), five)];
    hide StepAll, AllAtHeight, Failing;
    var first, second := Start(base, 0, 4), Blocked(base, 0, 4, 1);
    assert first.set_[0] == base[0];
    FailsAtOnce(first.set_, 0, 5);
    FlagAt(base, 0, 4, 1, 0);
    FlagAt(base, 0, 4, 1, 1);
    GoesOn(second.set_, second.storage, 6);
    FlagAt(base, 0, 4, 2, 1);
    FlagAt(base, 0, 4, 2, 2);
  }

  lemma FailsAtOnce<T>(ms: seq<Migration<T>>, s: T, h: Height)
    requires ms != [] && !StepOne(ms[0], s, h).ok
    ensures Failing(ms, s, h) == 0
  {
  }

  lemma GoesOn<T>(ms: seq<Migration<T>>, s: T, h: Height)
    requires |ms| > 1 && StepOne(ms[0], s, h).ok && StepOne(ms[1], StepOne(ms[0], s, h).storage, h).ok
    ensures Failing(ms, s, h) >= 2
  {
    assert ms[1..][0] == ms[1];
  }

  // -------------------------------------------------------------------------------------------
  // The callbacks of one migration
  // -------------------------------------------------------------------------------------------

  /** Steps at any heights, repeated or skipped; after a failure the next step is made all the same. */
  function StepMany<T>(ms: seq<Migration<T>>, s: T, hs: seq<Height>): (r: Stepped<seq<Migration<T>>, T>)
    ensures |r.after| == |ms|
    decreases |hs|
  {
    if hs == [] then Stepped(ms, s, true, [])
    else
      var one := StepAll(ms, s, hs[0]);
      var rest := StepMany(one.after, one.storage, hs[1..]);
      Stepped(rest.after, rest.storage, one.ok && rest.ok, one.calls + rest.calls)
  }

  /** The callbacks made to the migration of that name, in order. */
  function CallsOf(calls: seq<Call>, name: string): seq<Activated> {
    if calls == [] then []
    else (if calls[0].name == name then [calls[0].what] else []) + CallsOf(calls[1..], name)
  }

  lemma {:induction false} CallsOfConcat(a: seq<Call>, b: seq<Call>, name: string)
    ensures CallsOf(a + b, name) == CallsOf(a, name) + CallsOf(b, name)
  {
    if a == [] {
      assert a + b == b;
    } else {
      assert (a + b)[1..] == a[1..] + b && (a + b)[0] == a[0];
      CallsOfConcat(a[1..], b, name);
      var head := if a[0].name == name then [a[0].what] else [];
      assert head + (CallsOf(a[1..], name) + CallsOf(b, name)) == head + CallsOf(a[1..], name) + CallsOf(b, name);
    }
  }

  /** What one migration does at a height, whatever the storage. */
  function Moved<T>(m: Migration<T>, h: Height): Migration<T> {
    if m.enabled then ActivateAt(m, h).0 else m
  }

  lemma MovedKeeps<T>(m: Migration<T>, h: Height)
    ensures Moved(m, h).inner == m.inner && Moved(m, h).metadata == m.metadata && Moved(m, h).enabled == m.enabled
  {
  }

  function Due<T>(m: Migration<T>, h: Height): seq<Activated> {
    if m.enabled && m.IsRegular() && ActivateAt(m, h).1 != Nothing then [ActivateAt(m, h).1] else []
  }

  /** The names that appear in a step are those of its migrations. */
  lemma {:induction false} CallsAreNamed<T>(ms: seq<Migration<T>>, s: T, h: Height, name: string)
    requires name !in Names(ms)
    ensures CallsOf(StepAll(ms, s, h).calls, name) == []
  {
    if ms == [] {
    } else {
      var one := StepOne(ms[0], s, h);
      assert CallsOf(one.calls, name) == [];
      if one.ok {
        CallsAreNamed(ms[1..], one.storage, h, name);
        CallsOfConcat(one.calls, StepAll(ms[1..], one.storage, h).calls, name);
      }
    }
  }

  /** In a step each migration moves and is called as if alone, or comes after a failure. */
  lemma {:induction false} StepEach<T>(ms: seq<Migration<T>>, s: T, h: Height, j: nat)
    requires Sorted(ms) && j < |ms|
    ensures var r := StepAll(ms, s, h);
            var calls := CallsOf(r.calls, ms[j].inner.name);
            || (r.after[j] == Moved(ms[j], h) && calls == Due(ms[j], h))
            || (!r.ok && r.after[j] == ms[j] && calls == [])
  {
    var one := StepOne(ms[0], s, h);
    var name := ms[j].inner.name;
    NameOf(ms, j);
    assert CallsOf(one.calls, name) == if j == 0 then Due(ms[0], h) else [] by {
      assert j > 0 ==> name != ms[0].inner.name by { Lex.Irreflexive(name); }
      SingleCall(one.calls, name);
    }
    if one.ok {
      var rest := StepAll(ms[1..], one.storage, h);
      CallsOfConcat(one.calls, rest.calls, name);
      if j == 0 {
        Lex.Irreflexive(name);
        CallsAreNamed(ms[1..], one.storage, h, name);
      } else {
        StepEach(ms[1..], one.storage, h, j - 1);
      }
    }
  }

  lemma SingleCall(calls: seq<Call>, name: string)
    requires |calls| <= 1
    ensures CallsOf(calls, name) == if calls != [] && calls[0].name == name then [calls[0].what] else []
  {
    if calls != [] {
      assert CallsOf(calls[1..], name) == [];
    }
  }

  lemma {:induction false} NameOf<T>(ms: seq<Migration<T>>, j: nat)
    requires j < |ms|
    ensures ms[j].inner.name in Names(ms)
    ensures j > 0 ==> ms[j].inner.name in Names(ms[1..])
  {
    if j > 0 {
      NameOf(ms[1..], j - 1);
    }
  }

  lemma {:induction false} StepKeepsNames<T>(ms: seq<Migration<T>>, s: T, h: Height)
    ensures Names(StepAll(ms, s, h).after) == Names(ms)
    ensures Sorted(ms) ==> Sorted(StepAll(ms, s, h).after)
  {
    if ms == [] {
    } else {
      var one := StepOne(ms[0], s, h);
      var after := StepAll(ms, s, h).after;
      if one.ok {
        StepKeepsNames(ms[1..], one.storage, h);
        assert after[1..] == StepAll(ms[1..], one.storage, h).after;
      } else {
        assert after[1..] == ms[1..];
      }
    }
  }

  /** The life of one migration over a list of heights: its callbacks, and how it ends. */
  function Timeline<T>(m: Migration<T>, hs: seq<Height>): seq<Activated>
    decreases |hs|
  {
    if hs == [] then [] else Due(m, hs[0]) + Timeline(Moved(m, hs[0]), hs[1..])
  }

  function MovedAll<T>(m: Migration<T>, hs: seq<Height>): Migration<T>
    decreases |hs|
  {
    if hs == [] then m else MovedAll(Moved(m, hs[0]), hs[1..])
  }

  /** Without failures the set is just its members side by side. */
  lemma {:induction false} StepManyEach<T>(ms: seq<Migration<T>>, s: T, hs: seq<Height>, j: nat)
    requires Sorted(ms) && j < |ms| && StepMany(ms, s, hs).ok
    ensures var r := StepMany(ms, s, hs);
            r.after[j] == MovedAll(ms[j], hs) && CallsOf(r.calls, ms[j].inner.name) == Timeline(ms[j], hs)
    decreases |hs|
  {
    if hs == [] {
    } else {
      hide StepAll, Sorted, CallsOf, Due, Moved, Names;
      MovedKeeps(ms[j], hs[0]);
      var one := StepAll(ms, s, hs[0]);
      var rest := StepMany(one.after, one.storage, hs[1..]);
      StepEach(ms, s, hs[0], j);
      StepKeepsNames(ms, s, hs[0]);
      CallsOfConcat(one.calls, rest.calls, ms[j].inner.name);
      StepManyEach(one.after, one.storage, hs[1..], j);
    }
  }

  function Count(xs: seq<Activated>, x: Activated): nat {
    if xs == [] then 0 else (if xs[0] == x then 1 else 0) + Count(xs[1..], x)
  }

  lemma {:induction false} CountConcat(a: seq<Activated>, b: seq<Activated>, x: Activated)
    ensures Count(a + b, x) == Count(a, x) + Count(b, x)
  {
    if a == [] {
      assert a + b == b;
    } else {
      assert (a + b)[1..] == a[1..] + b;
      CountConcat(a[1..], b, x);
    }
  }

  /** At any heights and whatever fails, a regular migration initialises at most once. */
  lemma {:induction false} InitialisesAtMostOnce<T>(ms: seq<Migration<T>>, s: T, hs: seq<Height>, j: nat)
    requires Sorted(ms) && j < |ms| && ms[j].IsRegular()
    ensures Count(CallsOf(StepMany(ms, s, hs).calls, ms[j].inner.name), Initialize) <= if ms[j].active then 0 else 1
    decreases |hs|
  {
    hide StepAll, Sorted;
    if hs == [] {
    } else {
      var one := StepAll(ms, s, hs[0]);
      var rest := StepMany(one.after, one.storage, hs[1..]);
      StepEach(ms, s, hs[0], j);
      StepKeepsNames(ms, s, hs[0]);
      InitialisesAtMostOnce(one.after, one.storage, hs[1..], j);
      var name := ms[j].inner.name;
      CallsOfConcat(one.calls, rest.calls, name);
      CountConcat(CallsOf(one.calls, name), CallsOf(rest.calls, name), Initialize);
      CountDue(ms[j], hs[0]);
    }
  }

  /** The heights that the blocks among some events come at, from a height on. */
  function HeightsFrom(h: Height, events: seq<Event>): seq<Height>
    decreases |events|
  {
    if events == [] then []
    else if events[0].Block? then [h + 1] + HeightsFrom(h + 1, events[1..])
    else HeightsFrom(h, events[1..])
  }

  /** A run of blocks makes the callbacks of the steps at its heights. */
  lemma {:induction false} BlocksAreSteps<T>(base: seq<Migration<T>>, n: Node<T>, events: seq<Event>)
    ensures Run(base, n, OnlyBlocks(events)).calls ==
            n.calls + StepMany(n.set_, n.storage, HeightsFrom(n.height, events)).calls
    decreases |events|
  {
    hide StepAll, StepMany, Run;
    if events == [] {
      NoSteps(base, n);
    } else if events[0].Block? {
      var next := Next(base, n, Block);
      var rest := HeightsFrom(n.height + 1, events[1..]);
      BlocksAreSteps(base, next, events[1..]);
      RunHead(base, n, Block, OnlyBlocks(events[1..]));
      StepManyHead(n.set_, n.storage, n.height + 1, rest);
      var one := StepAll(n.set_, n.storage, n.height + 1);
      var more := StepMany(one.after, one.storage, rest).calls;
      assert (n.calls + one.calls) + more == n.calls + (one.calls + more);
    } else {
      assert [] + OnlyBlocks(events[1..]) == OnlyBlocks(events[1..]);
      BlocksAreSteps(base, n, events[1..]);
    }
  }

  lemma NoSteps<T>(base: seq<Migration<T>>, n: Node<T>)
    ensures Run(base, n, []).calls == n.calls + StepMany(n.set_, n.storage, []).calls
  {
  }

  lemma RunHead<T>(base: seq<Migration<T>>, n: Node<T>, e: Event, rest: seq<Event>)
    ensures Run(base, n, [e] + rest) == Run(base, Next(base, n, e), rest)
  {
    hide Next;
    assert ([e] + rest)[1..] == rest;
  }

  lemma StepManyHead<T>(ms: seq<Migration<T>>, s: T, h: Height, rest: seq<Height>)
    ensures var one := StepAll(ms, s, h);
            StepMany(ms, s, [h] + rest).calls == one.calls + StepMany(one.after, one.storage, rest).calls
  {
    hide StepAll;
    assert ([h] + rest)[1..] == rest;
  }

  lemma {:induction false} SortedAtHeight<T>(ms: seq<Migration<T>>, h: Height)
    requires Sorted(ms)
    ensures Sorted(AllAtHeight(ms, h)) && Names(AllAtHeight(ms, h)) == Names(ms)
  {
    if ms == [] {
    } else {
      SortedAtHeight(ms[1..], h);
      assert AllAtHeight(ms, h)[1..] == AllAtHeight(ms[1..], h);
    }
  }

  /** Over every sequence of blocks and restarts, whatever fails, a migration initialises at most once. */
  lemma InitialisesOnceOverRestarts<T>(base: seq<Migration<T>>, s: T, h0: Height, events: seq<Event>, j: nat)
    requires Sorted(base) && Inactive(base) && j < |base| && base[j].IsRegular()
    ensures Count(CallsOf(Run(base, Start(base, s, h0), events).calls, base[j].inner.name), Initialize) <= 1
  {
    hide Run, StepMany, Sorted, CallsOf, Count, OnlyBlocks, HeightsFrom, AllAgree;
    var n := Start(base, s, h0);
    var heights := HeightsFrom(h0, events);
    RestartsInvisible(base, n, events);
    BlocksAreSteps(base, n, events);
    SortedAtHeight(base, h0);
    InitialisesAtMostOnce(n.set_, s, heights, j);
    assert [] + StepMany(n.set_, s, heights).calls == StepMany(n.set_, s, heights).calls;
  }

  lemma CountDue<T>(m: Migration<T>, h: Height)
    ensures Count(Due(m, h), Initialize)
         == if m.enabled && m.IsRegular() && h == m.metadata.blockHeight && !m.active then 1 else 0
    ensures Count(Due(m, h), Update) == if m.enabled && m.IsRegular() && h > m.metadata.blockHeight then 1 else 0
  {
    assert forall x: Activated :: Count([x][1..], Initialize) == 0 && Count([x][1..], Update) == 0;
  }

  function CountAbove(hs: seq<Height>, h: Height): nat {
    if hs == [] then 0 else (if hs[0] > h then 1 else 0) + CountAbove(hs[1..], h)
  }

  /**
   * The life of an enabled regular migration over any heights: it is initialised if its height
   * comes and it was not active, updated once for every height above its own, and active at the
   * end if it was before or its height came. A height that is skipped never activates it.
   */
  lemma {:induction false} TimelineCounts<T>(m: Migration<T>, hs: seq<Height>)
    requires m.enabled && m.IsRegular()
    ensures Count(Timeline(m, hs), Initialize) == if !m.active && m.metadata.blockHeight in hs then 1 else 0
    ensures Count(Timeline(m, hs), Update) == CountAbove(hs, m.metadata.blockHeight)
    ensures MovedAll(m, hs) == m.(active := m.active || m.metadata.blockHeight in hs)
    decreases |hs|
  {
    if hs == [] {
    } else {
      var next := Moved(m, hs[0]);
      TimelineCounts(next, hs[1..]);
      CountDue(m, hs[0]);
      CountConcat(Due(m, hs[0]), Timeline(next, hs[1..]), Initialize);
      CountConcat(Due(m, hs[0]), Timeline(next, hs[1..]), Update);
      assert hs == [hs[0]] + hs[1..];
    }
  }

  /** The heights after `lo` up to `hi`. */
  function Blocks(lo: Height, hi: Height): seq<Height>
    requires lo <= hi
    decreases hi - lo
  {
    if lo == hi then [] else [lo + 1] + Blocks(lo + 1, hi)
  }

  function Updates(n: nat): seq<Activated> {
    if n == 0 then [] else [Update] + Updates(n - 1)
  }

  lemma TimelineHead<T>(m: Migration<T>, lo: Height, hi: Height)
    requires lo < hi
    ensures Timeline(m, Blocks(lo, hi)) == Due(m, lo + 1) + Timeline(Moved(m, lo + 1), Blocks(lo + 1, hi))
  {
    assert Blocks(lo, hi)[1..] == Blocks(lo + 1, hi);
  }

  /**
   * Loaded at `lo` and stepped through every block up to `hi`: exactly one initialisation at its
   * height if that lies in between, before all updates, and one update per later block.
   */
  lemma {:induction false} ConsecutiveTimeline<T>(m: Migration<T>, lo: Height, hi: Height)
    requires m.enabled && m.IsRegular() && !m.active && lo <= hi
    ensures var bh := m.metadata.blockHeight;
            Timeline(AtHeight(m, lo), Blocks(lo, hi))
            == if hi < bh then []
               else if lo < bh then [Initialize] + Updates(hi - bh)
               else Updates(hi - lo)
    decreases hi - lo
  {
    if lo < hi {
      var bh := m.metadata.blockHeight;
      hide Blocks, Timeline;
      TimelineHead(AtHeight(m, lo), lo, hi);
      assert Moved(AtHeight(m, lo), lo + 1) == AtHeight(m, lo + 1);
      ConsecutiveTimeline(m, lo + 1, hi);
      if lo + 1 == bh {
        assert Due(AtHeight(m, lo), lo + 1) == [Initialize];
      } else if lo + 1 > bh {
        assert Due(AtHeight(m, lo), lo + 1) == [Update];
      } else {
        assert Due(AtHeight(m, lo), lo + 1) == [];
      }
    }
  }

  /**
   * After a step an enabled trigger at or before the failing position is active just when the
   * height is in its range, whatever came before; one behind it is as it was.
   */
  lemma TriggerFollowsRange<T>(ms: seq<Migration<T>>, s: T, h: Height, j: nat)
    requires j < |ms| && ms[j].enabled && ms[j].IsTrigger()
    ensures var upper := ms[j].metadata.upperBlockHeight;
            StepAll(ms, s, h).after[j].IsActive() <==>
            if j > Failing(ms, s, h) then ms[j].IsActive()
            else ms[j].metadata.blockHeight <= h && h < if upper.Some? then upper.value else TWO_64 - 1
    ensures StepAll(ms, s, h).ok ==> j <= Failing(ms, s, h)
  {
    hide StepAll, Failing;
    StepAt(ms, s, h, j);
  }

  // -------------------------------------------------------------------------------------------
  // The set as an object
  // -------------------------------------------------------------------------------------------

  /** The value of a hotfix: only at exactly its height, and only if enabled. */
  function HotfixOf<T>(m: Migration<T>, b: Bytes, h: Height): Option<Bytes> {
    if m.enabled && m.metadata.blockHeight == h && m.inner.kind.Hotfix? then m.inner.kind.fix(b) else None
  }

  /** An enabled hotfix of that name, at exactly its height. */
  predicate Applies<T>(m: Migration<T>, name: string, h: Height) {
    m.inner.kind.Hotfix? && m.inner.name == name && m.enabled && h == m.metadata.blockHeight
  }

  lemma StepAllHead<T>(ms: seq<Migration<T>>, s: T, h: Height)
    ensures ms == [] ==> StepAll(ms, s, h) == Stepped([], s, true, [])
    ensures ms != [] ==>
              var one := StepOne(ms[0], s, h);
              var all := StepAll(ms, s, h);
              if !one.ok then all.after == [one.after] + ms[1..] && all.storage == one.storage && !all.ok
              else
                var rest := StepAll(ms[1..], one.storage, h);
                all.after == [one.after] + rest.after && all.storage == rest.storage && all.ok == rest.ok
  {
  }

  lemma MoveHead<T>(before: seq<Migration<T>>, after: seq<Migration<T>>, i: nat, m: Migration<T>)
    requires i < |before| && after == before[i := m]
    ensures after[..i + 1] == before[..i] + [m]
    ensures after == before[..i] + ([m] + after[i + 1..])
  {
  }

  class MigrationSet<T> {
    /** The members in name order. */
    var inner: seq<Migration<T>>

    constructor (members: seq<Migration<T>>)
      ensures inner == members
    {
      inner := members;
    }

    static method LoadFrom(registry: seq<Inner<T>>, config: Config, h: Height) returns (r: Option<MigrationSet<T>>)
      ensures r.Some? <==> Load(registry, config, h).Some?
      ensures r.Some? ==> fresh(r.value) && r.value.inner == Load(registry, config, h).value
    {
      var acc: seq<Migration<T>> := [];
      for i := 0 to |config.migrations|
        invariant Configure(registry, config.migrations, []) == Configure(registry, config.migrations[i..], acc)
      {
        var (name, metadata) := config.migrations[i];
        assert config.migrations[i..][1..] == config.migrations[i + 1..];
        var found := Lookup(registry, name);
        if found.None? { return None; }
        acc := Insert(acc, New(found.value, metadata));
      }
      if config.strict && exists i :: 0 <= i < |registry| && registry[i].name !in Names(acc) {
        return None;
      }
      var loaded := new MigrationSet(acc);
      for i := 0 to |acc|
        invariant |loaded.inner| == |acc|
        invariant forall k :: 0 <= k < i ==> loaded.inner[k] == AtHeight(acc[k], h)
        invariant forall k :: i <= k < |acc| ==> loaded.inner[k] == acc[k]
      {
        if loaded.inner[i].enabled {
          loaded.inner := loaded.inner[i := SetActiveAt(loaded.inner[i], h)];
        }
      }
      assert loaded.inner == AllAtHeight(acc, h);
      r := Some(loaded);
    }

    method UpdateAtHeight(storage: T, h: Height) returns (after: T, ok: bool)
      modifies this
      ensures var r := StepAll(old(inner), storage, h);
              inner == r.after && after == r.storage && ok == r.ok
      ensures after == Fold(old(inner), storage, h).storage && ok == Fold(old(inner), storage, h).ok
    {
      hide StepAll, StepOne, Fold;
      StepIsFold(inner, storage, h);
      after, ok := storage, true;
      ghost var all := StepAll(inner, storage, h);
      ghost var ms := inner;
      for i := 0 to |inner|
        invariant |inner| == |ms| && inner[i..] == ms[i..]
        invariant var rest := StepAll(ms[i..], after, h);
                  all.after == inner[..i] + rest.after && all.storage == rest.storage && all.ok == rest.ok
      {
        var one := StepOne(inner[i], after, h);
        assert ms[i..][0] == inner[i] && ms[i..][1..] == ms[i + 1..];
        StepAllHead(ms[i..], after, h);
        ghost var before := inner;
        inner, after := inner[i := one.after], one.storage;
        assert inner[i + 1..] == ms[i + 1..];
        MoveHead(before, inner, i, one.after);
        if !one.ok {
          ok := false;
          return;
        }
        ghost var rest := StepAll(ms[i + 1..], after, h).after;
        assert before[..i] + ([one.after] + rest) == before[..i] + [one.after] + rest;
      }
      StepAllHead(ms[|ms|..], after, h);
      assert inner == inner[..|inner|] + [];
    }

    method IsActive(name: string) returns (active: bool)
      ensures active <==> exists i :: 0 <= i < |inner| && inner[i].inner.name == name && inner[i].IsActive()
    {
      for i := 0 to |inner|
        invariant forall k :: 0 <= k < i ==> !(inner[k].inner.name == name && inner[k].IsActive())
      {
        if inner[i].inner.name == name && inner[i].IsActive() { return true; }
      }
      return false;
    }

    method ApplyHotfix(name: string, b: Bytes, h: Height) returns (r: Option<Bytes>)
      ensures r.Some? ==> exists i :: 0 <= i < |inner| && Applies(inner[i], name, h) && inner[i].inner.kind.fix(b) == r
      ensures r.None? ==> forall i :: 0 <= i < |inner| && Applies(inner[i], name, h) ==>
              inner[i].inner.kind.fix(b) == None
    {
      for i := 0 to |inner|
        invariant forall k :: 0 <= k < i && inner[k].inner.name == name ==> HotfixOf(inner[k], b, h) == None
      {
        if inner[i].inner.kind.Hotfix? && inner[i].inner.name == name {
          r := HotfixOf(inner[i], b, h);
          if r.Some? { return; }
        }
      }
      r := None;
    }
  }
}
