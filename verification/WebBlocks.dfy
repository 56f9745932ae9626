/**
 * The web commands inside a block: what they write is pending until the block is committed, single
 * keys are read from the pending store, and scans see the committed one only.
 */
module WebBlocks {
  import opened Wrappers
  import opened Store
  import opened WebFiles
  import opened WebCommands
  import A = Address
  import Keys
  import X = WebExamples

  datatype Chain = Chain(committed: Kv, pending: Kv)

  datatype Event = Command(step: Step) | Commit

  /** A removal deletes the description and the files that its scan sees. */
  function RemoveSeen(seen: Kv, store: Kv, o: A.Id, s: string): Kv {
    map k | k in store && !(InSite(o, s, k) && (k == MetaKey(o, s) || k in seen)) :: store[k]
  }

  function Execute(t: Text, host: string, c: Chain, step: Step): Kv {
    match step
    case DeployStep(sender, args) =>
      var r := DeployWith(t, host, c.committed, c.pending, sender, args);
      if r.Ok? then StoreSite(c.pending, sender, Transform(t, args.name), r.value) else c.pending
    case UpdateStep(sender, args) =>
      var r := UpdateWith(t, host, c.committed, c.pending, sender, args);
      var site := Transform(t, args.name);
      if r.Ok? then StoreSite(RemoveSeen(c.committed, c.pending, sender, site), sender, site, r.value) else c.pending
    case RemoveStep(sender, owner, name) =>
      if WrongOwner(sender, owner) then c.pending else RemoveSeen(c.committed, c.pending, sender, Transform(t, name))
    case Housekeeping(writes) => c.pending + writes
  }

  function Advance(t: Text, host: string, c: Chain, e: Event): Chain {
    match e
    case Command(step) => c.(pending := Execute(t, host, c, step))
    case Commit => Chain(c.pending, c.pending)
  }

  function RunBlocks(t: Text, host: string, c: Chain, events: seq<Event>): Chain
    decreases |events|
  {
    if events == [] then c else RunBlocks(t, host, Advance(t, host, c, events[0]), events[1..])
  }

  /** Where nothing is pending, a command does what it does without blocks. */
  lemma ExecuteIsNext(t: Text, host: string, store: Kv, step: Step)
    ensures Execute(t, host, Chain(store, store), step) == Next(t, host, store, step)
  {
    hide StoreSite, InSite, MetaKey, Transform, DeployWith, UpdateWith, WrongOwner;
    forall o, s ensures RemoveSeen(store, store, o, s) == RemoveSite(store, o, s) {
    }
  }

  /** Inside a block too, an accepted deployment or update leaves what its arguments ask for. */
  lemma ExecuteLeaves(t: Text, host: string, c: Chain, step: Step)
    requires step.DeployStep? || step.UpdateStep?
    ensures var site := Transform(t, step.args.name);
            var after := Execute(t, host, c, step);
            var accepted :=
              if step.DeployStep? then DeployWith(t, host, c.committed, c.pending, step.sender, step.args).Ok?
              else UpdateWith(t, host, c.committed, c.pending, step.sender, step.args).Ok?;
            if !accepted then after == c.pending
            else
              && Get(after, MetaKey(step.sender, site)) == Some(Meta(Described(t, host, step.sender, step.args)))
              && step.args.archive.Unpacked?
              && Serves(after, step.sender, site, step.args.archive.files)
  {
    hide StoreSite, RemoveSeen, MetaKey, Transform, DeployWith, UpdateWith, Serves, InUse, Printable, HasIndex, Exists;
    var site := Transform(t, step.args.name);
    DeployIff(t, host, c.committed, c.pending, step.sender, step.args);
    UpdateIff(t, host, c.committed, c.pending, step.sender, step.args);
    ArchiveThere(t, step.sender, step.args);
    var u := Upload(host, step.args.description, DomainOf(step.args.domain),
                    if step.args.archive.Unpacked? then step.args.archive.files else []);
    var before := if step.DeployStep? then c.pending else RemoveSeen(c.committed, c.pending, step.sender, site);
    StoredDescription(before, step.sender, site, u);
    StoredFiles(before, step.sender, site, u);
  }

  lemma ArchiveThere(t: Text, sender: A.Id, args: Args)
    ensures WellFormed(t, sender, args) ==> args.archive.Unpacked?
  {
    hide Transform, Printable;
  }

  // -------------------------------------------------------------------------------------------
  // Domains
  // -------------------------------------------------------------------------------------------

  datatype Claim = Claim(key: string, domain: string)

  /** The description and the domain that an accepted command lays claim to. */
  function ClaimOf(t: Text, host: string, c: Chain, step: Step): Option<Claim> {
    match step
    case DeployStep(sender, args) =>
      var r := DeployWith(t, host, c.committed, c.pending, sender, args);
      if r.Ok? && r.value.domain.Some? then Some(Claim(MetaKey(sender, Transform(t, args.name)),
        r.value.domain.value)) else None
    case UpdateStep(sender, args) =>
      var r := UpdateWith(t, host, c.committed, c.pending, sender, args);
      if r.Ok? && r.value.domain.Some? then Some(Claim(MetaKey(sender, Transform(t, args.name)),
        r.value.domain.value)) else None
    case _ => None
  }

  /** A description under another key has the domain. */
  ghost predicate TakenByOther(store: Kv, key: string, d: string) { exists k :: k != key && UsesAt(store, k, d) }

  /** Another description, committed or pending, already has the domain that the command claims. */
  ghost predicate Conflict(t: Text, host: string, c: Chain, step: Step) {
    var claim := ClaimOf(t, host, c, step);
    claim.Some? && TakenByOther(c.pending, claim.value.key, claim.value.domain)
  }

  lemma SeenRemovalKeeps(seen: Kv, store: Kv, o: A.Id, s: string, k: string, d: string)
    ensures UsesAt(RemoveSeen(seen, store, o, s), k, d) <==> UsesAt(store, k, d) && k != MetaKey(o, s)
  {
    hide MetaKey, SiteKey;
    MetaKeyRoot(o, s);
    if SiteKey(o, s) <= k {
      SiteKeyRoot(o, s, k);
    }
  }

  lemma SeenRemovalUnique(seen: Kv, store: Kv, o: A.Id, s: string)
    requires UniqueDomains(store)
    ensures UniqueDomains(RemoveSeen(seen, store, o, s))
  {
    hide RemoveSeen, UsesAt, MetaKey;
    var after := RemoveSeen(seen, store, o, s);
    forall j, k, d | UsesAt(after, j, d) && UsesAt(after, k, d) ensures j == k {
      SeenRemovalKeeps(seen, store, o, s, j, d);
      SeenRemovalKeeps(seen, store, o, s, k, d);
    }
  }

  lemma StoredUses(store: Kv, o: A.Id, s: string, u: Upload, k: string, d: string)
    ensures UsesAt(StoreSite(store, o, s, u), k, d) <==>
            if k == MetaKey(o, s) then u.domain == Some(d) else UsesAt(store, k, d)
  {
    hide StoreSite, MetaKey, InfoOf;
    MetaKeyRoot(o, s);
    InfoDomain(o, s, u);
    if "/meta" <= k {
      StoredUse(store, o, s, u, k);
    }
  }

  /** Storing a description keeps domains unique just when no other has its domain. */
  lemma StoreUniqueIff(store: Kv, o: A.Id, s: string, u: Upload)
    requires UniqueDomains(store)
    ensures UniqueDomains(StoreSite(store, o, s, u)) <==>
            !(u.domain.Some? && TakenByOther(store, MetaKey(o, s), u.domain.value))
  {
    hide StoreSite, MetaKey, UsesAt;
    if u.domain.Some? && TakenByOther(store, MetaKey(o, s), u.domain.value) {
      var d := u.domain.value;
      var k :| k != MetaKey(o, s) && UsesAt(store, k, d);
      StoredUses(store, o, s, u, k, d);
      StoredUses(store, o, s, u, MetaKey(o, s), d);
    } else {
      StoreKeepsDomains(store, o, s, u);
    }
  }

  /** One command: domains stay unique just when it does not conflict. */
  lemma ExecuteUniqueIff(t: Text, host: string, c: Chain, step: Step)
    requires UniqueDomains(c.pending) && Admissible(step)
    ensures UniqueDomains(Execute(t, host, c, step)) <==> !Conflict(t, host, c, step)
  {
    hide StoreSite, RemoveSeen, Transform, DeployWith, UpdateWith, WrongOwner, UniqueDomains, TakenByOther, MetaKey;
    match step
    case DeployStep(sender, args) =>
      var r := DeployWith(t, host, c.committed, c.pending, sender, args);
      if r.Ok? {
        StoreUniqueIff(c.pending, sender, Transform(t, args.name), r.value);
      }
    case UpdateStep(sender, args) =>
      var r := UpdateWith(t, host, c.committed, c.pending, sender, args);
      if r.Ok? {
        UpdateUniqueIff(c, sender, Transform(t, args.name), r.value);
      }
    case RemoveStep(sender, _, name) => SeenRemovalUnique(c.committed, c.pending, sender, Transform(t, name));
    case Housekeeping(writes) => OtherWritesUnique(c.pending, writes);
  }

  lemma UpdateUniqueIff(c: Chain, o: A.Id, s: string, u: Upload)
    requires UniqueDomains(c.pending)
    ensures UniqueDomains(StoreSite(RemoveSeen(c.committed, c.pending, o, s), o, s, u)) <==>
            !(u.domain.Some? && TakenByOther(c.pending, MetaKey(o, s), u.domain.value))
  {
    hide StoreSite, RemoveSeen, UniqueDomains, UsesAt, MetaKey;
    var cleared := RemoveSeen(c.committed, c.pending, o, s);
    SeenRemovalUnique(c.committed, c.pending, o, s);
    StoreUniqueIff(cleared, o, s, u);
    if u.domain.Some? {
      var d := u.domain.value;
      forall k ensures UsesAt(cleared, k, d) <==> UsesAt(c.pending, k, d) && k != MetaKey(o, s) {
        SeenRemovalKeeps(c.committed, c.pending, o, s, k, d);
      }
    }
  }

  lemma OtherWritesUnique(store: Kv, writes: Kv)
    requires UniqueDomains(store) && Admissible(Housekeeping(writes))
    ensures UniqueDomains(store + writes)
  {
    forall j, k, d | UsesAt(store + writes, j, d) && UsesAt(store + writes, k, d) ensures j == k {
      assert UsesAt(store, j, d) && UsesAt(store, k, d);
    }
  }

  ghost predicate AlwaysUnique(t: Text, host: string, c: Chain, events: seq<Event>)
    decreases |events|
  {
    UniqueDomains(c.pending) && (events == [] || AlwaysUnique(t, host, Advance(t, host, c, events[0]), events[1..]))
  }

  ghost predicate NeverConflicts(t: Text, host: string, c: Chain, events: seq<Event>)
    decreases |events|
  {
    events == [] ||
    (!(events[0].Command? && Conflict(t, host, c, events[0].step))
     && NeverConflicts(t, host, Advance(t, host, c, events[0]), events[1..]))
  }

  predicate Fair(e: Event) { e.Command? ==> Admissible(e.step) }

  /**
   * Over every run of commands and commits, domains are unique at every moment, hence at every
   * commit, just when no command claims a domain that another description has at that moment.
   */
  lemma {:induction false} BlocksUniqueIff(t: Text, host: string, c: Chain, events: seq<Event>)
    requires UniqueDomains(c.pending) && forall i :: 0 <= i < |events| ==> Fair(events[i])
    ensures AlwaysUnique(t, host, c, events) <==> NeverConflicts(t, host, c, events)
    decreases |events|
  {
    hide UniqueDomains, Execute, Conflict, Admissible;
    if events == [] {
    } else {
      var next := Advance(t, host, c, events[0]);
      assert Fair(events[0]);
      if events[0].Command? {
        ExecuteUniqueIff(t, host, c, events[0].step);
      }
      assert forall i :: 0 <= i < |events[1..]| ==> events[1..][i] == events[i + 1];
      if UniqueDomains(next.pending) {
        BlocksUniqueIff(t, host, next, events[1..]);
      }
    }
  }

  /** An accepted claim is to a domain that no scan found, or that the description has already. */
  lemma ClaimIsFree(t: Text, host: string, c: Chain, step: Step)
    requires ClaimOf(t, host, c, step).Some?
    ensures var claim := ClaimOf(t, host, c, step).value;
            !DomainUsed(c.committed, claim.domain) || UsesAt(c.pending, claim.key, claim.domain)
  {
    hide Transform, MetaKey, Prepare, WrongOwner, DomainUsed;
    if step.UpdateStep? {
      MetaKeyRoot(step.sender, Transform(t, step.args.name));
    }
  }

  /** A conflict is always with a description written since the last commit. */
  lemma ConflictsWithinBlock(t: Text, host: string, c: Chain, step: Step)
    requires UniqueDomains(c.pending) && Conflict(t, host, c, step)
    ensures var claim := ClaimOf(t, host, c, step).value;
            exists k :: k != claim.key && UsesAt(c.pending, k, claim.domain) && !UsesAt(c.committed, k, claim.domain)
  {
    hide ClaimOf, UsesAt, DomainUsed;
    var claim := ClaimOf(t, host, c, step).value;
    var k :| k != claim.key && UsesAt(c.pending, k, claim.domain);
    ClaimIsFree(t, host, c, step);
    assert !UsesAt(c.pending, claim.key, claim.domain);
    NotUsed(c.committed, claim.domain);
  }

  /** So a command that finds nothing pending conflicts with nothing. */
  lemma NoConflictAfterCommit(t: Text, host: string, store: Kv, step: Step)
    requires UniqueDomains(store)
    ensures !Conflict(t, host, Chain(store, store), step)
  {
    hide UniqueDomains, UsesAt, ClaimOf;
    if Conflict(t, host, Chain(store, store), step) {
      ConflictsWithinBlock(t, host, Chain(store, store), step);
    }
  }

  // -------------------------------------------------------------------------------------------
  // Two claims in one block
  // -------------------------------------------------------------------------------------------

  lemma AcceptedForDomain(t: Text, host: string, store: Kv, o: A.Id, args: Args, d: string)
    requires X.Fine(t, args) && !Exists(store, o, Transform(t, args.name))
    ensures DeployWith(t, host, map[], store, o, args.(domain := GoodDomain(d))) ==
            Ok(X.UploadOf(t, host, args).(domain := Some(d)))
  {
    hide Transform, Exists, DomainUsed;
    NothingUsed(d);
  }

  /** Two deployments of one domain in one block are both accepted, and both sites keep it. */
  lemma DomainTakenTwice(t: Text, host: string, o: A.Id, a: Args, b: Args, d: string)
    requires X.Fine(t, a) && X.Fine(t, b) && Transform(t, a.name) != Transform(t, b.name)
    ensures var first := Command(DeployStep(o, a.(domain := GoodDomain(d))));
            var second := Command(DeployStep(o, b.(domain := GoodDomain(d))));
            var end := RunBlocks(t, host, Chain(map[], map[]), [first, second, Commit]).committed;
            && UsesAt(end, MetaKey(o, Transform(t, a.name)), d) && UsesAt(end, MetaKey(o, Transform(t, b.name)), d)
            && !UniqueDomains(end)
  {
    var s, x := Transform(t, a.name), Transform(t, b.name);
    var u, v := X.UploadOf(t, host, a).(domain := Some(d)), X.UploadOf(t, host, b).(domain := Some(d));
    hide X.Fine, X.UploadOf, Transform, Exists, StoreSite, UniqueDomains, UsesAt, MetaKey, DeployWith, RunBlocks;
    X.NothingExists(o, s);
    AcceptedForDomain(t, host, map[], o, a, d);
    var one := StoreSite(map[], o, s, u);
    OtherIsNew(o, s, x, u);
    AcceptedForDomain(t, host, one, o, b, d);
    ThreeEvents(t, host, Chain(map[], map[]), Command(DeployStep(o, a.(domain := GoodDomain(d)))),
                Command(DeployStep(o, b.(domain := GoodDomain(d)))), Commit);
    BothUse(one, o, s, x, v, d, u);
  }

  lemma BothUse(one: Kv, o: A.Id, s: string, x: string, v: Upload, d: string, u: Upload)
    requires s != x && one == StoreSite(map[], o, s, u) && u.domain == Some(d) && v.domain == Some(d)
    ensures var two := StoreSite(one, o, x, v);
            UsesAt(two, MetaKey(o, s), d) && UsesAt(two, MetaKey(o, x), d) && !UniqueDomains(two)
  {
    Different(o, s, x);
    hide StoreSite, MetaKey, UsesAt, UniqueDomains;
    StoredUses(map[], o, s, u, MetaKey(o, s), d);
    StoredUses(one, o, x, v, MetaKey(o, s), d);
    StoredUses(one, o, x, v, MetaKey(o, x), d);
    NotUnique(StoreSite(one, o, x, v), MetaKey(o, s), MetaKey(o, x), d);
  }

  /** So it goes with "a" and "b". */
  lemma SameDomainOneBlock(host: string, o: A.Id, d: string)
    ensures var page: Tree := [File("index.html", [1])];
            var first := Command(DeployStep(o, X.ArgsFor("a", page, {}).(domain := GoodDomain(d))));
            var second := Command(DeployStep(o, X.ArgsFor("b", page, {}).(domain := GoodDomain(d))));
            !UniqueDomains(RunBlocks(X.Ascii(), host, Chain(map[], map[]), [first, second, Commit]).committed)
  {
    var page: Tree := [File("index.html", [1])];
    assert page[0].path == "index.html";
    X.ArgsAreFine("a", page, {});
    X.ArgsAreFine("b", page, {});
    hide X.Fine, X.UploadOf, Transform, RunBlocks, UniqueDomains;
    DomainTakenTwice(X.Ascii(), host, o, X.ArgsFor("a", page, {}), X.ArgsFor("b", page, {}), d);
  }

  lemma Different(o: A.Id, s: string, x: string)
    requires s != x
    ensures MetaKey(o, s) != MetaKey(o, x)
  {
    hide Keys.Under;
    Keys.UnderInjective("/meta/", o, s, o, x);
  }

  lemma NotUnique(store: Kv, j: string, k: string, d: string)
    requires j != k && UsesAt(store, j, d) && UsesAt(store, k, d)
    ensures !UniqueDomains(store)
  {
    hide UsesAt;
  }

  lemma NothingUsed(d: string)
    ensures !DomainUsed(map[], d)
  {
  }

  lemma OtherIsNew(o: A.Id, s: string, x: string, u: Upload)
    requires s != x
    ensures !Exists(StoreSite(map[], o, s, u), o, x)
  {
    hide Keys.Under;
    Keys.UnderInjective("/meta/", o, s, o, x);
    var k := MetaKey(o, x);
    StoreSiteAt(map[], o, s, u, k);
    assert MetaKey(o, s) != k;
    hide StoreSite, SiteKey, MetaKey;
    if SiteKey(o, s) <= k {
      FilesApartFromMeta(o, s, o, x, k);
    }
  }

  lemma ThreeEvents(t: Text, host: string, c: Chain, x: Event, y: Event, z: Event)
    ensures RunBlocks(t, host, c, [x, y, z]) == Advance(t, host, Advance(t, host, Advance(t, host, c, x), y), z)
  {
    hide Advance;
    var p := Advance(t, host, c, x);
    var q := Advance(t, host, p, y);
    assert [x, y, z][1..] == [y, z] && [y, z][1..] == [z] && [z][1..] == [];
    assert RunBlocks(t, host, q, [z]) == Advance(t, host, q, z);
    assert RunBlocks(t, host, p, [y, z]) == RunBlocks(t, host, q, [z]);
  }
}
