/** The deploy, update and remove commands of the web module, and what holds over their runs. */
module WebCommands {
  import opened Wrappers
  import opened Store
  import opened WebFiles
  import A = Address
  import Keys

  datatype Error =
    | InvalidOwner | InvalidDomain | NameTooLong | ExistentSite | NonexistentSite | DomainInUse
    | NotAlphanumeric | InvalidArchive | MissingIndex | BadMeta

  /** The tables of Unicode: lower case, white space, letters and digits, and the size in UTF-8. */
  datatype Text = Text(lower: string -> string, space: char -> bool, letter: char -> bool, size: string -> nat)

  /** A domain argument as the DNS name parser sees it. */
  datatype Domain = NoDomain | BadDomain | GoodDomain(name: string)

  /** An archive as the unpacker sees it: the files, and the directories beside them. */
  datatype Archive = Broken | Unpacked(files: Tree, directories: set<string>)

  datatype Args = Args(owner: Option<A.Id>, name: string, description: Option<string>, archive: Archive, domain: Domain)

  function TrimStart(t: Text, s: string): string {
    if s != [] && t.space(s[0]) then TrimStart(t, s[1..]) else s
  }

  function TrimEnd(t: Text, s: string): string {
    if s != [] && t.space(s[|s| - 1]) then TrimEnd(t, s[..|s| - 1]) else s
  }

  function Underscores(s: string): string {
    if s == [] then [] else [if s[0] == ' ' then '_' else s[0]] + Underscores(s[1..])
  }

  function Transform(t: Text, name: string): string {
    Underscores(TrimEnd(t, TrimStart(t, t.lower(name))))
  }

  predicate PlainText(t: Text, s: string) {
    forall i :: 0 <= i < |s| ==> t.letter(s[i]) || '!' <= s[i] <= '~' || s[i] in " \t\n\r\U{0C}"
  }

  function ParseDomain(d: Domain): Result<Option<string>, Error> {
    match d
    case NoDomain => Ok(None)
    case BadDomain => Err(InvalidDomain)
    case GoodDomain(name) => Ok(Some(name))
  }

  function Prepare(t: Text, site: string, args: Args): Result<Tree, Error> {
    if !PlainText(t, site) then Err(NotAlphanumeric)
    else if args.description.Some? && !PlainText(t, args.description.value) then Err(NotAlphanumeric)
    else match args.archive
      case Broken => Err(InvalidArchive)
      case Unpacked(files, directories) =>
        if (exists i :: 0 <= i < |files| && files[i].path == "index.html") || "index.html" in directories then Ok(files)
        else Err(MissingIndex)
  }

  predicate WrongOwner(sender: A.Id, owner: Option<A.Id>) {
    owner.Some? && !A.Eq(sender, owner.value)
  }

  /**
   * The upload an accepted deployment stores. Single keys are read from the store, and domains are
   * looked for in what a scan sees.
   */
  function DeployWith(t: Text, host: string, seen: Kv, store: Kv, sender: A.Id, args: Args): Result<Upload, Error> {
    if WrongOwner(sender, args.owner) then Err(InvalidOwner)
    else
      var domain :- ParseDomain(args.domain);
      if t.size(args.name) > 12 then Err(NameTooLong)
      else
        var site := Transform(t, args.name);
        if Exists(store, sender, site) then Err(ExistentSite)
        else if domain.Some? && DomainUsed(seen, domain.value) then Err(DomainInUse)
        else
          var files :- Prepare(t, site, args);
          Ok(Upload(host, args.description, domain, files))
  }

  /** The upload an accepted update puts in place of the site. */
  function UpdateWith(t: Text, host: string, seen: Kv, store: Kv, sender: A.Id, args: Args): Result<Upload, Error> {
    if WrongOwner(sender, args.owner) then Err(InvalidOwner)
    else
      var domain :- ParseDomain(args.domain);
      if t.size(args.name) > 12 then Err(NameTooLong)
      else
        var site := Transform(t, args.name);
        if !Exists(store, sender, site) then Err(NonexistentSite)
        else if domain.Some? && !store[MetaKey(sender, site)].Meta? then Err(BadMeta)
        else if
          && domain.Some?
          && store[MetaKey(sender, site)].info.domain != domain
          && DomainUsed(seen, domain.value)
        then Err(DomainInUse)
        else
          var files :- Prepare(t, site, args);
          Ok(Upload(host, args.description, domain, files))
  }

  /** The same where every command commits, so that a scan sees the whole store. */
  function Deploy(t: Text, host: string, store: Kv, sender: A.Id, args: Args): Result<Upload, Error> {
    DeployWith(t, host, store, store, sender, args)
  }

  function Update(t: Text, host: string, store: Kv, sender: A.Id, args: Args): Result<Upload, Error> {
    UpdateWith(t, host, store, store, sender, args)
  }

  datatype Step =
    | DeployStep(sender: A.Id, args: Args)
    | UpdateStep(sender: A.Id, args: Args)
    | RemoveStep(sender: A.Id, owner: Option<A.Id>, name: string)
    | Housekeeping(writes: Kv)

  /** Events, heights and the configuration are kept outside the two roots of the web module. */
  predicate Admissible(step: Step) {
    step.Housekeeping? ==> forall k :: k in step.writes ==> !("/meta" <= k) && !("/http" <= k)
  }

  function Next(t: Text, host: string, store: Kv, step: Step): Kv {
    match step
    case DeployStep(sender, args) =>
      var r := Deploy(t, host, store, sender, args);
      if r.Ok? then StoreSite(store, sender, Transform(t, args.name), r.value) else store
    case UpdateStep(sender, args) =>
      var r := Update(t, host, store, sender, args);
      if r.Ok? then UpdateSite(store, sender, Transform(t, args.name), r.value) else store
    case RemoveStep(sender, owner, name) =>
      if WrongOwner(sender, owner) then store else RemoveSite(store, sender, Transform(t, name))
    case Housekeeping(writes) => store + writes
  }

  function Run(t: Text, host: string, store: Kv, steps: seq<Step>): Kv
    decreases |steps|
  {
    if steps == [] then store else Run(t, host, Next(t, host, store, steps[0]), steps[1..])
  }

  // -------------------------------------------------------------------------------------------
  // Domains
  // -------------------------------------------------------------------------------------------

  /** No two descriptions name the same domain. */
  ghost predicate UniqueDomains(store: Kv) {
    forall j, k, d :: UsesAt(store, j, d) && UsesAt(store, k, d) ==> j == k
  }

  /** Each description is kept under the key of the owner and name it states. */
  predicate Filed(store: Kv) {
    forall k :: k in store && "/meta" <= k ==>
                  store[k].Meta? && k == MetaKey(store[k].info.owner, store[k].info.name)
  }

  lemma Root(root: string, tail: string, start: string)
    requires start <= root
    ensures start <= root + tail
  {
    assert (root + tail)[..|start|] == root[..|start|] == start;
  }

  lemma MetaKeyRoot(o: A.Id, s: string)
    ensures "/meta" <= MetaKey(o, s) && !("/http" <= MetaKey(o, s))
  {
    hide A.ToText;
    Root("/meta/", A.ToText(o) + ("/" + s), "/meta");
    assert "/meta" <= MetaKey(o, s);
    hide MetaKey;
    assert MetaKey(o, s)[1] == 'm';
  }

  lemma SiteKeyRoot(o: A.Id, s: string, k: string)
    requires SiteKey(o, s) <= k
    ensures "/http" <= k && !("/meta" <= k)
  {
    hide A.ToText;
    Root("/http/", A.ToText(o) + ("/" + (s + "/")), "/http");
    assert "/http" <= SiteKey(o, s);
    hide SiteKey;
    assert k[..5] == SiteKey(o, s)[..5] == "/http";
    assert k[1] == 'h';
  }

  /** Under the metadata root a store changes only the description of its site. */
  lemma StoredUse(store: Kv, o: A.Id, s: string, u: Upload, k: string)
    requires "/meta" <= k
    ensures Get(StoreSite(store, o, s, u), k) ==
            if k == MetaKey(o, s) then Some(Meta(InfoOf(o, s, u))) else Get(store, k)
  {
    StoreSiteAt(store, o, s, u, k);
    hide StoreSite, MetaKey, SiteKey;
    if SiteKey(o, s) <= k {
      SiteKeyRoot(o, s, k);
    }
  }

  lemma StoreKeepsDomains(store: Kv, o: A.Id, s: string, u: Upload)
    requires UniqueDomains(store)
    requires u.domain.Some? ==> forall k :: UsesAt(store, k, u.domain.value) ==> k == MetaKey(o, s)
    ensures UniqueDomains(StoreSite(store, o, s, u))
  {
    hide StoreSite, MetaKey, InfoOf;
    var after := StoreSite(store, o, s, u);
    forall j, k, d | UsesAt(after, j, d) && UsesAt(after, k, d) ensures j == k {
      StoredUse(store, o, s, u, j);
      StoredUse(store, o, s, u, k);
      InfoDomain(o, s, u);
      if j != MetaKey(o, s) {
        assert UsesAt(store, j, d);
      }
      if k != MetaKey(o, s) {
        assert UsesAt(store, k, d);
      }
    }
  }

  lemma InfoDomain(o: A.Id, s: string, u: Upload)
    ensures InfoOf(o, s, u).domain == u.domain && InfoOf(o, s, u).owner == o && InfoOf(o, s, u).name == s
  {
    hide Url;
  }

  lemma StoreKeepsFiled(store: Kv, o: A.Id, s: string, u: Upload)
    requires Filed(store)
    ensures Filed(StoreSite(store, o, s, u))
  {
    hide StoreSite, MetaKey, InfoOf;
    var after := StoreSite(store, o, s, u);
    forall k | k in after && "/meta" <= k
      ensures after[k].Meta? && k == MetaKey(after[k].info.owner, after[k].info.name)
    {
      StoredUse(store, o, s, u, k);
      InfoDomain(o, s, u);
    }
  }

  lemma RemoveKeeps(store: Kv, o: A.Id, s: string)
    requires UniqueDomains(store) && Filed(store)
    ensures UniqueDomains(RemoveSite(store, o, s)) && Filed(RemoveSite(store, o, s))
  {
    hide InSite;
    var after := RemoveSite(store, o, s);
    forall j, k, d | UsesAt(after, j, d) && UsesAt(after, k, d) ensures j == k {
      assert UsesAt(store, j, d) && UsesAt(store, k, d);
    }
  }

  lemma NotUsed(store: Kv, d: string)
    requires !DomainUsed(store, d)
    ensures forall k :: !UsesAt(store, k, d)
  {
  }

  lemma DeployKeeps(t: Text, host: string, store: Kv, sender: A.Id, args: Args)
    requires UniqueDomains(store) && Filed(store) && Deploy(t, host, store, sender, args).Ok?
    ensures var after := StoreSite(store, sender, Transform(t, args.name), Deploy(t, host, store, sender, args).value);
            UniqueDomains(after) && Filed(after)
  {
    hide StoreSite, MetaKey, Transform, UniqueDomains, Filed, DomainUsed, Exists, Prepare;
    var u := Deploy(t, host, store, sender, args).value;
    if u.domain.Some? {
      NotUsed(store, u.domain.value);
    }
    StoreKeepsDomains(store, sender, Transform(t, args.name), u);
    StoreKeepsFiled(store, sender, Transform(t, args.name), u);
  }

  lemma UpdateKeeps(t: Text, host: string, store: Kv, sender: A.Id, args: Args)
    requires UniqueDomains(store) && Filed(store) && Update(t, host, store, sender, args).Ok?
    ensures var after := UpdateSite(store, sender, Transform(t, args.name), Update(t, host, store, sender, args).value);
            UniqueDomains(after) && Filed(after)
  {
    hide StoreSite, RemoveSite, MetaKey, Transform, Filed, UniqueDomains, DomainUsed, UsesAt, Prepare;
    var site := Transform(t, args.name);
    var u := Update(t, host, store, sender, args).value;
    RemoveKeeps(store, sender, site);
    if u.domain.Some? {
      OnlyOwnUse(store, sender, site, u.domain.value);
    }
    StoreKeepsDomains(RemoveSite(store, sender, site), sender, site, u);
    StoreKeepsFiled(RemoveSite(store, sender, site), sender, site, u);
  }

  /** After the removal in an update nothing else uses the domain that the update was allowed. */
  lemma OnlyOwnUse(store: Kv, o: A.Id, s: string, d: string)
    requires UniqueDomains(store) && MetaKey(o, s) in store && store[MetaKey(o, s)].Meta?
    requires store[MetaKey(o, s)].info.domain == Some(d) || !DomainUsed(store, d)
    ensures forall k :: UsesAt(RemoveSite(store, o, s), k, d) ==> k == MetaKey(o, s)
  {
    hide MetaKey, InSite;
    MetaKeyRoot(o, s);
    forall k | UsesAt(RemoveSite(store, o, s), k, d) ensures k == MetaKey(o, s) {
      assert UsesAt(store, k, d);
      if store[MetaKey(o, s)].info.domain == Some(d) {
        assert UsesAt(store, MetaKey(o, s), d);
      }
    }
  }

  lemma NextKeeps(t: Text, host: string, store: Kv, step: Step)
    requires UniqueDomains(store) && Filed(store) && Admissible(step)
    ensures UniqueDomains(Next(t, host, store, step)) && Filed(Next(t, host, store, step))
  {
    hide StoreSite, UpdateSite, RemoveSite, Transform, Deploy, Update, WrongOwner;
    match step
    case DeployStep(sender, args) =>
      if Deploy(t, host, store, sender, args).Ok? {
        DeployKeeps(t, host, store, sender, args);
      }
    case UpdateStep(sender, args) =>
      if Update(t, host, store, sender, args).Ok? {
        UpdateKeeps(t, host, store, sender, args);
      }
    case RemoveStep(sender, owner, name) => RemoveKeeps(store, sender, Transform(t, name));
    case Housekeeping(writes) => OtherWritesKeep(store, writes);
  }

  lemma OtherWritesKeep(store: Kv, writes: Kv)
    requires UniqueDomains(store) && Filed(store) && Admissible(Housekeeping(writes))
    ensures UniqueDomains(store + writes) && Filed(store + writes)
  {
    hide MetaKey;
    forall j, k, d | UsesAt(store + writes, j, d) && UsesAt(store + writes, k, d) ensures j == k {
      assert UsesAt(store, j, d) && UsesAt(store, k, d);
    }
  }

  /** Over every run from the empty store, no domain serves two sites. */
  lemma {:induction false} DomainsStayUnique(t: Text, host: string, store: Kv, steps: seq<Step>)
    requires UniqueDomains(store) && Filed(store)
    requires forall i :: 0 <= i < |steps| ==> Admissible(steps[i])
    ensures UniqueDomains(Run(t, host, store, steps)) && Filed(Run(t, host, store, steps))
    decreases |steps|
  {
    hide UniqueDomains, Filed, Next, Admissible;
    if steps == [] {
    } else {
      NextKeeps(t, host, store, steps[0]);
      DomainsStayUnique(t, host, Next(t, host, store, steps[0]), steps[1..]);
    }
  }

  lemma EmptyStore()
    ensures UniqueDomains(map[]) && Filed(map[])
  {
    assert forall k, d :: !UsesAt(map[], k, d);
  }

  // -------------------------------------------------------------------------------------------
  // What a command touches
  // -------------------------------------------------------------------------------------------

  /** The site a command is about: always one of the sender's. */
  function Target(t: Text, step: Step): (A.Id, string)
    requires !step.Housekeeping?
  {
    match step
    case DeployStep(sender, args) => (sender, Transform(t, args.name))
    case UpdateStep(sender, args) => (sender, Transform(t, args.name))
    case RemoveStep(sender, _, name) => (sender, Transform(t, name))
  }

  /** No command changes a key outside the sender's own site of that name. */
  lemma CommandStaysInSite(t: Text, host: string, store: Kv, step: Step, k: string)
    requires !step.Housekeeping? && !InSite(Target(t, step).0, Target(t, step).1, k)
    ensures Get(Next(t, host, store, step), k) == Get(store, k)
  {
    hide StoreSite, InSite, Transform, Deploy, Update, WrongOwner, Published;
    var (o, s) := Target(t, step);
    match step
    case DeployStep(sender, args) =>
      var r := Deploy(t, host, store, sender, args);
      if r.Ok? {
        StoreSiteAt(store, o, s, r.value, k);
        if Published(o, s, r.value, k).Some? {
          PublishedInSite(o, s, r.value, k);
        }
      }
    case UpdateStep(sender, args) =>
      var r := Update(t, host, store, sender, args);
      if r.Ok? {
        UpdateSiteAt(store, o, s, r.value, k);
      }
    case RemoveStep(_, _, _) =>
  }

  /** A run whose commands all come from others, or aim elsewhere, leaves a site as it is. */
  lemma {:induction false} OthersCannotTouch(t: Text, host: string, store: Kv, steps: seq<Step>, o: A.Id, s: string,
      k: string)
    requires InSite(o, s, k)
    requires forall i :: 0 <= i < |steps| ==>
               && Admissible(steps[i])
               && (steps[i].Housekeeping? ||
                   !(Target(t, steps[i]).0 == o && Nested(Target(t, steps[i]).1, s)))
    ensures Get(Run(t, host, store, steps), k) == Get(store, k)
    decreases |steps|
  {
    hide InSite, Next, Transform, Nested, Get;
    if steps == [] {
    } else {
      var next := Next(t, host, store, steps[0]);
      if steps[0].Housekeeping? {
        OtherWritesMiss(t, host, store, steps[0], o, s, k);
      } else {
        var (p, q) := Target(t, steps[0]);
        SharedKeyIff(p, q, o, s);
        assert !InSite(p, q, k);
        CommandStaysInSite(t, host, store, steps[0], k);
      }
      assert forall i :: 0 <= i < |steps[1..]| ==> steps[1..][i] == steps[i + 1];
      OthersCannotTouch(t, host, next, steps[1..], o, s, k);
    }
  }

  lemma OtherWritesMiss(t: Text, host: string, store: Kv, step: Step, o: A.Id, s: string, k: string)
    requires step.Housekeeping? && Admissible(step) && InSite(o, s, k)
    ensures Get(Next(t, host, store, step), k) == Get(store, k)
  {
    hide SiteKey, MetaKey;
    MetaKeyRoot(o, s);
    if SiteKey(o, s) <= k {
      SiteKeyRoot(o, s, k);
    }
  }

  // -------------------------------------------------------------------------------------------
  // Nothing stale
  // -------------------------------------------------------------------------------------------

  /** The key is a file of an existing site whose name has no slash. */
  ghost predicate HasHome(store: Kv, k: string) {
    exists o: A.Id, s :: Keys.NoSlash(s) && SiteKey(o, s) <= k && Exists(store, o, s)
  }

  ghost predicate Tidy(store: Kv) {
    forall k :: k in store && "/http" <= k ==> HasHome(store, k)
  }

  /** A command that names a site without a slash and whose archive has no directory `index.html`. */
  predicate Plain(t: Text, step: Step) {
    match step
    case DeployStep(_, args) => Keys.NoSlash(Transform(t, args.name)) && IndexIsFile(args.archive)
    case UpdateStep(_, args) => Keys.NoSlash(Transform(t, args.name)) && IndexIsFile(args.archive)
    case RemoveStep(_, _, name) => Keys.NoSlash(Transform(t, name))
    case Housekeeping(_) => Admissible(step)
  }

  predicate IndexIsFile(archive: Archive) {
    archive.Unpacked? ==> "index.html" !in archive.directories
  }

  lemma {:induction false} Listed(files: seq<File>, i: nat)
    requires i < |files| && files[i].path == "index.html"
    ensures FileAt(files, "index.html").Some?
  {
    hide Hidden;
    IndexNotHidden();
    if i > 0 {
      Listed(files[1..], i - 1);
    }
  }

  lemma IndexNotHidden()
    ensures !Hidden("index.html")
  {
    var p := "index.html";
    assert forall i :: 0 <= i < |p| && p[i] == '.' ==> i == 5;
    assert p[4] == 'x';
  }

  lemma PreparedIndex(t: Text, site: string, args: Args)
    requires Prepare(t, site, args).Ok? && IndexIsFile(args.archive)
    ensures FileAt(Prepare(t, site, args).value, "index.html").Some?
  {
    var files := args.archive.files;
    var i :| 0 <= i < |files| && files[i].path == "index.html";
    Listed(files, i);
  }

  lemma StoreKeepsExists(store: Kv, o: A.Id, s: string, u: Upload, p: A.Id, t: string)
    requires Exists(store, p, t)
    ensures Exists(StoreSite(store, o, s, u), p, t)
  {
    hide StoreSite, MetaKey, FileKey, Published;
    StoreSiteAt(store, o, s, u, MetaKey(p, t));
    StoreSiteAt(store, o, s, u, FileKey(p, t, "index.html"));
  }

  lemma StoreKeepsTidy(store: Kv, o: A.Id, s: string, u: Upload)
    requires Tidy(store) && Keys.NoSlash(s) && FileAt(u.files, "index.html").Some?
    ensures Tidy(StoreSite(store, o, s, u))
  {
    hide StoreSite, MetaKey, SiteKey, FileAt, Exists, Keys.NoSlash;
    var after := StoreSite(store, o, s, u);
    StoredExists(store, o, s, u);
    forall k | k in after && "/http" <= k ensures HasHome(after, k) {
      StoreSiteAt(store, o, s, u, k);
      if Published(o, s, u, k).Some? {
        if k == MetaKey(o, s) {
          MetaKeyRoot(o, s);
        }
        assert SiteKey(o, s) <= k;
      } else {
        var p, q :| Keys.NoSlash(q) && SiteKey(p, q) <= k && Exists(store, p, q);
        StoreKeepsExists(store, o, s, u, p, q);
      }
    }
  }

  /** Two sites without slashes that share a key are one site. */
  lemma OneHome(o: A.Id, s: string, p: A.Id, t: string, k: string)
    requires Keys.NoSlash(s) && Keys.NoSlash(t) && InSite(o, s, k) && InSite(p, t, k)
    ensures o == p && s == t
  {
    hide InSite, Nested, Keys.NoSlash;
    SharedKeyIff(o, s, p, t);
    PlainNamesIsolated(s, t);
  }

  lemma RemoveKeepsExists(store: Kv, o: A.Id, s: string, p: A.Id, t: string)
    requires Keys.NoSlash(s) && Keys.NoSlash(t) && Exists(store, p, t) && !(o == p && s == t)
    ensures Exists(RemoveSite(store, o, s), p, t)
  {
    hide InSite, MetaKey, FileKey, Keys.NoSlash;
    SiteHolds(p, t, "index.html");
    if InSite(o, s, MetaKey(p, t)) {
      OneHome(o, s, p, t, MetaKey(p, t));
    }
    if InSite(o, s, FileKey(p, t, "index.html")) {
      OneHome(o, s, p, t, FileKey(p, t, "index.html"));
    }
  }

  lemma RemoveKeepsTidy(store: Kv, o: A.Id, s: string)
    requires Tidy(store) && Keys.NoSlash(s)
    ensures Tidy(RemoveSite(store, o, s))
  {
    hide MetaKey, SiteKey, Exists, Keys.NoSlash;
    var after := RemoveSite(store, o, s);
    forall k | k in after && "/http" <= k ensures HasHome(after, k) {
      assert k in store && !InSite(o, s, k) && HasHome(store, k);
      var p, q :| Keys.NoSlash(q) && SiteKey(p, q) <= k && Exists(store, p, q);
      RemoveKeepsExists(store, o, s, p, q);
    }
  }

  lemma OtherWritesKeepTidy(store: Kv, writes: Kv)
    requires Tidy(store) && Admissible(Housekeeping(writes))
    ensures Tidy(store + writes)
  {
    hide MetaKey, SiteKey, FileKey, Keys.NoSlash;
    forall k | k in store + writes && "/http" <= k ensures HasHome(store + writes, k) {
      var p, q :| Keys.NoSlash(q) && SiteKey(p, q) <= k && Exists(store, p, q);
      assert Exists(store + writes, p, q);
    }
  }

  lemma NextKeepsTidy(t: Text, host: string, store: Kv, step: Step)
    requires Tidy(store) && Plain(t, step)
    ensures Tidy(Next(t, host, store, step))
  {
    hide StoreSite, RemoveSite, Transform, Tidy, Deploy, Update, Keys.NoSlash, FileAt, IndexIsFile;
    match step
    case DeployStep(sender, args) =>
      if Deploy(t, host, store, sender, args).Ok? {
        DeployedIndex(t, host, store, sender, args);
        StoreKeepsTidy(store, sender, Transform(t, args.name), Deploy(t, host, store, sender, args).value);
      }
    case UpdateStep(sender, args) =>
      if Update(t, host, store, sender, args).Ok? {
        UpdatedIndex(t, host, store, sender, args);
        RemoveKeepsTidy(store, sender, Transform(t, args.name));
        StoreKeepsTidy(RemoveSite(store, sender, Transform(t, args.name)), sender, Transform(t, args.name),
                       Update(t, host, store, sender, args).value);
      }
    case RemoveStep(sender, _, name) => RemoveKeepsTidy(store, sender, Transform(t, name));
    case Housekeeping(writes) => OtherWritesKeepTidy(store, writes);
  }

  lemma DeployedIndex(t: Text, host: string, store: Kv, sender: A.Id, args: Args)
    requires Deploy(t, host, store, sender, args).Ok? && IndexIsFile(args.archive)
    ensures FileAt(Deploy(t, host, store, sender, args).value.files, "index.html").Some?
  {
    hide Transform, Prepare, Exists, DomainUsed, FileAt, IndexIsFile;
    PreparedIndex(t, Transform(t, args.name), args);
  }

  lemma UpdatedIndex(t: Text, host: string, store: Kv, sender: A.Id, args: Args)
    requires Update(t, host, store, sender, args).Ok? && IndexIsFile(args.archive)
    ensures FileAt(Update(t, host, store, sender, args).value.files, "index.html").Some?
  {
    hide Transform, Prepare, DomainUsed, FileAt, IndexIsFile, MetaKey, FileKey;
    PreparedIndex(t, Transform(t, args.name), args);
  }

  lemma {:induction false} RunsStayTidy(t: Text, host: string, store: Kv, steps: seq<Step>)
    requires Tidy(store) && forall i :: 0 <= i < |steps| ==> Plain(t, steps[i])
    ensures Tidy(Run(t, host, store, steps))
    decreases |steps|
  {
    hide Tidy, Next, Plain;
    if steps == [] {
    } else {
      NextKeepsTidy(t, host, store, steps[0]);
      assert forall i :: 0 <= i < |steps[1..]| ==> steps[1..][i] == steps[i + 1];
      RunsStayTidy(t, host, Next(t, host, store, steps[0]), steps[1..]);
    }
  }

  /**
   * Nothing stale is served. After any run of plain commands from the empty store, a deployment
   * that is accepted leaves its site holding exactly what was uploaded.
   */
  lemma DeployedExactly(t: Text, host: string, steps: seq<Step>, sender: A.Id, args: Args, k: string)
    requires forall i :: 0 <= i < |steps| ==> Plain(t, steps[i])
    requires Keys.NoSlash(Transform(t, args.name))
    requires Deploy(t, host, Run(t, host, map[], steps), sender, args).Ok?
    requires InSite(sender, Transform(t, args.name), k)
    ensures var store := Run(t, host, map[], steps);
            var u := Deploy(t, host, store, sender, args).value;
            Get(Next(t, host, store, DeployStep(sender, args)), k) == Published(sender, Transform(t, args.name), u, k)
  {
    hide Run, Plain, StoreSite, Transform, Prepare, DomainUsed, Published, InSite, Keys.NoSlash, Exists;
    var store := Run(t, host, map[], steps);
    RunsStayTidy(t, host, map[], steps);
    var u := Deploy(t, host, store, sender, args).value;
    StoreSiteAt(store, sender, Transform(t, args.name), u, k);
    if k in store {
      NoLeftover(store, sender, Transform(t, args.name), u, k);
    }
  }

  lemma NoLeftover(store: Kv, o: A.Id, s: string, u: Upload, k: string)
    requires Tidy(store) && Keys.NoSlash(s) && !Exists(store, o, s) && k in store && InSite(o, s, k)
    ensures Published(o, s, u, k).Some?
  {
    hide MetaKey, SiteKey, Exists, Keys.NoSlash;
    if SiteKey(o, s) <= k {
      SiteKeyRoot(o, s, k);
      var p, q :| Keys.NoSlash(q) && SiteKey(p, q) <= k && Exists(store, p, q);
      OneHome(o, s, p, q, k);
    }
  }

  // -------------------------------------------------------------------------------------------
  // When a deployment or an update is accepted
  // -------------------------------------------------------------------------------------------

  /** The owner, if one is named, is the sender. */
  predicate Mine(sender: A.Id, owner: Option<A.Id>) { owner == None || owner == Some(sender) }

  /** Letters and digits, visible ASCII, and the ASCII white space. */
  predicate Printable(t: Text, s: string) {
    forall i :: 0 <= i < |s| ==> t.letter(s[i]) || 33 <= s[i] as int <= 126 || s[i] as int in {9, 10, 12, 13, 32}
  }

  predicate HasIndex(archive: Archive) {
    && archive.Unpacked?
    && ("index.html" in archive.directories || exists f :: f in archive.files && f.path == "index.html")
  }

  function DomainOf(d: Domain): Option<string> {
    if d.GoodDomain? then Some(d.name) else None
  }

  /** What both commands ask of the sender and the arguments. */
  predicate WellFormed(t: Text, sender: A.Id, args: Args) {
    && Mine(sender, args.owner)
    && !args.domain.BadDomain?
    && t.size(args.name) <= 12
    && Printable(t, Transform(t, args.name))
    && (args.description.Some? ==> Printable(t, args.description.value))
    && HasIndex(args.archive)
  }

  /** Some description that the scan sees names the domain. */
  ghost predicate InUse(seen: Kv, d: string) {
    exists k :: k in seen && "/meta" <= k && seen[k].Meta? && seen[k].info.domain == Some(d)
  }

  lemma SamePlain(t: Text, s: string)
    ensures PlainText(t, s) <==> Printable(t, s)
  {
    assert forall c: char :: c in " \t\n\r\U{0C}" <==> c as int in {9, 10, 12, 13, 32};
  }

  lemma PrepareIff(t: Text, site: string, args: Args)
    ensures Prepare(t, site, args).Ok? <==>
            && Printable(t, site)
            && (args.description.Some? ==> Printable(t, args.description.value))
            && HasIndex(args.archive)
    ensures Prepare(t, site, args).Ok? ==> Prepare(t, site, args).value == args.archive.files
    ensures Prepare(t, site, args) == Err(NotAlphanumeric) ==>
              !Printable(t, site) || (args.description.Some? && !Printable(t, args.description.value))
    ensures Prepare(t, site, args) == Err(InvalidArchive) ==> args.archive.Broken?
    ensures Prepare(t, site, args) == Err(MissingIndex) ==> args.archive.Unpacked? && !HasIndex(args.archive)
    ensures Prepare(t, site, args).Err? ==>
              Prepare(t, site, args).error in {NotAlphanumeric, InvalidArchive, MissingIndex}
  {
    hide PlainText, Printable;
    SamePlain(t, site);
    if args.description.Some? {
      SamePlain(t, args.description.value);
    }
  }

  lemma OwnerIff(sender: A.Id, owner: Option<A.Id>)
    ensures WrongOwner(sender, owner) <==> !Mine(sender, owner)
  {
    hide A.Eq;
    if owner.Some? {
      A.EqIsByteEquality(sender, owner.value);
    }
  }

  /**
   * A deployment is accepted just when it is well formed, the sender has no site of that name and no
   * description in sight names its domain. Its upload is then what the arguments say.
   */
  lemma DeployIff(t: Text, host: string, seen: Kv, store: Kv, sender: A.Id, args: Args)
    ensures DeployWith(t, host, seen, store, sender, args).Ok? <==>
            && WellFormed(t, sender, args)
            && !Exists(store, sender, Transform(t, args.name))
            && (args.domain.GoodDomain? ==> !InUse(seen, args.domain.name))
    ensures DeployWith(t, host, seen, store, sender, args).Ok? ==>
              DeployWith(t, host, seen, store, sender, args).value ==
                Upload(host, args.description, DomainOf(args.domain), args.archive.files)
  {
    hide Transform, Printable, HasIndex, Exists, Mine, Prepare, WrongOwner;
    OwnerIff(sender, args.owner);
    PrepareIff(t, Transform(t, args.name), args);
  }

  /** A refusal names something that is wrong. */
  lemma DeployRefusals(t: Text, host: string, seen: Kv, store: Kv, sender: A.Id, args: Args)
    ensures DeployWith(t, host, seen, store, sender, args).Err? ==>
              match DeployWith(t, host, seen, store, sender, args).error
              case InvalidOwner => !Mine(sender, args.owner)
              case InvalidDomain => args.domain.BadDomain?
              case NameTooLong => t.size(args.name) > 12
              case ExistentSite => Exists(store, sender, Transform(t, args.name))
              case DomainInUse => args.domain.GoodDomain? && InUse(seen, args.domain.name)
              case NotAlphanumeric =>
                !Printable(t, Transform(t, args.name))
                || (args.description.Some? && !Printable(t, args.description.value))
              case InvalidArchive => args.archive.Broken?
              case MissingIndex => args.archive.Unpacked? && !HasIndex(args.archive)
              case _ => false
  {
    hide Transform, Printable, HasIndex, Exists, Mine, Prepare, WrongOwner;
    OwnerIff(sender, args.owner);
    PrepareIff(t, Transform(t, args.name), args);
  }

  /**
   * An update is accepted just when it is well formed, the sender has a site of that name and, if it
   * names a domain, the site's own description can be read and already has it, or no description in
   * sight names it.
   */
  lemma UpdateIff(t: Text, host: string, seen: Kv, store: Kv, sender: A.Id, args: Args)
    ensures var own := Get(store, MetaKey(sender, Transform(t, args.name)));
            UpdateWith(t, host, seen, store, sender, args).Ok? <==>
            && WellFormed(t, sender, args)
            && Exists(store, sender, Transform(t, args.name))
            && (args.domain.GoodDomain? ==>
                  && own.Some? && own.value.Meta?
                  && (own.value.info.domain == Some(args.domain.name) || !InUse(seen, args.domain.name)))
    ensures UpdateWith(t, host, seen, store, sender, args).Ok? ==>
              UpdateWith(t, host, seen, store, sender, args).value ==
                Upload(host, args.description, DomainOf(args.domain), args.archive.files)
  {
    hide Transform, Printable, HasIndex, Mine, Prepare, WrongOwner, MetaKey, FileKey;
    OwnerIff(sender, args.owner);
    PrepareIff(t, Transform(t, args.name), args);
  }

  /** A refusal names something that is wrong. */
  lemma UpdateRefusals(t: Text, host: string, seen: Kv, store: Kv, sender: A.Id, args: Args)
    ensures UpdateWith(t, host, seen, store, sender, args).Err? ==>
              match UpdateWith(t, host, seen, store, sender, args).error
              case InvalidOwner => !Mine(sender, args.owner)
              case InvalidDomain => args.domain.BadDomain?
              case NameTooLong => t.size(args.name) > 12
              case NonexistentSite => !Exists(store, sender, Transform(t, args.name))
              case BadMeta =>
                var own := Get(store, MetaKey(sender, Transform(t, args.name)));
                args.domain.GoodDomain? && own.Some? && !own.value.Meta?
              case DomainInUse => args.domain.GoodDomain? && InUse(seen, args.domain.name)
              case NotAlphanumeric =>
                !Printable(t, Transform(t, args.name))
                || (args.description.Some? && !Printable(t, args.description.value))
              case InvalidArchive => args.archive.Broken?
              case MissingIndex => args.archive.Unpacked? && !HasIndex(args.archive)
              case _ => false
  {
    hide Transform, Printable, HasIndex, Mine, Prepare, WrongOwner, MetaKey, FileKey;
    OwnerIff(sender, args.owner);
    PrepareIff(t, Transform(t, args.name), args);
  }

  // -------------------------------------------------------------------------------------------
  // What an accepted command leaves
  // -------------------------------------------------------------------------------------------

  /** The description that the arguments of a command ask for. */
  function Described(t: Text, host: string, sender: A.Id, args: Args): Info {
    var site := Transform(t, args.name);
    Info(sender, site, args.description, Some("https://" + site + "-" + A.ToText(sender) + "." + host),
      DomainOf(args.domain))
  }

  /** Every file that is not hidden reads as in the archive. */
  predicate Serves(store: Kv, o: A.Id, s: string, files: seq<File>) {
    forall f :: f in files && !Hidden(f.path) ==> Get(store, FileKey(o, s, f.path)) == Some(Blob(f.data))
  }

  /** No path reads as anything else. */
  ghost predicate ServesOnly(store: Kv, o: A.Id, s: string, files: seq<File>) {
    forall path :: FileKey(o, s, path) in store ==> !Hidden(path) && exists f :: f in files && f.path == path
  }

  lemma {:induction false} FileIsAt(files: seq<File>, f: File)
    requires DistinctPaths(files) && f in files && !Hidden(f.path)
    ensures FileAt(files, f.path) == Some(f.data)
  {
    hide Hidden;
    if files[0] == f {
    } else {
      var i :| 0 < i < |files| && files[i] == f;
      assert files[1..][i - 1] == f;
      FileIsAt(files[1..], f);
    }
  }

  lemma {:induction false} FileAtIsListed(files: seq<File>, path: string)
    requires FileAt(files, path).Some?
    ensures !Hidden(path) && exists f :: f in files && f.path == path
  {
    hide Hidden;
    if files[0].path == path && !Hidden(path) {
      assert files[0] in files;
    } else {
      FileAtIsListed(files[1..], path);
    }
  }

  lemma StoredFiles(store: Kv, o: A.Id, s: string, u: Upload)
    ensures Serves(StoreSite(store, o, s, u), o, s, u.files)
  {
    hide StoreSite, FileKey, Hidden, FileAt, Published;
    forall f | f in u.files && !Hidden(f.path)
      ensures Get(StoreSite(store, o, s, u), FileKey(o, s, f.path)) == Some(Blob(f.data))
    {
      StoreSiteAt(store, o, s, u, FileKey(o, s, f.path));
      PublishedFile(o, s, u, f.path);
      FileIsAt(u.files, f);
    }
  }

  lemma UpdatedFilesOnly(store: Kv, o: A.Id, s: string, u: Upload)
    ensures ServesOnly(UpdateSite(store, o, s, u), o, s, u.files)
  {
    hide UpdateSite, FileKey, Hidden, FileAt;
    var after := UpdateSite(store, o, s, u);
    forall path | FileKey(o, s, path) in after
      ensures !Hidden(path) && exists f :: f in u.files && f.path == path
    {
      UpdatedFile(store, o, s, u, path);
      FileAtIsListed(u.files, path);
    }
  }

  lemma StoredDescription(store: Kv, o: A.Id, s: string, u: Upload)
    ensures Get(StoreSite(store, o, s, u), MetaKey(o, s)) ==
              Some(Meta(Info(o, s, u.description, Some("https://" + s + "-" + A.ToText(o) + "." + u.host), u.domain)))
  {
    hide StoreSite, MetaKey;
    StoreSiteAt(store, o, s, u, MetaKey(o, s));
    PublishedMeta(o, s, u);
  }

  /** An accepted deployment leaves the description asked for and serves the archive. */
  lemma DeployLeaves(t: Text, host: string, seen: Kv, store: Kv, sender: A.Id, args: Args)
    requires DeployWith(t, host, seen, store, sender, args).Ok?
    ensures var site := Transform(t, args.name);
            var after := StoreSite(store, sender, site, DeployWith(t, host, seen, store, sender, args).value);
            && Get(after, MetaKey(sender, site)) == Some(Meta(Described(t, host, sender, args)))
            && args.archive.Unpacked? && Serves(after, sender, site, args.archive.files)
  {
    hide StoreSite, MetaKey, Transform, Exists, InUse, Printable, DeployWith, Serves;
    DeployIff(t, host, seen, store, sender, args);
    var u := DeployWith(t, host, seen, store, sender, args).value;
    StoredDescription(store, sender, Transform(t, args.name), u);
    StoredFiles(store, sender, Transform(t, args.name), u);
  }

  /** An accepted update leaves the description asked for and serves the archive, and nothing else. */
  lemma UpdateLeaves(t: Text, host: string, seen: Kv, store: Kv, sender: A.Id, args: Args)
    requires UpdateWith(t, host, seen, store, sender, args).Ok?
    ensures var site := Transform(t, args.name);
            var after := UpdateSite(store, sender, site, UpdateWith(t, host, seen, store, sender, args).value);
            && Get(after, MetaKey(sender, site)) == Some(Meta(Described(t, host, sender, args)))
            && args.archive.Unpacked?
            && Serves(after, sender, site, args.archive.files)
            && ServesOnly(after, sender, site, args.archive.files)
  {
    hide StoreSite, RemoveSite, MetaKey, Transform, Exists, InUse, Printable, UpdateWith, Serves, ServesOnly;
    UpdateIff(t, host, seen, store, sender, args);
    var u := UpdateWith(t, host, seen, store, sender, args).value;
    StoredDescription(RemoveSite(store, sender, Transform(t, args.name)), sender, Transform(t, args.name), u);
    StoredFiles(RemoveSite(store, sender, Transform(t, args.name)), sender, Transform(t, args.name), u);
    UpdatedFilesOnly(store, sender, Transform(t, args.name), u);
  }

  /** The same, said of one step of a run: where it is refused, nothing changes. */
  lemma StepLeaves(t: Text, host: string, store: Kv, step: Step)
    requires step.DeployStep? || step.UpdateStep?
    ensures var site := Transform(t, step.args.name);
            var after := Next(t, host, store, step);
            var accepted :=
              if step.DeployStep? then Deploy(t, host, store, step.sender, step.args).Ok?
              else Update(t, host, store, step.sender, step.args).Ok?;
            if !accepted then after == store
            else
              && Get(after, MetaKey(step.sender, site)) == Some(Meta(Described(t, host, step.sender, step.args)))
              && step.args.archive.Unpacked?
              && Serves(after, step.sender, site, step.args.archive.files)
              && (step.UpdateStep? ==> ServesOnly(after, step.sender, site, step.args.archive.files))
  {
    hide StoreSite, UpdateSite, MetaKey, Transform, DeployWith, UpdateWith, Serves, ServesOnly, Described;
    if step.DeployStep? {
      if Deploy(t, host, store, step.sender, step.args).Ok? {
        DeployLeaves(t, host, store, store, step.sender, step.args);
      }
    } else if Update(t, host, store, step.sender, step.args).Ok? {
      UpdateLeaves(t, host, store, store, step.sender, step.args);
    }
  }

  /** A removal empties the site if the sender may name it, and changes no other key. */
  lemma RemoveLeaves(t: Text, host: string, store: Kv, sender: A.Id, owner: Option<A.Id>, name: string, k: string)
    ensures var site := Transform(t, name);
            Get(Next(t, host, store, RemoveStep(sender, owner, name)), k) ==
            if Mine(sender, owner) && (k == MetaKey(sender, site) || SiteKey(sender, site) <= k) then None
            else Get(store, k)
  {
    hide Transform, MetaKey, SiteKey, Mine, WrongOwner;
    OwnerIff(sender, owner);
  }

  lemma AnsweredDescription(t: Text, host: string, sender: A.Id, args: Args, u: Upload)
    requires u.host == host && u.description == args.description && u.domain == DomainOf(args.domain)
    ensures InfoOf(sender, Transform(t, args.name), u) == Described(t, host, sender, args)
  {
    hide Transform;
  }

  // -------------------------------------------------------------------------------------------
  // Site names
  // -------------------------------------------------------------------------------------------

  predicate AllSpace(t: Text, s: string) { forall i :: 0 <= i < |s| ==> t.space(s[i]) }

  /** The middle of a string, between white space and itself neither beginning nor ending with it. */
  predicate IsTrimmed(t: Text, s: string, before: string, middle: string, after: string) {
    && s == before + middle + after
    && AllSpace(t, before) && AllSpace(t, after)
    && (middle != "" ==> !t.space(middle[0]) && !t.space(middle[|middle| - 1]))
  }

  lemma {:induction false} TrimStartOf(t: Text, before: string, s: string)
    requires AllSpace(t, before) && (s != "" ==> !t.space(s[0]))
    ensures TrimStart(t, before + s) == s
  {
    if before == "" {
      assert before + s == s;
    } else {
      assert (before + s)[1..] == before[1..] + s;
      TrimStartOf(t, before[1..], s);
    }
  }

  lemma {:induction false} TrimEndOf(t: Text, s: string, after: string)
    requires AllSpace(t, after) && (s != "" ==> !t.space(s[|s| - 1]))
    ensures TrimEnd(t, s + after) == s
  {
    if after == "" {
      assert s + after == s;
    } else {
      var n := |after| - 1;
      assert (s + after)[..|s| + n] == s + after[..n];
      TrimEndOf(t, s, after[..n]);
    }
  }

  lemma {:induction false} UnderscoresAt(s: string)
    ensures |Underscores(s)| == |s|
    ensures forall i :: 0 <= i < |s| ==> Underscores(s)[i] == if s[i] == ' ' then '_' else s[i]
  {
    if s == "" {
    } else {
      UnderscoresAt(s[1..]);
    }
  }

  lemma {:induction false} Trimmed(t: Text, s: string) returns (before: string, middle: string, after: string)
    ensures IsTrimmed(t, s, before, middle, after)
  {
    if s == "" {
      return "", "", "";
    }
    if t.space(s[0]) {
      before, middle, after := Trimmed(t, s[1..]);
      assert s == [s[0]] + s[1..];
      assert [s[0]] + (before + middle + after) == ([s[0]] + before) + middle + after;
      before := [s[0]] + before;
    } else if t.space(s[|s| - 1]) {
      var n := |s| - 1;
      before, middle, after := Trimmed(t, s[..n]);
      assert s == s[..n] + [s[n]];
      assert (before + middle + after) + [s[n]] == before + middle + (after + [s[n]]);
      after := after + [s[n]];
    } else {
      assert s == "" + s + "";
      return "", s, "";
    }
  }

  /** The name of a site: the lower-case name without the white space around it, and underscores for blanks. */
  lemma SiteName(t: Text, name: string) returns (before: string, middle: string, after: string)
    ensures IsTrimmed(t, t.lower(name), before, middle, after)
    ensures |Transform(t, name)| == |middle|
    ensures forall i :: 0 <= i < |middle| ==> Transform(t, name)[i] == if middle[i] == ' ' then '_' else middle[i]
  {
    before, middle, after := Trimmed(t, t.lower(name));
    if middle == "" {
      assert before + middle + after == (before + after) + "";
      assert AllSpace(t, before + after);
      TrimStartOf(t, before + after, "");
    } else {
      assert before + middle + after == before + (middle + after);
      TrimStartOf(t, before, middle + after);
      TrimEndOf(t, middle, after);
    }
    UnderscoresAt(middle);
  }

  // -------------------------------------------------------------------------------------------
  // The module object
  // -------------------------------------------------------------------------------------------

  class WebModule {
    const storage: WebStorage
    const text: Text
    const host: string

    constructor (storage: WebStorage, text: Text, host: string)
      ensures this.storage == storage && this.text == text && this.host == host
    {
      this.storage, this.text, this.host := storage, text, host;
    }

    method DeploySite(sender: A.Id, args: Args) returns (r: Result<Info, Error>)
      modifies storage
      ensures storage.store == Next(text, host, old(storage.store), DeployStep(sender, args))
      ensures r == var d := Deploy(text, host, old(storage.store), sender, args);
                   if d.Ok? then Ok(InfoOf(sender, Transform(text, args.name), d.value)) else Err(d.error)
      ensures r.Ok? ==>
                && r.value == Described(text, host, sender, args)
                && Get(storage.store, MetaKey(sender, Transform(text, args.name))) == Some(Meta(r.value))
                && args.archive.Unpacked?
                && Serves(storage.store, sender, Transform(text, args.name), args.archive.files)
    {
      StepLeaves(text, host, storage.store, DeployStep(sender, args));
      hide Serves, ServesOnly, Described, StoreSite, InfoOf, Transform, Exists, DomainUsed, Prepare;
      if WrongOwner(sender, args.owner) {
        return Err(InvalidOwner);
      }
      var domain :- ParseDomain(args.domain);
      if text.size(args.name) > 12 {
        return Err(NameTooLong);
      }
      var site := Transform(text, args.name);
      var exists_ := storage.SiteExists(sender, site);
      if exists_ {
        return Err(ExistentSite);
      }
      if domain.Some? {
        var used := storage.HasDomain(domain.value);
        if used {
          return Err(DomainInUse);
        }
      }
      var files :- Prepare(text, site, args);
      var u := Upload(host, args.description, domain, files);
      AnsweredDescription(text, host, sender, args, u);
      storage.StoreWebsite(sender, site, u);
      return Ok(InfoOf(sender, site, u));
    }

    method UpdateExisting(sender: A.Id, args: Args) returns (r: Result<Info, Error>)
      modifies storage
      ensures storage.store == Next(text, host, old(storage.store), UpdateStep(sender, args))
      ensures r == var d := Update(text, host, old(storage.store), sender, args);
                   if d.Ok? then Ok(InfoOf(sender, Transform(text, args.name), d.value)) else Err(d.error)
      ensures r.Ok? ==>
                && r.value == Described(text, host, sender, args)
                && Get(storage.store, MetaKey(sender, Transform(text, args.name))) == Some(Meta(r.value))
                && args.archive.Unpacked?
                && Serves(storage.store, sender, Transform(text, args.name), args.archive.files)
                && ServesOnly(storage.store, sender, Transform(text, args.name), args.archive.files)
    {
      StepLeaves(text, host, storage.store, UpdateStep(sender, args));
      hide Serves, ServesOnly, Described, UpdateSite, InfoOf, Transform, DomainUsed, Prepare, MetaKey, FileKey;
      if WrongOwner(sender, args.owner) {
        return Err(InvalidOwner);
      }
      var domain :- ParseDomain(args.domain);
      if text.size(args.name) > 12 {
        return Err(NameTooLong);
      }
      var site := Transform(text, args.name);
      var exists_ := storage.SiteExists(sender, site);
      if !exists_ {
        return Err(NonexistentSite);
      }
      if domain.Some? {
        var meta := storage.store[MetaKey(sender, site)];
        if !meta.Meta? {
          return Err(BadMeta);
        }
        if meta.info.domain != domain {
          var used := storage.HasDomain(domain.value);
          if used {
            return Err(DomainInUse);
          }
        }
      }
      var files :- Prepare(text, site, args);
      var u := Upload(host, args.description, domain, files);
      AnsweredDescription(text, host, sender, args, u);
      storage.UpdateWebsite(sender, site, u);
      return Ok(InfoOf(sender, site, u));
    }

    method RemoveExisting(sender: A.Id, owner: Option<A.Id>, name: string) returns (r: Result<(), Error>)
      modifies storage
      ensures storage.store == Next(text, host, old(storage.store), RemoveStep(sender, owner, name))
      ensures r == if Mine(sender, owner) then Ok(()) else Err(InvalidOwner)
    {
      hide RemoveSite, Transform;
      OwnerIff(sender, owner);
      if WrongOwner(sender, owner) {
        return Err(InvalidOwner);
      }
      storage.RemoveWebsite(sender, Transform(text, name));
      return Ok(());
    }
  }
}
