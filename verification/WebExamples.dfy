/** Runs of the web commands from the empty store that end where a user would not expect. */
module WebExamples {
  import opened Wrappers
  import opened Store
  import opened WebFiles
  import opened WebCommands
  import A = Address
  import Keys

  /** A command that only what is already stored could keep from being accepted. */
  predicate Fine(t: Text, args: Args) {
    && args.owner.None? && args.domain.NoDomain? && t.size(args.name) <= 12
    && Prepare(t, Transform(t, args.name), args).Ok?
  }

  function UploadOf(t: Text, host: string, args: Args): Upload
    requires Fine(t, args)
  {
    Upload(host, args.description, None, Prepare(t, Transform(t, args.name), args).value)
  }

  lemma FineIsAccepted(t: Text, host: string, store: Kv, o: A.Id, args: Args)
    requires Fine(t, args) && !Exists(store, o, Transform(t, args.name))
    ensures Deploy(t, host, store, o, args) == Ok(UploadOf(t, host, args))
    ensures Next(t, host, store, DeployStep(o, args)) ==
            StoreSite(store, o, Transform(t, args.name), UploadOf(t, host, args))
  {
    hide Transform, Prepare, Exists, StoreSite;
  }

  lemma NothingExists(o: A.Id, s: string)
    ensures !Exists(map[], o, s)
  {
    hide MetaKey, FileKey;
  }

  lemma RunTwo(t: Text, host: string, store: Kv, a: Step, b: Step)
    ensures Run(t, host, store, [a, b]) == Next(t, host, Next(t, host, store, a), b)
  {
    hide Next;
    assert [a, b][0] == a && [a, b][1..] == [b] && [b][1..] == [];
    var next := Next(t, host, store, a);
    assert Run(t, host, next, [b]) == Next(t, host, next, b);
  }

  lemma RunThree(t: Text, host: string, store: Kv, a: Step, b: Step, c: Step)
    ensures Run(t, host, store, [a, b, c]) == Next(t, host, Run(t, host, store, [a, b]), c)
  {
    hide Next;
    RunTwo(t, host, store, a, b);
    RunTwo(t, host, Next(t, host, store, a), b, c);
    assert [a, b, c][1..] == [b, c];
  }

  // -------------------------------------------------------------------------------------------
  // A site inside another
  // -------------------------------------------------------------------------------------------

  lemma InnerMeta(o: A.Id, s: string, x: string)
    ensures MetaKey(o, s + "/" + x) != MetaKey(o, s)
  {
    hide Keys.Under;
    Keys.UnderInjective("/meta/", o, s, o, s + "/" + x);
  }

  lemma InnerFiles(o: A.Id, s: string, x: string, path: string)
    ensures SiteKey(o, s) <= FileKey(o, s + "/" + x, path)
  {
    var inner := s + "/" + x;
    hide Keys.Under;
    assert inner + "/" == (s + "/") + (x + "/");
    Keys.UnderPrefix("/http/", o, s + "/", o, inner + "/");
    assert SiteKey(o, s) <= SiteKey(o, inner);
    hide SiteKey;
    var k := FileKey(o, inner, path);
    assert k[..|SiteKey(o, s)|] == SiteKey(o, inner)[..|SiteKey(o, s)|] == SiteKey(o, s);
  }

  lemma InnerIsNew(o: A.Id, s: string, x: string, u: Upload)
    ensures !Exists(StoreSite(map[], o, s, u), o, s + "/" + x)
  {
    var k := MetaKey(o, s + "/" + x);
    InnerMeta(o, s, x);
    StoreSiteAt(map[], o, s, u, k);
    hide StoreSite, SiteKey, MetaKey;
    if SiteKey(o, s) <= k {
      FilesApartFromMeta(o, s, o, s + "/" + x, k);
    }
  }

  /**
   * Deploying a site, deploying another whose name continues the first after a slash, and removing
   * the first loses every file of the second, while its description stays.
   */
  lemma InnerSiteLost(t: Text, host: string, o: A.Id, outer: Args, inner: Args, x: string, path: string)
    requires Fine(t, outer) && Fine(t, inner) && Transform(t, inner.name) == Transform(t, outer.name) + "/" + x
    requires FileAt(UploadOf(t, host, inner).files, path).Some?
    ensures var s := Transform(t, inner.name);
            var before := Run(t, host, map[], [DeployStep(o, outer), DeployStep(o, inner)]);
            var after := Run(t, host, map[], [DeployStep(o, outer), DeployStep(o, inner), RemoveStep(o, None,
              outer.name)]);
            && Get(before, FileKey(o, s, path)) == Some(Blob(FileAt(UploadOf(t, host, inner).files, path).value))
            && Get(after, FileKey(o, s, path)) == None
            && MetaKey(o, s) in before && MetaKey(o, s) in after
  {
    var s, inside := Transform(t, outer.name), Transform(t, inner.name);
    var u, v := UploadOf(t, host, outer), UploadOf(t, host, inner);
    hide Fine, Transform, UploadOf, Exists, StoreSite, FileAt, Run;
    NothingExists(o, s);
    FineIsAccepted(t, host, map[], o, outer);
    var one := StoreSite(map[], o, s, u);
    InnerIsNew(o, s, x, u);
    FineIsAccepted(t, host, one, o, inner);
    RunTwo(t, host, map[], DeployStep(o, outer), DeployStep(o, inner));
    RunThree(t, host, map[], DeployStep(o, outer), DeployStep(o, inner), RemoveStep(o, None, outer.name));
    AfterInner(one, o, s, x, v, path);
  }

  lemma AfterInner(one: Kv, o: A.Id, s: string, x: string, v: Upload, path: string)
    ensures var inside := s + "/" + x;
            var two := StoreSite(one, o, inside, v);
            && (FileAt(v.files, path).Some? ==>
              Get(two, FileKey(o, inside, path)) == Some(Blob(FileAt(v.files, path).value)))
            && Get(RemoveSite(two, o, s), FileKey(o, inside, path)) == None
            && MetaKey(o, inside) in two && MetaKey(o, inside) in RemoveSite(two, o, s)
  {
    var inside := s + "/" + x;
    InnerFiles(o, s, x, path);
    InnerMeta(o, s, x);
    StoreSiteAt(one, o, inside, v, FileKey(o, inside, path));
    StoreSiteAt(one, o, inside, v, MetaKey(o, inside));
    PublishedFile(o, inside, v, path);
    PublishedMeta(o, inside, v);
    hide StoreSite, SiteKey, MetaKey, FileKey, Published, FileAt;
    if SiteKey(o, s) <= MetaKey(o, inside) {
      FilesApartFromMeta(o, s, o, inside, MetaKey(o, inside));
    }
  }

  // -------------------------------------------------------------------------------------------
  // A directory called index.html
  // -------------------------------------------------------------------------------------------

  /**
   * A deployment whose archive has `index.html` as a directory is accepted, and the site does not
   * exist. The next deployment of that name is accepted too, and goes on serving the first one's
   * files wherever it has none of its own.
   */
  lemma StaleFileServed(t: Text, host: string, o: A.Id, first: Args, second: Args, path: string)
    requires Fine(t, first) && Fine(t, second) && Transform(t, second.name) == Transform(t, first.name)
    requires FileAt(UploadOf(t, host, first).files, "index.html").None?
    requires FileAt(UploadOf(t, host, first).files, path).Some? && FileAt(UploadOf(t, host, second).files, path).None?
    ensures var s := Transform(t, first.name);
            var one := Run(t, host, map[], [DeployStep(o, first)]);
            var two := Run(t, host, map[], [DeployStep(o, first), DeployStep(o, second)]);
            && Deploy(t, host, map[], o, first).Ok? && !Exists(one, o, s)
            && Deploy(t, host, one, o, second).Ok?
            && Get(two, FileKey(o, s, path)) == Some(Blob(FileAt(UploadOf(t, host, first).files, path).value))
  {
    var s := Transform(t, first.name);
    var u, v := UploadOf(t, host, first), UploadOf(t, host, second);
    hide Fine, Transform, UploadOf, Exists, StoreSite, FileAt, Deploy, Next, FileKey;
    NothingExists(o, s);
    FineIsAccepted(t, host, map[], o, first);
    var one := StoreSite(map[], o, s, u);
    assert [DeployStep(o, first)][1..] == [];
    StoredExists(map[], o, s, u);
    FineIsAccepted(t, host, one, o, second);
    RunTwo(t, host, map[], DeployStep(o, first), DeployStep(o, second));
    StoreSiteAt(map[], o, s, u, FileKey(o, s, path));
    StoreSiteAt(one, o, s, v, FileKey(o, s, path));
    PublishedFile(o, s, u, path);
    PublishedFile(o, s, v, path);
  }

  // -------------------------------------------------------------------------------------------
  // Both, spelled out
  // -------------------------------------------------------------------------------------------

  /** Tables that know lower-case letters and the space. */
  function Ascii(): Text { Text(s => s, c => c == ' ', c => 'a' <= c <= 'z', s => |s|) }

  lemma {:induction false} NoSpaces(s: string)
    requires ' ' !in s
    ensures Underscores(s) == s
  {
    if s == "" {
    } else {
      NoSpaces(s[1..]);
    }
  }

  lemma NameKept(s: string)
    requires ' ' !in s
    ensures Transform(Ascii(), s) == s
  {
    NoSpaces(s);
    if s != "" {
      assert s[0] in s && s[|s| - 1] in s;
    }
  }

  function ArgsFor(name: string, files: Tree, directories: set<string>): Args {
    Args(None, name, None, Unpacked(files, directories), NoDomain)
  }

  lemma ArgsAreFine(name: string, files: Tree, directories: set<string>)
    requires |name| <= 12 && forall i :: 0 <= i < |name| ==> '!' <= name[i] <= '~'
    requires "index.html" in directories || exists i :: 0 <= i < |files| && files[i].path == "index.html"
    ensures Fine(Ascii(), ArgsFor(name, files, directories))
    ensures Transform(Ascii(), name) == name
    ensures forall host :: UploadOf(Ascii(), host, ArgsFor(name, files, directories)).files == files
  {
    NameKept(name);
    hide Transform;
  }

  /** Removing "a" empties "a/b". */
  lemma SlashInName(host: string, o: A.Id)
    ensures var page: Tree := [File("index.html", [1])];
            var a, b := DeployStep(o, ArgsFor("a", page, {})), DeployStep(o, ArgsFor("a/b", page, {}));
            var before := Run(Ascii(), host, map[], [a, b]);
            var after := Run(Ascii(), host, map[], [a, b, RemoveStep(o, None, "a")]);
            Exists(before, o, "a/b") && !Exists(after, o, "a/b") && MetaKey(o, "a/b") in after
  {
    var page: Tree := [File("index.html", [1])];
    assert page[0].path == "index.html";
    ArgsAreFine("a", page, {});
    ArgsAreFine("a/b", page, {});
    Listed(page, 0);
    assert "a" + "/" + "b" == "a/b";
    hide Fine, Run, UploadOf, MetaKey, FileKey, FileAt, Transform;
    InnerSiteLost(Ascii(), host, o, ArgsFor("a", page, {}), ArgsFor("a/b", page, {}), "b", "index.html");
  }

  /** A page of the deployment that never existed is served by the next. */
  lemma IndexIsDirectory(host: string, o: A.Id)
    ensures var odd: Tree := [File("page", [1])];
            var good: Tree := [File("index.html", [2])];
            var a, b := ArgsFor("a", odd, {"index.html"}), ArgsFor("a", good, {});
            var one := Run(Ascii(), host, map[], [DeployStep(o, a)]);
            var two := Run(Ascii(), host, map[], [DeployStep(o, a), DeployStep(o, b)]);
            && Deploy(Ascii(), host, map[], o, a).Ok? && !Exists(one, o, "a")
            && Deploy(Ascii(), host, one, o, b).Ok? && Get(two, FileKey(o, "a", "page")) == Some(Blob([1]))
  {
    var odd: Tree := [File("page", [1])];
    var good: Tree := [File("index.html", [2])];
    assert good[0].path == "index.html";
    ArgsAreFine("a", odd, {"index.html"});
    ArgsAreFine("a", good, {});
    assert "page"[0] != "index.html"[0];
    Missing(odd, "index.html");
    Missing(good, "page");
    PageIsThere(odd);
    hide Fine, Run, UploadOf, FileKey, FileAt, Deploy, Exists, Transform;
    StaleFileServed(Ascii(), host, o, ArgsFor("a", odd, {"index.html"}), ArgsFor("a", good, {}), "page");
  }

  lemma PageIsThere(files: seq<File>)
    requires files == [File("page", [1])]
    ensures FileAt(files, "page") == Some([1])
  {
    var p := "page";
    assert forall i :: 0 <= i < |p| ==> p[i] != '.';
  }
}
