/**
 * Websites in the store: every file of a site under the site's prefix, and the site's
 * description under the metadata root.
 */
module WebFiles {
  import opened Wrappers
  import opened Bytes
  import opened Store
  import A = Address
  import Keys
  import Lex

  datatype Info = Info(owner: A.Id, name: string, description: Option<string>, url: Option<string>,
                       domain: Option<string>)

  datatype Value = Blob(data: Bytes) | Meta(info: Info)

  type Kv = map<string, Value>

  datatype File = File(path: string, data: Bytes)

  /** A directory walk meets each path once. */
  predicate DistinctPaths(files: seq<File>) {
    forall i, j :: 0 <= i < j < |files| ==> files[i].path != files[j].path
  }

  type Tree = files: seq<File> | DistinctPaths(files)

  /** What is published: the files of the unpacked directory and the words that go with them. */
  datatype Upload = Upload(host: string, description: Option<string>, domain: Option<string>, files: Tree)

  /** Some component of the path begins with a dot. */
  predicate Hidden(path: string) {
    exists i :: 0 <= i < |path| && path[i] == '.' && (i == 0 || path[i - 1] == '/')
  }

  /** The components of a path, between its slashes. */
  function Components(path: string): (cs: seq<string>)
    ensures cs != []
  {
    if path == "" then [""]
    else
      var rest := Components(path[1..]);
      if path[0] == '/' then [""] + rest else [[path[0]] + rest[0]] + rest[1..]
  }

  predicate Dotted(component: string) { component != "" && component[0] == '.' }

  predicate DotAfterSlash(path: string) {
    exists i :: 0 < i < |path| && path[i] == '.' && path[i - 1] == '/'
  }

  lemma DotAfterSlashUnfolded(path: string)
    requires path != ""
    ensures DotAfterSlash(path) <==> DotAfterSlash(path[1..]) || (path[0] == '/' && Dotted(path[1..]))
  {
    if DotAfterSlash(path[1..]) {
      var i :| 0 < i < |path[1..]| && path[1..][i] == '.' && path[1..][i - 1] == '/';
      assert path[i + 1] == '.' && path[i + 1 - 1] == '/';
    }
    if path[0] == '/' && Dotted(path[1..]) {
      assert path[1] == '.' && path[1 - 1] == '/';
    }
    if DotAfterSlash(path) {
      var i :| 0 < i < |path| && path[i] == '.' && path[i - 1] == '/';
      if i > 1 {
        assert path[1..][i - 1] == '.' && path[1..][i - 1 - 1] == '/';
      }
    }
  }

  lemma {:induction false} LaterComponents(path: string)
    ensures Dotted(Components(path)[0]) <==> Dotted(path)
    ensures (exists i :: 0 < i < |Components(path)| && Dotted(Components(path)[i])) <==> DotAfterSlash(path)
  {
    if path == "" {
    } else {
      hide DotAfterSlash;
      DotAfterSlashUnfolded(path);
      LaterComponents(path[1..]);
      var rest, all := Components(path[1..]), Components(path);
      if path[0] == '/' {
        assert forall i :: 0 <= i < |rest| ==> all[i + 1] == rest[i];
        if exists i :: 0 < i < |all| && Dotted(all[i]) {
          var i :| 0 < i < |all| && Dotted(all[i]);
          assert Dotted(rest[i - 1]);
        }
        if Dotted(rest[0]) {
          assert Dotted(all[1]);
        }
        if exists i :: 0 < i < |rest| && Dotted(rest[i]) {
          var i :| 0 < i < |rest| && Dotted(rest[i]);
          assert Dotted(all[i + 1]);
        }
      } else {
        assert |all| == |rest| && forall i :: 0 < i < |rest| ==> all[i] == rest[i];
      }
    }
  }

  /** A path is hidden just when one of its components begins with a dot. */
  lemma HiddenIff(path: string)
    ensures Hidden(path) <==> exists i :: 0 <= i < |Components(path)| && Dotted(Components(path)[i])
  {
    hide Components;
    LaterComponents(path);
    assert Hidden(path) <==> Dotted(path) || DotAfterSlash(path);
  }

  function SiteKey(o: A.Id, s: string): string { Keys.Under("/http/", o, s + "/") }

  function FileKey(o: A.Id, s: string, path: string): string { SiteKey(o, s) + path }

  function MetaKey(o: A.Id, s: string): string { Keys.Under("/meta/", o, s) }

  function Url(host: string, o: A.Id, s: string): string {
    "https://" + s + "-" + A.ToText(o) + "." + host
  }

  predicate InSite(o: A.Id, s: string, k: string) { k == MetaKey(o, s) || SiteKey(o, s) <= k }

  function InfoOf(o: A.Id, s: string, u: Upload): Info {
    Info(o, s, u.description, Some(Url(u.host, o, s)), u.domain)
  }

  /** The file a path names among those that are not hidden. */
  function FileAt(files: seq<File>, path: string): Option<Bytes> {
    if files == [] then None
    else if files[0].path == path && !Hidden(path) then Some(files[0].data)
    else FileAt(files[1..], path)
  }

  // -------------------------------------------------------------------------------------------
  // Batches
  // -------------------------------------------------------------------------------------------

  function FileEntry(o: A.Id, s: string, f: File): seq<Entry<Value>> {
    if Hidden(f.path) then [] else [Entry(FileKey(o, s, f.path), Put(Blob(f.data)))]
  }

  function FileEntries(o: A.Id, s: string, files: seq<File>): seq<Entry<Value>> {
    if files == [] then [] else FileEntry(o, s, files[0]) + FileEntries(o, s, files[1..])
  }

  function SiteEntries(o: A.Id, s: string, u: Upload): seq<Entry<Value>> {
    FileEntries(o, s, u.files) + [Entry(MetaKey(o, s), Put(Meta(InfoOf(o, s, u))))]
  }

  /** What publishing an upload puts at a key. */
  function Published(o: A.Id, s: string, u: Upload, k: string): Option<Value> {
    if k == MetaKey(o, s) then Some(Meta(InfoOf(o, s, u)))
    else if SiteKey(o, s) <= k then
      var f := FileAt(u.files, k[|SiteKey(o, s)|..]);
      if f.Some? then Some(Blob(f.value)) else None
    else None
  }

  lemma FilesApartFromMeta(o: A.Id, s: string, p: A.Id, t: string, k: string)
    requires SiteKey(o, s) <= k
    ensures k != MetaKey(p, t)
  {
    var body := A.ToText(o) + ("/" + (s + "/"));
    assert SiteKey(o, s) == "/http/" + body;
    assert k[1] == SiteKey(o, s)[1] == 'h';
    var tail := A.ToText(p) + ("/" + t);
    assert MetaKey(p, t) == "/meta/" + tail;
    assert MetaKey(p, t)[1] == 'm';
  }

  lemma FileKeyParts(o: A.Id, s: string, path: string, k: string)
    ensures k == FileKey(o, s, path) <==> SiteKey(o, s) <= k && k[|SiteKey(o, s)|..] == path
  {
    hide SiteKey;
    if SiteKey(o, s) <= k {
      assert k == SiteKey(o, s) + k[|SiteKey(o, s)|..];
    }
    assert FileKey(o, s, path)[|SiteKey(o, s)|..] == path;
  }

  lemma {:induction false} FileEntriesFirst(o: A.Id, s: string, files: seq<File>, k: string)
    ensures First(FileEntries(o, s, files), k) ==
            if SiteKey(o, s) <= k then
              var f := FileAt(files, k[|SiteKey(o, s)|..]);
              if f.Some? then Some(Put(Blob(f.value))) else None
            else None
  {
    hide SiteKey, FileKey, Hidden;
    if files == [] {
    } else {
      FileEntriesFirst(o, s, files[1..], k);
      FileKeyParts(o, s, files[0].path, k);
      FirstConcat(FileEntry(o, s, files[0]), FileEntries(o, s, files[1..]), k);
    }
  }

  lemma SiteEntriesFirst(o: A.Id, s: string, u: Upload, k: string)
    ensures First(SiteEntries(o, s, u), k) ==
            var v := Published(o, s, u, k); if v.Some? then Some(Put(v.value)) else None
  {
    hide SiteKey, MetaKey, FileEntries, FileAt, InfoOf;
    FileEntriesFirst(o, s, u.files, k);
    FirstConcat(FileEntries(o, s, u.files), [Entry(MetaKey(o, s), Put(Meta(InfoOf(o, s, u))))], k);
    if SiteKey(o, s) <= k {
      FilesApartFromMeta(o, s, o, s, k);
    }
  }

  lemma KeyIsNew(o: A.Id, s: string, files: seq<File>, path: string)
    requires forall i :: 0 <= i < |files| ==> files[i].path != path
    ensures forall i :: 0 <= i < |FileEntries(o, s, files)| ==> FileEntries(o, s, files)[i].key != FileKey(o, s, path)
  {
    hide SiteKey, FileKey, Hidden, FileAt, FileEntries, First;
    var key := FileKey(o, s, path);
    FileKeyParts(o, s, path, key);
    FileEntriesFirst(o, s, files, key);
    Missing(files, path);
    FirstIsNone(FileEntries(o, s, files), key);
  }

  lemma {:induction false} FileEntriesDistinct(o: A.Id, s: string, files: seq<File>)
    requires DistinctPaths(files)
    ensures Distinct(FileEntries(o, s, files))
  {
    hide SiteKey, FileKey, Hidden, Distinct;
    if files == [] {
      NoneDistinct();
    } else {
      var rest := FileEntries(o, s, files[1..]);
      FileEntriesDistinct(o, s, files[1..]);
      KeyIsNew(o, s, files[1..], files[0].path);
      hide DistinctPaths;
      assert [] + rest == rest;
      ConsDistinct(Entry(FileKey(o, s, files[0].path), Put(Blob(files[0].data))), rest);
    }
  }

  lemma NoneDistinct()
    ensures Distinct<Value>([])
  {
  }

  lemma {:induction false} Missing(files: seq<File>, path: string)
    requires forall i :: 0 <= i < |files| ==> files[i].path != path
    ensures FileAt(files, path) == None
  {
    if files == [] {
    } else {
      Missing(files[1..], path);
    }
  }

  lemma SiteEntriesDistinct(o: A.Id, s: string, u: Upload)
    ensures Distinct(SiteEntries(o, s, u))
  {
    hide SiteKey, MetaKey, FileEntries, InfoOf, FileAt;
    FileEntriesDistinct(o, s, u.files);
    FileEntriesFirst(o, s, u.files, MetaKey(o, s));
    if SiteKey(o, s) <= MetaKey(o, s) {
      FilesApartFromMeta(o, s, o, s, MetaKey(o, s));
    }
    FirstIsNone(FileEntries(o, s, u.files), MetaKey(o, s));
  }

  // -------------------------------------------------------------------------------------------
  // Effects on the store
  // -------------------------------------------------------------------------------------------

  function StoreSite(store: Kv, o: A.Id, s: string, u: Upload): Kv {
    Apply(store, SiteEntries(o, s, u))
  }

  function RemoveSite(store: Kv, o: A.Id, s: string): Kv {
    map k | k in store && !InSite(o, s, k) :: store[k]
  }

  function UpdateSite(store: Kv, o: A.Id, s: string, u: Upload): Kv {
    StoreSite(RemoveSite(store, o, s), o, s, u)
  }

  predicate Exists(store: Kv, o: A.Id, s: string) {
    MetaKey(o, s) in store && FileKey(o, s, "index.html") in store
  }

  predicate UsesAt(store: Kv, k: string, d: string) {
    k in store && "/meta" <= k && store[k].Meta? && store[k].info.domain == Some(d)
  }

  predicate DomainUsed(store: Kv, d: string) {
    exists k :: k in store && UsesAt(store, k, d)
  }

  /** Storing a site sets what it publishes and leaves every other key. */
  lemma StoreSiteAt(store: Kv, o: A.Id, s: string, u: Upload, k: string)
    ensures Get(StoreSite(store, o, s, u), k) ==
            var v := Published(o, s, u, k); if v.Some? then v else Get(store, k)
  {
    hide Published, SiteEntries, Apply, First;
    SiteEntriesDistinct(o, s, u);
    SiteEntriesFirst(o, s, u, k);
    ApplyDistinct(store, SiteEntries(o, s, u), k);
  }

  /** Everything published is in the site. */
  lemma PublishedInSite(o: A.Id, s: string, u: Upload, k: string)
    requires Published(o, s, u, k).Some?
    ensures InSite(o, s, k)
  {
    hide MetaKey, SiteKey;
  }

  /** After an update the site holds exactly the upload, and no other key has changed. */
  lemma UpdateSiteAt(store: Kv, o: A.Id, s: string, u: Upload, k: string)
    ensures Get(UpdateSite(store, o, s, u), k) ==
            if InSite(o, s, k) then Published(o, s, u, k) else Get(store, k)
  {
    hide InSite, Published, StoreSite;
    StoreSiteAt(RemoveSite(store, o, s), o, s, u, k);
    if Published(o, s, u, k).Some? {
      PublishedInSite(o, s, u, k);
    }
  }

  lemma PublishedFile(o: A.Id, s: string, u: Upload, path: string)
    ensures Published(o, s, u, FileKey(o, s, path)) ==
            var f := FileAt(u.files, path); if f.Some? then Some(Blob(f.value)) else None
  {
    hide SiteKey, MetaKey;
    FileKeyParts(o, s, path, FileKey(o, s, path));
    FilesApartFromMeta(o, s, o, s, FileKey(o, s, path));
  }

  /** Reading a path of an updated site gives the uploaded file, and nothing where there is none. */
  lemma UpdatedFile(store: Kv, o: A.Id, s: string, u: Upload, path: string)
    ensures Get(UpdateSite(store, o, s, u), FileKey(o, s, path)) ==
            var f := FileAt(u.files, path); if f.Some? then Some(Blob(f.value)) else None
  {
    hide Published, UpdateSite, FileAt, SiteKey;
    UpdateSiteAt(store, o, s, u, FileKey(o, s, path));
    PublishedFile(o, s, u, path);
    FileKeyParts(o, s, path, FileKey(o, s, path));
  }

  /** A first deployment serves exactly the upload just when no file outside it was left over. */
  lemma DeployedExactlyIff(store: Kv, o: A.Id, s: string, u: Upload)
    ensures (forall k :: InSite(o, s, k) ==> Get(StoreSite(store, o, s, u), k) == Published(o, s, u, k)) <==>
            (forall k :: k in store && InSite(o, s, k) ==> Published(o, s, u, k).Some?)
  {
    hide Published, InSite, StoreSite;
    forall k ensures Get(StoreSite(store, o, s, u), k) ==
                     var v := Published(o, s, u, k); if v.Some? then v else Get(store, k) {
      StoreSiteAt(store, o, s, u, k);
    }
  }

  /**
   * Whether a site exists once it is stored: just when the root of the upload, or of what was
   * there before, holds a file `index.html`. A directory of that name is not enough.
   */
  lemma StoredExists(store: Kv, o: A.Id, s: string, u: Upload)
    ensures Exists(StoreSite(store, o, s, u), o, s) <==>
            FileAt(u.files, "index.html").Some? || FileKey(o, s, "index.html") in store
    ensures Exists(UpdateSite(store, o, s, u), o, s) <==> FileAt(u.files, "index.html").Some?
    ensures !Exists(RemoveSite(store, o, s), o, s)
  {
    hide FileAt, StoreSite, FileKey, MetaKey, InSite;
    var k, m := FileKey(o, s, "index.html"), MetaKey(o, s);
    PublishedFile(o, s, u, "index.html");
    PublishedMeta(o, s, u);
    StoreSiteAt(store, o, s, u, k);
    StoreSiteAt(store, o, s, u, m);
    UpdateSiteAt(store, o, s, u, k);
    UpdateSiteAt(store, o, s, u, m);
    SiteHolds(o, s, "index.html");
  }

  lemma PublishedMeta(o: A.Id, s: string, u: Upload)
    ensures Published(o, s, u, MetaKey(o, s)) == Some(Meta(InfoOf(o, s, u)))
  {
    hide MetaKey;
  }

  lemma SiteHolds(o: A.Id, s: string, path: string)
    ensures InSite(o, s, FileKey(o, s, path)) && InSite(o, s, MetaKey(o, s))
  {
    hide MetaKey, SiteKey;
  }

  // -------------------------------------------------------------------------------------------
  // Isolation
  // -------------------------------------------------------------------------------------------

  /** One name continues the other after a slash. */
  predicate Nested(s: string, t: string) { s + "/" <= t + "/" || t + "/" <= s + "/" }

  lemma {:induction false} Comparable(a: string, b: string, k: string)
    requires a <= k && b <= k
    ensures a <= b || b <= a
  {
    assert a == k[..|a|] && b == k[..|b|];
    if |a| <= |b| {
      assert a == b[..|a|];
    } else {
      assert b == a[..|b|];
    }
  }

  /** Two sites share a possible key just when one owner named them one inside the other. */
  lemma SharedKeyIff(o: A.Id, s: string, p: A.Id, t: string)
    ensures (exists k :: InSite(o, s, k) && InSite(p, t, k)) <==> o == p && Nested(s, t)
  {
    var a, b := SiteKey(o, s), SiteKey(p, t);
    Keys.UnderPrefix("/http/", o, s + "/", p, t + "/");
    Keys.UnderPrefix("/http/", p, t + "/", o, s + "/");
    Keys.UnderInjective("/meta/", o, s, p, t);
    assert (a <= b || b <= a) <==> o == p && Nested(s, t);
    SharedKeyCases(o, s, p, t);
  }

  lemma SharedKeyCases(o: A.Id, s: string, p: A.Id, t: string)
    requires MetaKey(o, s) == MetaKey(p, t) ==> o == p && s == t
    ensures (exists k :: InSite(o, s, k) && InSite(p, t, k)) <==>
            SiteKey(o, s) <= SiteKey(p, t) || SiteKey(p, t) <= SiteKey(o, s)
  {
    hide SiteKey, MetaKey;
    var a, b := SiteKey(o, s), SiteKey(p, t);
    forall k | InSite(o, s, k) && InSite(p, t, k) ensures a <= b || b <= a {
      if a <= k && b <= k {
        Comparable(a, b, k);
      } else if a <= k {
        FilesApartFromMeta(o, s, p, t, k);
      } else if b <= k {
        FilesApartFromMeta(p, t, o, s, k);
      }
    }
    if a <= b {
      assert InSite(o, s, b) && InSite(p, t, b);
    }
    if b <= a {
      assert InSite(o, s, a) && InSite(p, t, a);
    }
  }

  /** Whether every key of one site keeps its value when the other is removed, in every store. */
  ghost predicate Untouched(o: A.Id, s: string, p: A.Id, t: string) {
    forall store: Kv, k :: InSite(p, t, k) ==> Get(RemoveSite(store, o, s), k) == Get(store, k)
  }

  /**
   * Isolation. Removing a site leaves another site whole in every store just when the owners
   * differ or neither name continues the other after a slash.
   */
  lemma IsolationIff(o: A.Id, s: string, p: A.Id, t: string)
    ensures Untouched(o, s, p, t) <==> !(o == p && Nested(s, t))
  {
    hide InSite, Nested;
    SharedKeyIff(o, s, p, t);
    if exists k :: InSite(o, s, k) && InSite(p, t, k) {
      var k :| InSite(o, s, k) && InSite(p, t, k);
      var store: Kv := map[k := Blob([])];
      assert Get(store, k) == Some(Blob([])) && Get(RemoveSite(store, o, s), k) == None;
    }
  }

  ghost predicate UntouchedByUpdate(o: A.Id, s: string, p: A.Id, t: string) {
    forall store: Kv, u: Upload, k :: InSite(p, t, k) ==> Get(UpdateSite(store, o, s, u), k) == Get(store, k)
  }

  /** The same for an update, whatever is uploaded. */
  lemma UpdateIsolationIff(o: A.Id, s: string, p: A.Id, t: string)
    ensures UntouchedByUpdate(o, s, p, t) <==> !(o == p && Nested(s, t))
  {
    hide InSite, Nested, UpdateSite, Published;
    SharedKeyIff(o, s, p, t);
    if exists k :: InSite(o, s, k) && InSite(p, t, k) {
      var k :| InSite(o, s, k) && InSite(p, t, k);
      var u := Upload("", None, None, []);
      var store: Kv := if Published(o, s, u, k).Some? then map[] else map[k := Blob([])];
      UpdateSiteAt(store, o, s, u, k);
      assert Get(UpdateSite(store, o, s, u), k) != Get(store, k);
    } else {
      forall store: Kv, u: Upload, k | InSite(p, t, k) ensures Get(UpdateSite(store, o, s, u), k) == Get(store, k) {
        UpdateSiteAt(store, o, s, u, k);
      }
    }
  }

  // A deployment skips hidden paths, so it can reach into a site inside its own only where the rest
  // of that site's name is not hidden.

  ghost predicate UntouchedByDeploy(o: A.Id, s: string, p: A.Id, t: string) {
    forall store: Kv, u: Upload, k :: InSite(p, t, k) ==> Get(StoreSite(store, o, s, u), k) == Get(store, k)
  }

  /** The second site holds the first, or is inside it at a path that is not hidden. */
  predicate Reaches(s: string, t: string) {
    t + "/" <= s + "/" || (s + "/" <= t + "/" && !Hidden((t + "/")[|s| + 1..]))
  }

  lemma HiddenBeyond(path: string, more: string)
    ensures Hidden(path) ==> Hidden(path + more)
  {
    if Hidden(path) {
      var i :| 0 <= i < |path| && path[i] == '.' && (i == 0 || path[i - 1] == '/');
      assert (path + more)[i] == '.' && (i == 0 || (path + more)[i - 1] == '/');
    }
  }

  lemma HiddenBefore(path: string)
    ensures Hidden(path + "x") <==> Hidden(path)
  {
    HiddenBeyond(path, "x");
    var longer := path + "x";
    if Hidden(longer) {
      var i :| 0 <= i < |longer| && longer[i] == '.' && (i == 0 || longer[i - 1] == '/');
      assert i < |path| && path[i] == '.' && (i == 0 || path[i - 1] == '/');
    }
  }

  /** Whether some upload publishes something at a key of the other site. */
  ghost predicate Publishes(o: A.Id, s: string, p: A.Id, t: string) {
    exists u: Upload, k :: InSite(p, t, k) && Published(o, s, u, k).Some?
  }

  lemma DeployTouchesIff(o: A.Id, s: string, p: A.Id, t: string)
    ensures UntouchedByDeploy(o, s, p, t) <==> !Publishes(o, s, p, t)
  {
    hide InSite, Published, StoreSite;
    if Publishes(o, s, p, t) {
      var u: Upload, k :| InSite(p, t, k) && Published(o, s, u, k).Some?;
      var v := Published(o, s, u, k).value;
      var store: Kv := map[];
      StoreSiteAt(store, o, s, u, k);
      assert Get(StoreSite(store, o, s, u), k) != Get(store, k);
    } else {
      forall store: Kv, u: Upload, k | InSite(p, t, k) ensures Get(StoreSite(store, o, s, u), k) == Get(store, k) {
        StoreSiteAt(store, o, s, u, k);
      }
    }
  }

  lemma OnePage(path: string)
    requires !Hidden(path)
    ensures FileAt([File(path, [])], path) == Some([])
  {
    hide Hidden;
  }

  /** What is published under a hidden path is nothing. */
  lemma {:induction false} NoHiddenFile(files: seq<File>, path: string)
    requires Hidden(path)
    ensures FileAt(files, path) == None
  {
    hide Hidden;
    if files == [] {
    } else {
      NoHiddenFile(files[1..], path);
    }
  }

  lemma PublishesInside(o: A.Id, s: string, t: string)
    requires Reaches(s, t)
    ensures Publishes(o, s, o, t)
  {
    var a, b := SiteKey(o, s), SiteKey(o, t);
    Keys.UnderPrefix("/http/", o, s + "/", o, t + "/");
    Keys.UnderPrefix("/http/", o, t + "/", o, s + "/");
    if t + "/" <= s + "/" {
      NotHiddenX();
      PageIn(o, s, t, "x");
    } else {
      var rest := (t + "/")[|s| + 1..];
      HiddenBefore(rest);
      InnerKey(o, s, t, rest);
      PageIn(o, s, t, rest + "x");
    }
  }

  lemma NotHiddenX()
    ensures !Hidden("x")
  {
    assert "x"[0] != '.';
  }

  /** Where the names continue each other, so do the keys. */
  lemma InnerKey(o: A.Id, s: string, t: string, rest: string)
    requires s + "/" <= t + "/" && rest == (t + "/")[|s| + 1..]
    ensures FileKey(o, s, rest) == SiteKey(o, t)
    ensures SiteKey(o, t) <= FileKey(o, s, rest + "x")
  {
    assert t + "/" == (s + "/") + rest;
    Keys.UnderMore("/http/", o, s + "/", rest);
    hide Keys.Under;
    assert SiteKey(o, t) == SiteKey(o, s) + rest;
    hide SiteKey;
    assert SiteKey(o, s) + (rest + "x") == (SiteKey(o, s) + rest) + "x";
  }

  lemma PageIn(o: A.Id, s: string, t: string, path: string)
    requires !Hidden(path) && SiteKey(o, t) <= FileKey(o, s, path)
    ensures Publishes(o, s, o, t)
  {
    hide Hidden, SiteKey, MetaKey, FileKey, FileAt;
    var u := Upload("", None, None, [File(path, [])]);
    OnePage(path);
    PublishedFile(o, s, u, path);
    assert InSite(o, t, FileKey(o, s, path)) && Published(o, s, u, FileKey(o, s, path)).Some?;
  }

  lemma PublishedReaches(o: A.Id, s: string, p: A.Id, t: string, u: Upload, k: string)
    requires InSite(p, t, k) && Published(o, s, u, k).Some?
    ensures o == p && Reaches(s, t)
  {
    PublishedInSite(o, s, u, k);
    SharedKeyIff(o, s, p, t);
    if !(t + "/" <= s + "/") {
      OutsideReaches(o, s, t, u, k);
    }
  }

  lemma OutsideReaches(o: A.Id, s: string, t: string, u: Upload, k: string)
    requires InSite(o, t, k) && Published(o, s, u, k).Some? && s + "/" <= t + "/" && !(t + "/" <= s + "/")
    ensures !Hidden((t + "/")[|s| + 1..])
  {
    var rest := (t + "/")[|s| + 1..];
    InnerKey(o, s, t, rest);
    Keys.UnderInjective("/meta/", o, s, o, t);
    hide SiteKey, MetaKey, Hidden, FileAt;
    if k == MetaKey(o, t) {
      if SiteKey(o, s) <= k {
        FilesApartFromMeta(o, s, o, t, k);
      }
    } else {
      FilesApartFromMeta(o, t, o, s, k);
      var path := k[|SiteKey(o, s)|..];
      PathBegins(o, s, t, rest, k);
      if Hidden(rest) {
        HiddenBeyond(rest, path[|rest|..]);
        assert path == rest + path[|rest|..];
        NoHiddenFile(u.files, path);
      }
    }
  }

  lemma PathBegins(o: A.Id, s: string, t: string, rest: string, k: string)
    requires FileKey(o, s, rest) == SiteKey(o, t) && SiteKey(o, t) <= k
    ensures SiteKey(o, s) <= k && rest <= k[|SiteKey(o, s)|..]
  {
    hide SiteKey;
    var n := |SiteKey(o, s)|;
    assert k[..n + |rest|] == SiteKey(o, s) + rest;
    assert k[..n] == k[..n + |rest|][..n] == SiteKey(o, s);
    assert k[n..][..|rest|] == k[..n + |rest|][n..] == rest;
  }

  /**
   * Deploying a site leaves another whole, in every store and for every upload, just when the owners
   * differ, or the other neither holds it nor is inside it at a path that is not hidden.
   */
  lemma DeployIsolationIff(o: A.Id, s: string, p: A.Id, t: string)
    ensures UntouchedByDeploy(o, s, p, t) <==> !(o == p && Reaches(s, t))
  {
    hide UntouchedByDeploy, InSite, Published, Reaches;
    DeployTouchesIff(o, s, p, t);
    if o == p && Reaches(s, t) {
      PublishesInside(o, s, t);
    }
    if Publishes(o, s, p, t) {
      var u: Upload, k :| InSite(p, t, k) && Published(o, s, u, k).Some?;
      PublishedReaches(o, s, p, t, u, k);
    }
  }

  /** Names without a slash are nested only when they are the same. */
  lemma PlainNamesIsolated(s: string, t: string)
    requires Keys.NoSlash(s) && Keys.NoSlash(t)
    ensures Nested(s, t) <==> s == t
  {
    assert s + "/" == s + ("/" + "") && t + "/" == t + ("/" + "");
    if s + "/" <= t + "/" {
      Keys.HeadsAgree(s, "", t, "");
    }
    if t + "/" <= s + "/" {
      Keys.HeadsAgree(t, "", s, "");
    }
  }

  // -------------------------------------------------------------------------------------------
  // The storage object
  // -------------------------------------------------------------------------------------------

  lemma MetaAfterFiles(o: A.Id, s: string, k: string)
    requires SiteKey(o, s) <= k
    ensures Lex.Less(k, MetaKey(o, s))
  {
    var body := A.ToText(o) + ("/" + (s + "/"));
    assert SiteKey(o, s) == "/http/" + body;
    assert k[0] == SiteKey(o, s)[0] == '/' && k[1] == SiteKey(o, s)[1] == 'h';
    var tail := A.ToText(o) + ("/" + s);
    assert MetaKey(o, s) == "/meta/" + tail;
    assert MetaKey(o, s)[0] == '/' && MetaKey(o, s)[1] == 'm';
    hide MetaKey, SiteKey;
    assert Lex.Less(k[1..], MetaKey(o, s)[1..]);
  }

  class WebStorage {
    var store: Kv

    constructor ()
      ensures store == map[]
    {
      store := map[];
    }

    /** The store takes a batch whose keys strictly increase. */
    method ApplyBatch(batch: seq<Entry<Value>>)
      requires Increasing(batch)
      modifies this
      ensures store == Apply(old(store), batch)
    {
      for i := 0 to |batch|
        invariant Apply(store, batch[i..]) == Apply(old(store), batch)
      {
        assert batch[i..][0] == batch[i] && batch[i..][1..] == batch[i + 1..];
        store := ApplyOne(store, batch[i]);
      }
    }

    method SiteExists(o: A.Id, s: string) returns (b: bool)
      ensures b == Exists(store, o, s)
    {
      var metaExists := MetaKey(o, s) in store;
      var indexExists := FileKey(o, s, "index.html") in store;
      b := metaExists && indexExists;
    }

    /** Looks at the descriptions from the last to the first. */
    method HasDomain(d: string) returns (b: bool)
      ensures b <==> DomainUsed(store, d)
    {
      var items := Scan(store, "/meta");
      b := false;
      var i := |items|;
      while i > 0
        invariant 0 <= i <= |items|
        invariant !b
        invariant forall j :: i <= j < |items| ==> !Names(items[j], d)
      {
        i := i - 1;
        if Names(items[i], d) {
          ScannedItem(store, "/meta", items, i);
          return true;
        }
      }
      NoneNamed(store, items, d);
    }

    method StoreBatch(o: A.Id, s: string, u: Upload) returns (batch: seq<Entry<Value>>)
      ensures batch == Sort(SiteEntries(o, s, u))
    {
      hide FileEntry, FileEntries, Sort, InfoOf, MetaKey;
      batch := [];
      assert u.files[0..] == u.files;
      for i := 0 to |u.files|
        invariant batch + FileEntries(o, s, u.files[i..]) == FileEntries(o, s, u.files)
      {
        FilesTurn(o, s, u.files, i, batch);
        batch := batch + FileEntry(o, s, u.files[i]);
      }
      NoFiles(o, s, u.files);
      assert batch == FileEntries(o, s, u.files);
      batch := batch + [Entry(MetaKey(o, s), Put(Meta(InfoOf(o, s, u))))];
      batch := Sort(batch);
    }

    /** The deletes of every key under the site, then of its description. */
    method RemoveBatch(o: A.Id, s: string) returns (batch: seq<Entry<Value>>)
      ensures Increasing(batch) && Distinct(batch)
      ensures Apply(store, batch) == RemoveSite(store, o, s)
    {
      hide SiteKey, MetaKey, Apply, RemoveSite, First;
      var items := Scan(store, SiteKey(o, s));
      batch := [];
      for i := 0 to |items|
        invariant |batch| == i && forall j :: 0 <= j < i ==> batch[j] == Entry(items[j].key, Delete)
      {
        batch := batch + [Entry(items[i].key, Delete)];
      }
      batch := batch + [Entry(MetaKey(o, s), Delete)];
      RemoveBatchMeaning(store, o, s, items, batch);
    }

    method StoreWebsite(o: A.Id, s: string, u: Upload)
      modifies this
      ensures store == StoreSite(old(store), o, s, u)
    {
      hide Apply, Sort, SiteEntries;
      var batch := StoreBatch(o, s, u);
      SiteEntriesDistinct(o, s, u);
      SortedBatch(store, SiteEntries(o, s, u));
      ApplyBatch(batch);
    }

    method RemoveWebsite(o: A.Id, s: string)
      modifies this
      ensures store == RemoveSite(old(store), o, s)
    {
      hide Apply, RemoveSite;
      var batch := RemoveBatch(o, s);
      ApplyBatch(batch);
    }

    /** One combined batch does the work of a removal followed by a store. */
    method UpdateWebsite(o: A.Id, s: string, u: Upload)
      modifies this
      ensures store == UpdateSite(old(store), o, s, u)
    {
      hide Apply, Sort, SiteEntries, Dedup, RemoveSite, Distinct, Increasing;
      var removes := RemoveBatch(o, s);
      var puts := StoreBatch(o, s, u);
      SiteEntriesDistinct(o, s, u);
      SortDistinct(SiteEntries(o, s, u));
      MergedBatch(store, puts, removes);
      SortedBatch(RemoveSite(store, o, s), SiteEntries(o, s, u));
      var combined := puts + removes;
      combined := Sort(combined);
      combined := Dedup(combined);
      ApplyBatch(combined);
    }
  }

  lemma FilesTurn(o: A.Id, s: string, files: seq<File>, i: nat, batch: seq<Entry<Value>>)
    requires i < |files|
    ensures batch + FileEntries(o, s, files[i..]) ==
            (batch + FileEntry(o, s, files[i])) + FileEntries(o, s, files[i + 1..])
  {
    hide FileEntry;
    assert files[i..][0] == files[i] && files[i..][1..] == files[i + 1..];
  }

  lemma NoFiles(o: A.Id, s: string, files: seq<File>)
    ensures FileEntries(o, s, files[|files|..]) == []
  {
  }

  predicate Names(item: Entry<Value>, d: string) {
    item.op.Put? && item.op.value.Meta? && item.op.value.info.domain == Some(d)
  }

  lemma ScannedItem(store: Kv, prefix: string, items: seq<Entry<Value>>, i: nat)
    requires Increasing(items) && i < |items|
    requires forall k :: First(items, k) == if k in store && prefix <= k then Some(Put(store[k])) else None
    ensures var k := items[i].key; k in store && prefix <= k && items[i].op == Put(store[k])
  {
    IncreasingIsDistinct(items);
    FirstAt(items, i);
  }

  lemma NoneNamed(store: Kv, items: seq<Entry<Value>>, d: string)
    requires forall k :: First(items, k) == if k in store && "/meta" <= k then Some(Put(store[k])) else None
    requires forall j :: 0 <= j < |items| ==> !Names(items[j], d)
    ensures !DomainUsed(store, d)
  {
    forall k | k in store && "/meta" <= k ensures !(store[k].Meta? && store[k].info.domain == Some(d)) {
      FirstOccurs(items, k);
    }
  }

  lemma RemoveBatchMeaning(store: Kv, o: A.Id, s: string, items: seq<Entry<Value>>, batch: seq<Entry<Value>>)
    requires Increasing(items) && |batch| == |items| + 1
    requires forall k :: First(items, k) ==
                         if k in store && SiteKey(o, s) <= k then Some(Put(store[k])) else None
    requires forall j :: 0 <= j < |items| ==> batch[j] == Entry(items[j].key, Delete)
    requires batch[|items|] == Entry(MetaKey(o, s), Delete)
    ensures Increasing(batch) && Distinct(batch)
    ensures Apply(store, batch) == RemoveSite(store, o, s)
  {
    hide SiteKey, MetaKey, Apply, First, Lex.Less;
    forall i | 0 <= i < |items| ensures Lex.Less(batch[i].key, MetaKey(o, s)) {
      ScannedItem(store, SiteKey(o, s), items, i);
      MetaAfterFiles(o, s, items[i].key);
    }
    IncreasingIsDistinct(batch);
    forall k ensures Get(Apply(store, batch), k) == Get(RemoveSite(store, o, s), k) {
      ApplyDistinct(store, batch, k);
      OnlyDeletes(batch, k);
      FirstIsNone(batch, k);
      FirstIsNone(items, k);
      Deleted(store, o, s, items, batch, k);
    }
    SameStore(Apply(store, batch), RemoveSite(store, o, s));
  }

  lemma Deleted(store: Kv, o: A.Id, s: string, items: seq<Entry<Value>>, batch: seq<Entry<Value>>, k: string)
    requires |batch| == |items| + 1 && batch[|items|].key == MetaKey(o, s)
    requires forall j :: 0 <= j < |items| ==> batch[j].key == items[j].key
    requires First(items, k).Some? <==> k in store && SiteKey(o, s) <= k
    requires First(items, k).None? <==> forall i :: 0 <= i < |items| ==> items[i].key != k
    ensures k in store ==>
            ((forall i :: 0 <= i < |batch| ==> batch[i].key != k) <==> !InSite(o, s, k))
  {
    hide SiteKey, MetaKey, First;
    if First(items, k).Some? {
      var i :| 0 <= i < |items| && items[i].key == k;
      assert batch[i].key == k;
    } else if k == MetaKey(o, s) {
      assert batch[|items|].key == k;
    } else {
      forall i | 0 <= i < |batch| ensures batch[i].key != k {
        assert i < |items| ==> batch[i].key == items[i].key;
      }
    }
  }
}
