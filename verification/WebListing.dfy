/** The listing of deployed websites, page by page. */
module WebListing {
  import opened Wrappers
  import opened Store
  import opened WebFiles
  import A = Address

  const MAXIMUM_WEB_COUNT: nat := 100

  /** `NoPageZero` stands for the subtraction that fails on page zero. */
  datatype Error = PageSizeTooLarge | NoPageZero

  datatype Listing = Listing(total: nat, deployments: seq<Info>)

  /** Filters name owners; a description must pass them all. */
  predicate Shows(owners: seq<A.Id>, e: Entry<Value>) {
    e.op.Put? && e.op.value.Meta? && forall i :: 0 <= i < |owners| ==> A.Eq(e.op.value.info.owner, owners[i])
  }

  function Infos(items: seq<Entry<Value>>): seq<Info> {
    if items == [] then []
    else (if items[0].op.Put? && items[0].op.value.Meta? then [items[0].op.value.info] else []) + Infos(items[1..])
  }

  function Smaller(a: nat, b: nat): nat { if a < b then a else b }

  /** What is left after skipping, cut to the size of a page; pages count from one. */
  function Page<T>(all: seq<T>, page: nat, size: nat): (r: seq<T>)
    requires page >= 1
    ensures |r| <= size
  {
    var skip := Smaller((page - 1) * size, |all|);
    all[skip..skip + Smaller(size, |all| - skip)]
  }

  function FirstPages<T>(all: seq<T>, pages: nat, size: nat): seq<T> {
    if pages == 0 then [] else FirstPages(all, pages - 1, size) + Page(all, pages, size)
  }

  /** The first pages, one after the other, are the beginning of the listing: nothing is skipped or repeated. */
  lemma {:induction false} PagesInOrder<T>(all: seq<T>, pages: nat, size: nat)
    ensures FirstPages(all, pages, size) == all[..Smaller(pages * size, |all|)]
  {
    hide Page;
    if pages > 0 {
      PagesInOrder(all, pages - 1, size);
      var from, to := (pages - 1) * size, pages * size;
      assert to == from + size;
      PageSlice(all, pages, size, from, to);
      assert all[..Smaller(from, |all|)] + all[Smaller(from, |all|)..Smaller(to, |all|)] == all[..Smaller(to, |all|)];
    }
  }

  lemma PageSlice<T>(all: seq<T>, page: nat, size: nat, from: nat, to: nat)
    requires page >= 1 && from == (page - 1) * size && to == from + size
    ensures Page(all, page, size) == all[Smaller(from, |all|)..Smaller(to, |all|)]
  {
  }

  /** Every entry of the listing is on exactly the page its place says. */
  lemma OnItsPage<T>(all: seq<T>, i: nat, size: nat)
    requires i < |all| && size > 0
    ensures i % size < |Page(all, i / size + 1, size)| && Page(all, i / size + 1, size)[i % size] == all[i]
  {
    var from := i / size * size;
    assert i == from + i % size;
    assert (i / size + 1 - 1) * size == from;
    PageSlice(all, i / size + 1, size, from, from + size);
  }

  function ListSpec(all: seq<Info>, page: Option<nat>, count: Option<nat>): Result<Listing, Error> {
    var number := if page.Some? then page.value else 1;
    var size := if count.Some? then count.value else MAXIMUM_WEB_COUNT;
    if size > MAXIMUM_WEB_COUNT then Err(PageSizeTooLarge)
    else if number == 0 then Err(NoPageZero)
    else Ok(Listing(|all|, Page(all, number, size)))
  }

  /** Asking for page after page of one size until the total is reached yields the whole listing. */
  lemma PagingIsComplete(all: seq<Info>, size: nat, pages: nat)
    requires pages * size >= |all|
    ensures FirstPages(all, pages, size) == all
  {
    PagesInOrder(all, pages, size);
    assert all[..|all|] == all;
  }

  /** The descriptions in the order asked for: those stored and shown, each once. */
  ghost predicate IsListing(store: Kv, descending: bool, owners: seq<A.Id>, items: seq<Entry<Value>>) {
    InOrder(items, descending) && forall e :: e in items <==> Yielded(store, "/meta", e) && Shows(owners, e)
  }

  method ListSites(storage: WebStorage, descending: bool, owners: seq<A.Id>, page: Option<nat>, count: Option<nat>)
    returns (r: Result<Listing, Error>, ghost items: seq<Entry<Value>>)
    ensures IsListing(storage.store, descending, owners, items)
    ensures r == ListSpec(Infos(items), page, count)
    ensures |Infos(items)| == |items|
    ensures forall i :: 0 <= i < |items| ==> items[i].op == Put(Meta(Infos(items)[i]))
  {
    hide Page, Infos;
    var pick: Entry<Value> -> bool := e => Shows(owners, e);
    var found := List(storage.store, "/meta", descending, pick);
    items := found;
    assert forall i :: 0 <= i < |items| ==> items[i] in items;
    InfosAt(items);
    var number := if page.Some? then page.value else 1;
    var size := if count.Some? then count.value else MAXIMUM_WEB_COUNT;
    if size > MAXIMUM_WEB_COUNT {
      r := Err(PageSizeTooLarge);
    } else if number == 0 {
      r := Err(NoPageZero);
    } else {
      var all := Infos(found);
      r := Ok(Listing(|all|, Page(all, number, size)));
    }
  }

  /** Every filter names the owner. */
  lemma ShowsIff(owners: seq<A.Id>, e: Entry<Value>)
    ensures Shows(owners, e) <==>
            e.op.Put? && e.op.value.Meta? && forall i :: 0 <= i < |owners| ==> owners[i] == e.op.value.info.owner
  {
    hide A.Eq;
    if e.op.Put? && e.op.value.Meta? {
      forall i | 0 <= i < |owners| ensures A.Eq(e.op.value.info.owner, owners[i]) <==>
                                           owners[i] == e.op.value.info.owner {
        A.EqIsByteEquality(e.op.value.info.owner, owners[i]);
      }
    }
  }

  lemma {:induction false} InfosAt(items: seq<Entry<Value>>)
    requires forall i :: 0 <= i < |items| ==> items[i].op.Put? && items[i].op.value.Meta?
    ensures |Infos(items)| == |items|
    ensures forall i :: 0 <= i < |items| ==> Infos(items)[i] == items[i].op.value.info
  {
    if items == [] {
    } else {
      InfosAt(items[1..]);
    }
  }

  /**
   * A listing is refused just when it asks for a page of more than a hundred or for page zero.
   * Otherwise it has the number of all descriptions, and of them those at the places of its page.
   */
  lemma ListedPage(all: seq<Info>, page: Option<nat>, count: Option<nat>)
    ensures ListSpec(all, page, count).Ok? <==> (count.Some? ==> count.value <= 100) && page != Some(0)
    ensures ListSpec(all, page, count).Ok? ==>
              var l := ListSpec(all, page, count).value;
              var size := if count.Some? then count.value else 100;
              var start := if page.Some? then (page.value - 1) * size else 0;
              && l.total == |all|
              && |l.deployments| <= size
              && (|l.deployments| < size ==> start + |l.deployments| >= |all|)
              && forall i :: 0 <= i < |l.deployments| ==>
                               0 <= start + i < |all| && l.deployments[i] == all[start + i]
  {
    if ListSpec(all, page, count).Ok? {
      var size := if count.Some? then count.value else 100;
      var number := if page.Some? then page.value else 1;
      PageSlice(all, number, size, (number - 1) * size, (number - 1) * size + size);
    }
  }
}
