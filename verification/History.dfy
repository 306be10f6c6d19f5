/** The task history route: filter, stable descending sort by creation time, one page of the result. */
module History {
  import opened Arithmetic
  import opened Wrappers
  import opened StableSort
  import opened Sublists

  /** One stored run; any of these keys may be missing from it. */
  datatype Item = Item(taskId: Option<string>, status: Option<string>, createdAt: Option<real>, rest: map<string, string>)

  datatype Response =
    | Page(items: seq<Item>, total: nat, page: int, limit: int, pages: int)
    | Unprocessable

  function CreatedAt(x: Item): real {
    if x.createdAt.Some? then x.createdAt.value else 0.0
  }

  /** A missing or empty filter keeps everything. */
  function Filtered(store: seq<Item>, status: Option<string>): seq<Item> {
    if store == [] then []
    else
      var last := store[|store| - 1];
      Filtered(store[..|store| - 1], status)
      + if status == None || status == Some("") || last.status == status then [last] else []
  }

  function Slice<T>(xs: seq<T>, start: nat, end: nat): seq<T>
    requires start <= end
  {
    if start >= |xs| then [] else xs[start..if end < |xs| then end else |xs|]
  }

  /** The page with the given number, counting from one. */
  function PageOf<T>(xs: seq<T>, page: nat, limit: nat): seq<T>
    requires 1 <= page
  {
    assert (page - 1) * limit + limit >= (page - 1) * limit >= 0;
    Slice(xs, (page - 1) * limit, (page - 1) * limit + limit)
  }

  function PageCount(total: nat, limit: nat): nat
    requires 1 <= limit
  {
    (total + limit - 1) / limit
  }

  function Listing(store: seq<Item>, status: Option<string>): seq<Item> {
    Sort(Filtered(store, status), CreatedAt)
  }

  // ---------- What a listing is ----------

  /** The runs with the given status, or all of them without one; the latest first, a missing time counting as
      zero, and of runs of the same time the earlier ones of the store. */
  predicate IsListing(store: seq<Item>, status: Option<string>, at: seq<nat>) {
    && InRange(store, at)
    && (forall i | 0 <= i < |store| :: i in at <==> status == None || status == Some("") || store[i].status == status)
    && IsRanked(store, (x: Item) => if x.createdAt == None then 0.0 else x.createdAt.value, Elements(store, at), at)
  }

  /** One page of a listing: `limit` of its items from the place of the page on, as far as there are any; the
      number of items; and as many pages as it takes to hold them. */
  predicate IsPage(all: seq<Item>, page: int, limit: int, r: Response) {
    && r.Page? && r.total == |all| && r.page == page && r.limit == limit
    && |all| <= r.pages * limit < |all| + limit
    && var start := (page - 1) * limit;
       && 0 <= start
       && if start >= |all| then r.items == []
          else r.items == all[start..if start + limit < |all| then start + limit else |all|]
  }

  lemma {:induction false} FilteredKeeps(store: seq<Item>, status: Option<string>) returns (at: seq<nat>)
    ensures Keeps(store, Filtered(store, status), at)
    ensures forall i | 0 <= i < |store| :: i in at <==> status == None || status == Some("") || store[i].status == status
  {
    at := [];
    if store != [] {
      var n := |store| - 1;
      at := FilteredKeeps(store[..n], status);
      assert store == store[..n] + [store[n]];
      KeepsNext(store[..n], Filtered(store[..n], status), at, store[n]);
      if status == None || status == Some("") || store[n].status == status {
        at := at + [n];
      }
    }
  }

  lemma ListingIsListing(store: seq<Item>, status: Option<string>) returns (at: seq<nat>)
    ensures IsListing(store, status, at) && Elements(store, at) == Listing(store, status)
  {
    var from := FilteredKeeps(store, status);
    var wanted := (x: Item) => status == None || status == Some("") || x.status == status;
    at := KeptAndSorted(store, wanted, CreatedAt, Filtered(store, status), from);
    assert Elements(store, at) == Listing(store, status);
    SameRanking(store, CreatedAt, (x: Item) => if x.createdAt == None then 0.0 else x.createdAt.value,
                Listing(store, status), at);
  }

  lemma PageIsPage(all: seq<Item>, page: nat, limit: nat)
    requires 1 <= page && 1 <= limit
    ensures IsPage(all, page, limit, Page(PageOf(all, page, limit), |all|, page, limit, PageCount(|all|, limit)))
  {
    CeilingBound(|all|, limit);
    NonnegativeProduct(page - 1, limit);
  }

  class HistoryStore {
    var store: seq<Item>

    constructor (store: seq<Item>)
      ensures this.store == store
    {
      this.store := store;
    }

    /** Page numbers below one and limits outside 1..100 are turned away before the route runs. */
    method GetHistory(page: int := 1, limit: int := 10, status: Option<string> := None) returns (r: Response)
      ensures r == if page < 1 || limit < 1 || limit > 100 then Unprocessable
                   else var sorted := Listing(store, status);
                        Page(PageOf(sorted, page, limit), |sorted|, page, limit, PageCount(|sorted|, limit))
      ensures if page < 1 || limit < 1 || limit > 100 then r == Unprocessable
              else exists at: seq<nat> :: IsListing(store, status, at) && IsPage(Elements(store, at), page, limit, r)
    {
      if page < 1 || limit < 1 || limit > 100 {
        return Unprocessable;
      }
      ghost var at := ListingIsListing(store, status);
      PageIsPage(Elements(store, at), page, limit);
      var filtered := FilterByStatus(status);
      var sorted := Sort(filtered, CreatedAt);
      var start := (page - 1) * limit;
      return Page(Slice(sorted, start, start + limit), |sorted|, page, limit, (|sorted| + limit - 1) / limit);
    }

    method FilterByStatus(status: Option<string>) returns (filtered: seq<Item>)
      ensures filtered == Filtered(store, status)
    {
      filtered := store;
      if status == None || status == Some("") {
        UnfilteredIsAll(store, status);
        return;
      }
      filtered := [];
      for i := 0 to |store|
        invariant filtered == Filtered(store[..i], status)
      {
        assert store[..i + 1][..i] == store[..i];
        if store[i].status == status {
          filtered := filtered + [store[i]];
        }
      }
      assert store[..|store|] == store;
    }

    /** Removes every run of a task; false when there is none, and then nothing changes. */
    method DeleteTaskHistory(taskId: string) returns (found: bool)
      modifies this
      ensures store == Without(old(store), taskId)
      ensures exists at: seq<nat> {:trigger Keeps(old(store), store, at)} ::
                && Keeps(old(store), store, at)
                && forall i | 0 <= i < |old(store)| :: i in at <==> old(store)[i].taskId != Some(taskId)
      ensures found <==> exists x <- old(store) :: x.taskId == Some(taskId)
    {
      WithoutShorter(store, taskId);
      ghost var at := DeletionIsExact(store, taskId);
      var original := |store|;
      store := Without(store, taskId);
      found := |store| < original;
    }
  }

  function Without(store: seq<Item>, taskId: string): seq<Item> {
    if store == [] then []
    else
      var last := store[|store| - 1];
      Without(store[..|store| - 1], taskId) + if last.taskId != Some(taskId) then [last] else []
  }

  lemma {:induction false} WithoutShorter(store: seq<Item>, taskId: string)
    ensures |Without(store, taskId)| <= |store|
    ensures |Without(store, taskId)| < |store| <==> exists x <- store :: x.taskId == Some(taskId)
  {
    if store != [] {
      WithoutShorter(store[..|store| - 1], taskId);
      assert store == store[..|store| - 1] + [store[|store| - 1]];
    }
  }

  /** A deletion keeps exactly the runs of other tasks, and those of no task, in their order. */
  lemma {:induction false} DeletionIsExact(store: seq<Item>, taskId: string) returns (at: seq<nat>)
    ensures Keeps(store, Without(store, taskId), at)
    ensures forall i | 0 <= i < |store| :: i in at <==> store[i].taskId != Some(taskId)
  {
    at := [];
    if store != [] {
      var n := |store| - 1;
      at := DeletionIsExact(store[..n], taskId);
      assert store == store[..n] + [store[n]];
      KeepsNext(store[..n], Without(store[..n], taskId), at, store[n]);
      if store[n].taskId != Some(taskId) {
        at := at + [n];
      }
    }
  }

  lemma {:induction false} UnfilteredIsAll(store: seq<Item>, status: Option<string>)
    requires status == None || status == Some("")
    ensures Filtered(store, status) == store
  {
    if store != [] {
      UnfilteredIsAll(store[..|store| - 1], status);
    }
  }

  // ---------- Pages ----------

  /** The pages up to a number, one after the other. */
  function Joined<T>(xs: seq<T>, limit: nat, pages: nat): seq<T> {
    if pages == 0 then [] else Joined(xs, limit, pages - 1) + PageOf(xs, pages, limit)
  }

  lemma {:induction false} JoinedIsPrefix<T>(xs: seq<T>, limit: nat, pages: nat)
    ensures pages * limit >= 0
    ensures Joined(xs, limit, pages) == Slice(xs, 0, pages * limit)
  {
    if pages != 0 {
      JoinedIsPrefix(xs, limit, pages - 1);
      Step(pages - 1, limit);
    }
  }

  lemma CeilingBound(total: nat, limit: nat)
    requires 1 <= limit
    ensures total <= PageCount(total, limit) * limit < total + limit
  {
    Divide(total + limit - 1, limit);
  }

  /** The page count is the least number of pages that reaches the end of the list. */
  lemma PageCountIsLeast(total: nat, limit: nat, pages: nat)
    requires 1 <= limit
    ensures total <= pages * limit <==> PageCount(total, limit) <= pages
  {
    var p := PageCount(total, limit);
    CeilingBound(total, limit);
    if p <= pages {
      Grows(p, pages, limit);
    } else {
      Grows(pages, p - 1, limit);
      Step(p - 1, limit);
    }
  }

  /** Pagination is a partition: the pages up to the count, one after the other, are the whole listing;
      later pages are empty, and all earlier ones but the last are full. */
  lemma PagesPartition<T>(xs: seq<T>, limit: nat)
    requires 1 <= limit
    ensures Joined(xs, limit, PageCount(|xs|, limit)) == xs
    ensures forall page {:trigger PageOf(xs, page, limit)} | 1 <= page ::
              |PageOf(xs, page, limit)| == if page < PageCount(|xs|, limit) then limit
                                           else if page == PageCount(|xs|, limit) then |xs| - (page - 1) * limit
                                           else 0
  {
    var p := PageCount(|xs|, limit);
    PageCountIsLeast(|xs|, limit, p);
    JoinedIsPrefix(xs, limit, p);
    forall page {:trigger PageOf(xs, page, limit)} | 1 <= page
      ensures |PageOf(xs, page, limit)| == if page < p then limit else if page == p then |xs| - (page - 1) * limit else 0
    {
      PageSize(xs, page, limit);
    }
  }

  lemma PageSize<T>(xs: seq<T>, page: nat, limit: nat)
    requires 1 <= limit && 1 <= page
    ensures |PageOf(xs, page, limit)| == if page < PageCount(|xs|, limit) then limit
                                         else if page == PageCount(|xs|, limit) then |xs| - (page - 1) * limit
                                         else 0
  {
    PageCountIsLeast(|xs|, limit, page);
    PageCountIsLeast(|xs|, limit, page - 1);
    Step(page - 1, limit);
  }

  /** What a reader of all pages sees: exactly the stable descending rearrangement of the filtered
      history. */
  lemma AllPagesAreTheListing(store: seq<Item>, status: Option<string>, limit: nat)
    requires 1 <= limit
    ensures var seen := Joined(Listing(store, status), limit, PageCount(|Listing(store, status)|, limit));
            Descending(seen, CreatedAt) && Stable(Filtered(store, status), seen, CreatedAt)
  {
    PagesPartition(Listing(store, status), limit);
    SortCorrect(Filtered(store, status), Listing(store, status), CreatedAt);
  }
}
