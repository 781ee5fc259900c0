/** The paginated store listing (`getStores`). */
module Listing {
  import opened Types
  import opened Ranking

  const PageSize: nat := 4

  /** `(page * limit) - limit`: how many stores come before the requested page. */
  function Skip(page: int): (r: int)
    ensures r == (page - 1) * PageSize
    ensures r >= 0 <==> page >= 1
    ensures r % PageSize == 0
  {
    page * PageSize - PageSize
  }

  /** `Math.ceil(count / limit)`: the fewest pages that hold `count` stores. */
  function LastPage(count: nat): (r: nat)
    ensures r * PageSize >= count
    ensures r == 0 || (r - 1) * PageSize < count
  {
    (count + PageSize - 1) / PageSize
  }

  /** `req.params.page || 1`: a route without a page number means page 1. */
  function PageNumber(param: Option<int>): (page: int)
    ensures param.None? ==> page == 1
    ensures param.Some? ==> page == param.value
  {
    if param.Some? then param.value else 1
  }

  /** The sort key of `sort({created: 'desc'})`. */
  function CreatedKey(s: Store): real {
    -(s.created as real)
  }

  /** All stores, newest first. */
  function NewestFirst(stores: seq<Store>): (r: seq<Store>)
    ensures multiset(r) == multiset(stores)
    ensures |r| == |stores|
    ensures forall i, j :: 0 <= i < j < |r| ==> r[i].created >= r[j].created
  {
    var r := SortBy(stores, CreatedKey);
    assert forall i, j :: 0 <= i < j < |r| ==> CreatedKey(r[i]) <= CreatedKey(r[j]);
    r
  }

  /** What the handler does: render one page of stores, or redirect to another page. */
  datatype PageView =
    | Render(stores: seq<Store>, count: nat, pages: nat, page: int)
    | Redirect(target: nat)

  /**
   * getStores: the stores of the requested page, at most four, taken from
   * the newest-first order from position `Skip(page)` on. A page that comes
   * out empty although stores were skipped redirects to the last page; the
   * database refuses the query when the skip is negative.
   */
  function GetStores(stores: seq<Store>, param: Option<int>): (r: Result<PageView, Error>)
    ensures r.Err? <==> Skip(PageNumber(param)) < 0
    ensures r.Err? ==> r.error == NegativeSkip
    ensures r.Ok? && r.value.Redirect? <==> 0 < Skip(PageNumber(param)) && |stores| <= Skip(PageNumber(param))
    ensures r.Ok? && r.value.Redirect? ==> r.value.target == LastPage(|stores|)
    ensures r.Ok? && r.value.Render? ==>
              && r.value.count == |stores|
              && r.value.pages == LastPage(|stores|)
              && r.value.page == PageNumber(param)
              && |r.value.stores| <= PageSize
              && 0 <= Skip(PageNumber(param))
              && |r.value.stores| == Min(PageSize, |stores| - Skip(PageNumber(param)))
              && forall i :: 0 <= i < |r.value.stores| ==>
                   Skip(PageNumber(param)) + i < |stores| &&
                   r.value.stores[i] == NewestFirst(stores)[Skip(PageNumber(param)) + i]
  {
    var page := PageNumber(param);
    var skip := Skip(page);
    if skip < 0 then Err(NegativeSkip)
    else
      var window := Window(NewestFirst(stores), skip, PageSize);
      var lastPage := LastPage(|stores|);
      if |window| == 0 && skip != 0 then Ok(Redirect(lastPage))
      else Ok(Render(window, |stores|, lastPage, page))
  }

  /** A rendered page lists stores of the collection, newest first. */
  lemma RenderedPageIsNewestFirst(stores: seq<Store>, param: Option<int>)
    requires GetStores(stores, param).Ok? && GetStores(stores, param).value.Render?
    ensures var w := GetStores(stores, param).value.stores;
            && multiset(w) <= multiset(stores)
            && forall i, j :: 0 <= i < j < |w| ==> w[i].created >= w[j].created
  {
    var sorted := NewestFirst(stores);
    var skip := Skip(PageNumber(param));
    var w := GetStores(stores, param).value.stores;
    assert w == Window(sorted, skip, PageSize);
    WindowSubMultiset(sorted, skip, PageSize);
  }

  /** The first page never redirects, not even when there are no stores at all. */
  lemma FirstPageNeverRedirects(stores: seq<Store>)
    ensures GetStores(stores, None).Ok? && GetStores(stores, None).value.Render?
    ensures GetStores(stores, None) == GetStores(stores, Some(1))
    ensures |GetStores(stores, None).value.stores| == Min(PageSize, |stores|)
  {
  }

  /** A page from 1 on redirects exactly when it lies past the last page. */
  lemma RedirectIffPastLastPage(stores: seq<Store>, page: int)
    requires page >= 1
    ensures GetStores(stores, Some(page)).Ok?
    ensures GetStores(stores, Some(page)).value.Redirect? <==> page > 1 && page > LastPage(|stores|)
  {
    var last := LastPage(|stores|);
    if page > last {
      assert (page - 1) * PageSize >= last * PageSize;
    } else if last > 0 {
      assert (page - 1) * PageSize <= (last - 1) * PageSize;
    }
  }

  /**
   * With no stores, any page after the first redirects to page 0, and page 0
   * itself is refused by the database.
   */
  lemma NoStoresRedirectToPageZero(page: int)
    requires page > 1
    ensures GetStores([], Some(page)) == Ok(Redirect(0))
    ensures GetStores([], Some(0)) == Err(NegativeSkip)
  {
  }

  /** When the redirect target is a real page, that page renders at least one store. */
  lemma RedirectTargetRenders(stores: seq<Store>, param: Option<int>)
    requires GetStores(stores, param).Ok? && GetStores(stores, param).value.Redirect?
    requires GetStores(stores, param).value.target >= 1
    ensures var t := GetStores(stores, param).value.target;
            GetStores(stores, Some(t)).Ok? && GetStores(stores, Some(t)).value.Render?
            && |GetStores(stores, Some(t)).value.stores| > 0
  {
    var t := GetStores(stores, param).value.target;
    assert Skip(t) < |stores|;
  }
}
