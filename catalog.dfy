/**
 * The paginated catalog scan shared by api/products.js and api/index.js:
 * list pages 1, 2, ... up to `maxPages`, abort with the status and body of
 * the first list response that is not ok, stop at the first page that is
 * not a non-empty array, and for each item that is wanted (the handlers
 * pass their match predicate) fetch its detail, skip it when that fetch is not ok, and collect a
 * shaped hit until `limit` hits are collected.
 *
 * The network is replaced by values: the catalog is the sequence of list
 * responses for pages 1, 2, ... (a page past its end answers 200 with an
 * empty array), and the detail endpoint is a total function from a listed
 * item to `Some(detail)` for an ok response or `None` otherwise.
 */
module Catalog {
  import opened JsValue
  import opened Limits

  /** One list response: its HTTP status and its parsed JSON body. */
  datatype ListResponse = ListResponse(status: int, body: Value)

  /** `r.ok`: a 2xx status. */
  predicate IsOk(status: int) {
    200 <= status <= 299
  }

  /** The response to `products?page=k`, for k >= 1. */
  function PageAt(pages: seq<ListResponse>, k: int): (r: ListResponse)
    ensures 1 <= k <= |pages| ==> r == pages[k - 1]
    ensures !(1 <= k <= |pages|) ==> r == ListResponse(200, Arr([]))
  {
    if 1 <= k <= |pages| then pages[k - 1] else ListResponse(200, Arr([]))
  }

  /** A page after which the scan goes on: ok, and a non-empty array. */
  predicate Continues(resp: ListResponse) {
    IsOk(resp.status) && IsNonEmptyArray(resp.body)
  }

  /** Pages 1..n all continue. */
  predicate AllContinue(pages: seq<ListResponse>, n: int) {
    forall k :: 1 <= k <= n ==> Continues(PageAt(pages, k))
  }

  /** The items of a response body that is an array. */
  function PageItems(resp: ListResponse): (r: seq<Value>)
    ensures resp.body.Arr? ==> r == resp.body.elems
    ensures !resp.body.Arr? ==> r == []
  {
    if resp.body.Arr? then resp.body.elems else []
  }

  /**
   * The first page from `k` on at which the scan does not go on to the
   * next page for lack of items: a page that fails or is empty, or
   * `maxPages + 1` when every page up to `maxPages` continues.
   */
  function FirstStop(pages: seq<ListResponse>, k: int, maxPages: nat): (r: int)
    requires 1 <= k <= maxPages + 1
    ensures k <= r <= maxPages + 1
    ensures forall j :: k <= j < r ==> Continues(PageAt(pages, j))
    ensures r <= maxPages ==> !Continues(PageAt(pages, r))
    decreases maxPages + 1 - k
  {
    if k > maxPages || !Continues(PageAt(pages, k)) then k else FirstStop(pages, k + 1, maxPages)
  }

  /** The items the scan walks through: those of the pages before the first stop. */
  function Listed(pages: seq<ListResponse>, maxPages: nat): seq<Value> {
    ItemsThrough(pages, FirstStop(pages, 1, maxPages) - 1)
  }

  /** The items of pages 1..k, in catalog order. */
  function ItemsThrough(pages: seq<ListResponse>, k: nat): seq<Value>
  {
    if k == 0 then [] else ItemsThrough(pages, k - 1) + PageItems(PageAt(pages, k))
  }

  /**
   * The hits among `items`: for each item that matches and whose detail
   * fetch is ok, its shaped detail, in catalog order.
   */
  function Hits<T>(items: seq<Value>, wanted: Value -> bool, detail: Value -> Option<Value>, shape: Value -> T): (r: seq<T>)
    ensures |r| <= |items|
  {
    if items == [] then []
    else
      var last := items[|items| - 1];
      Hits(items[..|items| - 1], wanted, detail, shape) + HitOf(last, wanted, detail, shape)
  }

  /** What one item contributes: nothing, or the shape of its detail. */
  function HitOf<T>(p: Value, wanted: Value -> bool, detail: Value -> Option<Value>, shape: Value -> T): (r: seq<T>)
    ensures |r| <= 1
    ensures r != [] <==> wanted(p) && detail(p).Some?
    ensures r != [] ==> r == [shape(detail(p).value)]
  {
    if wanted(p) && detail(p).Some? then [shape(detail(p).value)] else []
  }

  /** One more item at the end contributes after the earlier hits. */
  lemma HitsSnoc<T>(items: seq<Value>, p: Value, wanted: Value -> bool, detail: Value -> Option<Value>, shape: Value -> T)
    ensures Hits(items + [p], wanted, detail, shape) == Hits(items, wanted, detail, shape) + HitOf(p, wanted, detail, shape)
  {
    assert (items + [p])[..|items + [p]| - 1] == items;
  }

  /** Hits keep catalog order: the hits of `a + b` are those of `a` followed by those of `b`. */
  lemma {:induction false} HitsAppend<T>(a: seq<Value>, b: seq<Value>, wanted: Value -> bool, detail: Value -> Option<Value>, shape: Value -> T)
    ensures Hits(a + b, wanted, detail, shape) == Hits(a, wanted, detail, shape) + Hits(b, wanted, detail, shape)
    decreases |b|
  {
    if b == [] {
      assert a + b == a;
    } else {
      var init := b[..|b| - 1];
      var last := b[|b| - 1];
      assert a + b == (a + init) + [last];
      assert b == init + [last];
      HitsAppend(a, init, wanted, detail, shape);
      HitsSnoc(a + init, last, wanted, detail, shape);
      HitsSnoc(init, last, wanted, detail, shape);
    }
  }

  /** Every hit is the shaped detail of an item that is wanted and whose detail fetch was ok. */
  lemma {:induction false} HitsSound<T>(items: seq<Value>, wanted: Value -> bool, detail: Value -> Option<Value>, shape: Value -> T, h: T)
    requires h in Hits(items, wanted, detail, shape)
    ensures exists i :: 0 <= i < |items| && wanted(items[i]) && detail(items[i]).Some?
                        && h == shape(detail(items[i]).value)
    decreases |items|
  {
    var init := items[..|items| - 1];
    var last := items[|items| - 1];
    if h in Hits(init, wanted, detail, shape) {
      HitsSound(init, wanted, detail, shape, h);
      var i :| 0 <= i < |init| && wanted(init[i]) && detail(init[i]).Some?
               && h == shape(detail(init[i]).value);
      assert items[i] == init[i];
    } else {
      assert h in HitOf(last, wanted, detail, shape);
    }
  }

  /** An item whose detail fetch fails is skipped: the hits are as if it were not listed. */
  lemma SkipsFailedDetail<T>(a: seq<Value>, p: Value, b: seq<Value>, wanted: Value -> bool, detail: Value -> Option<Value>, shape: Value -> T)
    requires detail(p).None?
    ensures Hits(a + [p] + b, wanted, detail, shape) == Hits(a + b, wanted, detail, shape)
  {
    HitsAppend(a + [p], b, wanted, detail, shape);
    HitsSnoc(a, p, wanted, detail, shape);
    HitsAppend(a, b, wanted, detail, shape);
  }

  /** When every item is wanted and every detail fetch is ok, every item is a hit, in order. */
  lemma {:induction false} AllWantedAllHit<T>(items: seq<Value>, wanted: Value -> bool, detail: Value -> Option<Value>, shape: Value -> T)
    requires forall p :: wanted(p) && detail(p).Some?
    ensures |Hits(items, wanted, detail, shape)| == |items|
    ensures forall i :: 0 <= i < |items| ==> Hits(items, wanted, detail, shape)[i] == shape(detail(items[i]).value)
    decreases |items|
  {
    if items != [] {
      AllWantedAllHit(items[..|items| - 1], wanted, detail, shape);
    }
  }

  /** A clamped limit, or no limit at all (`parseInt` gave NaN, and `n >= NaN` is false). */
  type Limit = Option<PosInt>

  /** `results.length >= limit` */
  predicate Reached(n: nat, limit: Limit) {
    limit.Some? && n >= limit.value
  }

  /** The first `limit` elements, or all of them. */
  function Cap<T>(s: seq<T>, limit: Limit): (r: seq<T>)
    ensures r <= s
    ensures limit.Some? ==> |r| <= limit.value
    ensures !Reached(|s|, limit) ==> r == s
    ensures Reached(|s|, limit) ==> |r| == limit.value
  {
    if limit.Some? && limit.value < |s| then s[..limit.value] else s
  }

  /** One search result as both search handlers shape it: `{id, name, price, buy_url}` (`None` is `null`). */
  datatype Hit = Hit(id: Value, name: Value, price: Value, buyUrl: Option<string>)

  /** The outcome of a scan: the collected hits, or the failing list response passed on. */
  datatype Outcome<T> = Results(hits: seq<T>) | Upstream(status: int, body: Value)

  /**
   * What the scan answers, stated without its loops: let `stop` be the
   * first page that fails or is empty (or `maxPages + 1`); the hits are
   * those of the items of the pages before it. When `stop` is a failing
   * page and fewer than `limit` hits came before it, its status and body
   * are passed on; otherwise the answer is the first `limit` hits.
   */
  function CollectSpec<T>(pages: seq<ListResponse>, maxPages: nat, wanted: Value -> bool,
                          detail: Value -> Option<Value>, shape: Value -> T, limit: Limit): (r: Outcome<T>)
    ensures r.Results? && limit.Some? ==> |r.hits| <= limit.value
    ensures r.Upstream? ==> exists k :: 1 <= k <= maxPages && PageAt(pages, k).status == r.status
                                        && PageAt(pages, k).body == r.body && !IsOk(r.status)
  {
    var stop := FirstStop(pages, 1, maxPages);
    var hits := Hits(Listed(pages, maxPages), wanted, detail, shape);
    if stop <= maxPages && !IsOk(PageAt(pages, stop).status) && !Reached(|hits|, limit) then
      Upstream(PageAt(pages, stop).status, PageAt(pages, stop).body)
    else
      Results(Cap(hits, limit))
  }

  /** The items of pages 1..j come first among those of pages 1..k. */
  lemma {:induction false} ItemsThroughPrefix(pages: seq<ListResponse>, j: nat, k: nat)
    requires j <= k
    ensures ItemsThrough(pages, j) <= ItemsThrough(pages, k)
    decreases k - j
  {
    if j < k {
      ItemsThroughPrefix(pages, j, k - 1);
    }
  }

  /** Hits of a prefix are a prefix of the hits. */
  lemma HitsPrefix<T>(a: seq<Value>, b: seq<Value>, wanted: Value -> bool, detail: Value -> Option<Value>, shape: Value -> T)
    requires a <= b
    ensures Hits(a, wanted, detail, shape) <= Hits(b, wanted, detail, shape)
  {
    assert b == a + b[|a|..];
    HitsAppend(a, b[|a|..], wanted, detail, shape);
  }

  /**
   * Once `limit` hits are collected on page `page` (which continues, as do
   * all pages before it), the answer is exactly those hits.
   */
  lemma LimitReachedOnPage<T>(pages: seq<ListResponse>, maxPages: nat, wanted: Value -> bool,
                              detail: Value -> Option<Value>, shape: Value -> T, limit: Limit,
                              page: int, seen: seq<Value>)
    requires 1 <= page <= maxPages
    requires AllContinue(pages, page)
    requires seen <= ItemsThrough(pages, page)
    requires limit.Some? && |Hits(seen, wanted, detail, shape)| == limit.value
    ensures CollectSpec(pages, maxPages, wanted, detail, shape, limit) == Results(Hits(seen, wanted, detail, shape))
  {
    var stop := FirstStop(pages, 1, maxPages);
    SeenBeforeStop(pages, maxPages, page, seen);
    var items := Listed(pages, maxPages);
    var hits := Hits(items, wanted, detail, shape);
    var got := Hits(seen, wanted, detail, shape);
    assert got <= hits by {
      HitsPrefix(seen, items, wanted, detail, shape);
    }
    assert Reached(|hits|, limit);
    assert Cap(hits, limit) == got by {
      assert Cap(hits, limit) == hits[..limit.value];
    }
    assert CollectSpec(pages, maxPages, wanted, detail, shape, limit) == Results(Cap(hits, limit));
  }

  /** Items seen on a page that continues, or before it, are among the items before the stop. */
  lemma SeenBeforeStop(pages: seq<ListResponse>, maxPages: nat, page: int, seen: seq<Value>)
    requires 1 <= page <= maxPages
    requires AllContinue(pages, page)
    requires seen <= ItemsThrough(pages, page)
    ensures seen <= Listed(pages, maxPages)
  {
    var stop := FirstStop(pages, 1, maxPages);
    assert stop > page;
    ItemsThroughPrefix(pages, page, stop - 1);
    PrefixTransitive(seen, ItemsThrough(pages, page), ItemsThrough(pages, stop - 1));
  }

  /** A prefix of a prefix is a prefix. */
  lemma PrefixTransitive<X>(a: seq<X>, b: seq<X>, c: seq<X>)
    requires a <= b && b <= c
    ensures a <= c
  {
    assert b == c[..|b|];
    assert a == b[..|a|] == c[..|a|];
  }

  /**
   * The pages through `stop`, where `stop` is the page that fails or is
   * empty after pages 1..stop-1 all continued, decide where the scan ends.
   */
  lemma FirstStopAt(pages: seq<ListResponse>, maxPages: nat, stop: int)
    requires 1 <= stop <= maxPages + 1
    requires AllContinue(pages, stop - 1)
    requires stop <= maxPages ==> !Continues(PageAt(pages, stop))
    ensures FirstStop(pages, 1, maxPages) == stop
  {
  }

  /**
   * Where the scan stops, given that it stops at `stop` with fewer than
   * `limit` hits: a failing page passes its response on, anything else
   * answers the hits so far.
   */
  lemma StopsAt<T>(pages: seq<ListResponse>, maxPages: nat, wanted: Value -> bool,
                   detail: Value -> Option<Value>, shape: Value -> T, limit: Limit, stop: int)
    requires 1 <= stop <= maxPages + 1
    requires AllContinue(pages, stop - 1)
    requires stop <= maxPages ==> !Continues(PageAt(pages, stop))
    requires !Reached(|Hits(ItemsThrough(pages, stop - 1), wanted, detail, shape)|, limit)
    ensures stop <= maxPages && !IsOk(PageAt(pages, stop).status) ==>
      CollectSpec(pages, maxPages, wanted, detail, shape, limit) == Upstream(PageAt(pages, stop).status, PageAt(pages, stop).body)
    ensures !(stop <= maxPages && !IsOk(PageAt(pages, stop).status)) ==>
      CollectSpec(pages, maxPages, wanted, detail, shape, limit) == Results(Hits(ItemsThrough(pages, stop - 1), wanted, detail, shape))
  {
    FirstStopAt(pages, maxPages, stop);
    assert Listed(pages, maxPages) == ItemsThrough(pages, stop - 1);
  }

  /** The hits after one more item of the page. */
  lemma HitsStep<T>(before: seq<Value>, arr: seq<Value>, i: int, wanted: Value -> bool,
                    detail: Value -> Option<Value>, shape: Value -> T)
    requires 0 <= i < |arr|
    ensures Hits(before + arr[..i + 1], wanted, detail, shape)
         == Hits(before + arr[..i], wanted, detail, shape) + HitOf(arr[i], wanted, detail, shape)
  {
    assert before + arr[..i + 1] == (before + arr[..i]) + [arr[i]];
    HitsSnoc(before + arr[..i], arr[i], wanted, detail, shape);
  }

  /** The items of a page that continues follow those of the pages before it. */
  lemma ItemsOfNextPage(pages: seq<ListResponse>, page: int)
    requires page >= 1 && PageAt(pages, page).body.Arr?
    ensures ItemsThrough(pages, page) == ItemsThrough(pages, page - 1) + PageAt(pages, page).body.elems
  {
  }

  /**
   * The scan loop of the two search handlers: pages 1..maxPages, each
   * page's items in order (`CollectPage`), and `break` out of both
   * loops once `limit` hits are collected.
   */
  method CollectMatches<T>(pages: seq<ListResponse>, maxPages: nat, wanted: Value -> bool,
                           detail: Value -> Option<Value>, shape: Value -> T, limit: Limit)
    returns (r: Outcome<T>)
    ensures r == CollectSpec(pages, maxPages, wanted, detail, shape, limit)
  {
    var results: seq<T> := [];
    var page := 1;
    while page <= maxPages
      invariant 1 <= page <= maxPages + 1
      invariant AllContinue(pages, page - 1)
      invariant results == Hits(ItemsThrough(pages, page - 1), wanted, detail, shape)
      invariant !Reached(|results|, limit)
    {
      var done;
      done, r, results := CollectPage(pages, maxPages, wanted, detail, shape, limit, page, results);
      if done {
        return;
      }
      page := page + 1;
    }
    StopsAt(pages, maxPages, wanted, detail, shape, limit, page);
    return Results(results);
  }

  /**
   * One turn of the page loop: a failing page is passed on, an empty page
   * ends the scan, and a page whose items bring the hits to `limit` ends
   * it too (`done`); otherwise the scan goes on with the page's hits added.
   */
  method CollectPage<T>(pages: seq<ListResponse>, maxPages: nat, wanted: Value -> bool,
                        detail: Value -> Option<Value>, shape: Value -> T, limit: Limit,
                        page: int, collected: seq<T>)
    returns (done: bool, r: Outcome<T>, results: seq<T>)
    requires 1 <= page <= maxPages
    requires AllContinue(pages, page - 1)
    requires collected == Hits(ItemsThrough(pages, page - 1), wanted, detail, shape)
    requires !Reached(|collected|, limit)
    ensures done ==> r == CollectSpec(pages, maxPages, wanted, detail, shape, limit)
    ensures !done ==> AllContinue(pages, page)
    ensures !done ==> results == Hits(ItemsThrough(pages, page), wanted, detail, shape)
    ensures !done ==> !Reached(|results|, limit)
  {
    results := collected;
    var resp := PageAt(pages, page);
    if !IsOk(resp.status) {
      StopsAt(pages, maxPages, wanted, detail, shape, limit, page);
      return true, Upstream(resp.status, resp.body), results;
    }
    if !IsNonEmptyArray(resp.body) {
      StopsAt(pages, maxPages, wanted, detail, shape, limit, page);
      return true, Results(results), results;
    }
    var upTo;
    results, upTo := CollectFromPage(resp.body.elems, ItemsThrough(pages, page - 1), results, wanted, detail, shape, limit);
    PageDone(pages, maxPages, wanted, detail, shape, limit, page, upTo, results);
    done, r := Reached(|results|, limit), Results(results);
  }

  /**
   * After the item loop of a page that continues: either `limit` was
   * reached and the hits so far are the answer, or every item of the page
   * was looked at and the scan goes on.
   */
  lemma PageDone<T>(pages: seq<ListResponse>, maxPages: nat, wanted: Value -> bool,
                    detail: Value -> Option<Value>, shape: Value -> T, limit: Limit,
                    page: int, upTo: nat, results: seq<T>)
    requires 1 <= page <= maxPages
    requires AllContinue(pages, page - 1) && Continues(PageAt(pages, page))
    requires upTo <= |PageAt(pages, page).body.elems|
    requires results == Hits(ItemsThrough(pages, page - 1) + PageAt(pages, page).body.elems[..upTo], wanted, detail, shape)
    requires !Reached(|results|, limit) ==> upTo == |PageAt(pages, page).body.elems|
    requires Reached(|results|, limit) ==> |results| == limit.value
    ensures Reached(|results|, limit) ==> Results(results) == CollectSpec(pages, maxPages, wanted, detail, shape, limit)
    ensures !Reached(|results|, limit) ==> AllContinue(pages, page)
    ensures !Reached(|results|, limit) ==> results == Hits(ItemsThrough(pages, page), wanted, detail, shape)
  {
    if Reached(|results|, limit) {
      PageReachedLimit(pages, maxPages, wanted, detail, shape, limit, page, upTo, results);
    } else {
      ItemsOfNextPage(pages, page);
      assert PageAt(pages, page).body.elems[..upTo] == PageAt(pages, page).body.elems;
    }
  }

  /** The hits reach `limit` on a page that continues: they are the answer. */
  lemma PageReachedLimit<T>(pages: seq<ListResponse>, maxPages: nat, wanted: Value -> bool,
                            detail: Value -> Option<Value>, shape: Value -> T, limit: Limit,
                            page: int, upTo: nat, results: seq<T>)
    requires 1 <= page <= maxPages
    requires AllContinue(pages, page - 1) && Continues(PageAt(pages, page))
    requires upTo <= |PageAt(pages, page).body.elems|
    requires results == Hits(ItemsThrough(pages, page - 1) + PageAt(pages, page).body.elems[..upTo], wanted, detail, shape)
    requires limit.Some? && |results| == limit.value
    ensures Results(results) == CollectSpec(pages, maxPages, wanted, detail, shape, limit)
  {
    var elems := PageAt(pages, page).body.elems;
    var before := ItemsThrough(pages, page - 1);
    assert before + elems[..upTo] <= ItemsThrough(pages, page) by {
      ItemsOfNextPage(pages, page);
      assert (before + elems)[..|before| + upTo] == before + elems[..upTo];
    }
    assert AllContinue(pages, page);
    LimitReachedOnPage(pages, maxPages, wanted, detail, shape, limit, page, before + elems[..upTo]);
  }

  /**
   * The item loop of one page: `continue` past an item that is not wanted
   * or whose detail fetch fails, push the shape of its detail otherwise,
   * and `break` as soon as `limit` hits are collected. `upTo` is how many
   * items were looked at.
   */
  method CollectFromPage<T>(arr: seq<Value>, ghost before: seq<Value>, collected: seq<T>, wanted: Value -> bool,
                            detail: Value -> Option<Value>, shape: Value -> T, limit: Limit)
    returns (results: seq<T>, upTo: nat)
    requires collected == Hits(before, wanted, detail, shape) && !Reached(|collected|, limit)
    ensures upTo <= |arr|
    ensures results == Hits(before + arr[..upTo], wanted, detail, shape)
    ensures !Reached(|results|, limit) ==> upTo == |arr|
    ensures Reached(|results|, limit) ==> |results| == limit.value
  {
    results := collected;
    assert before + arr[..0] == before;
    for i := 0 to |arr|
      invariant results == Hits(before + arr[..i], wanted, detail, shape)
      invariant !Reached(|results|, limit)
    {
      var p := arr[i];
      ghost var next := Hits(before + arr[..i + 1], wanted, detail, shape);
      assert next == results + HitOf(p, wanted, detail, shape) by {
        HitsStep(before, arr, i, wanted, detail, shape);
      }
      if !wanted(p) {
        assert next == results;
        continue;
      }
      var det := detail(p);
      if det.None? {
        assert next == results;
        continue;
      }
      results := results + [shape(det.value)];
      assert results == next;
      if Reached(|results|, limit) {
        return results, i + 1;
      }
    }
    upTo := |arr|;
  }

  /**
   * Only the list pages up to the first failing or empty page, and never
   * beyond `maxPages`, are looked at: two catalogs that agree on those
   * pages give the same answer.
   */
  lemma CollectReadsOnlyUpToStop<T>(pages: seq<ListResponse>, other: seq<ListResponse>, maxPages: nat, wanted: Value -> bool,
                                    detail: Value -> Option<Value>, shape: Value -> T, limit: Limit)
    requires forall k :: 1 <= k <= FirstStop(pages, 1, maxPages) && k <= maxPages ==> PageAt(pages, k) == PageAt(other, k)
    ensures CollectSpec(pages, maxPages, wanted, detail, shape, limit) == CollectSpec(other, maxPages, wanted, detail, shape, limit)
  {
    var stop := FirstStop(pages, 1, maxPages);
    FirstStopAt(other, maxPages, stop);
    ItemsThroughAgree(pages, other, stop - 1);
  }

  /** Catalogs that agree on pages 1..k list the same items there. */
  lemma {:induction false} ItemsThroughAgree(pages: seq<ListResponse>, other: seq<ListResponse>, k: nat)
    requires forall j :: 1 <= j <= k ==> PageAt(pages, j) == PageAt(other, j)
    ensures ItemsThrough(pages, k) == ItemsThrough(other, k)
  {
    if k > 0 {
      ItemsThroughAgree(pages, other, k - 1);
    }
  }

  /**
   * Every collected hit is the shaped detail of an item listed on a page
   * before the stop that matched the query and whose detail fetch was ok.
   */
  lemma CollectSound<T>(pages: seq<ListResponse>, maxPages: nat, wanted: Value -> bool,
                        detail: Value -> Option<Value>, shape: Value -> T, limit: Limit, h: T)
    requires CollectSpec(pages, maxPages, wanted, detail, shape, limit).Results?
    requires h in CollectSpec(pages, maxPages, wanted, detail, shape, limit).hits
    ensures exists i :: 0 <= i < |Listed(pages, maxPages)| && wanted(Listed(pages, maxPages)[i])
                        && detail(Listed(pages, maxPages)[i]).Some?
                        && h == shape(detail(Listed(pages, maxPages)[i]).value)
  {
    var items := Listed(pages, maxPages);
    assert CollectSpec(pages, maxPages, wanted, detail, shape, limit).hits == Cap(Hits(items, wanted, detail, shape), limit);
    CappedHitSound(items, wanted, detail, shape, limit, h);
  }

  /** A hit kept by the limit is still a hit. */
  lemma CappedHitSound<T>(items: seq<Value>, wanted: Value -> bool, detail: Value -> Option<Value>, shape: Value -> T, limit: Limit, h: T)
    requires h in Cap(Hits(items, wanted, detail, shape), limit)
    ensures exists i :: 0 <= i < |items| && wanted(items[i]) && detail(items[i]).Some?
                        && h == shape(detail(items[i]).value)
  {
    assert h in Hits(items, wanted, detail, shape);
    HitsSound(items, wanted, detail, shape, h);
  }

  /**
   * When every item is wanted and every detail fetch is ok, the answer
   * lists the items before the stop, in order, as many as the limit allows.
   */
  lemma CollectAllWanted<T>(pages: seq<ListResponse>, maxPages: nat, wanted: Value -> bool,
                            detail: Value -> Option<Value>, shape: Value -> T, limit: Limit)
    requires forall p :: wanted(p) && detail(p).Some?
    requires CollectSpec(pages, maxPages, wanted, detail, shape, limit).Results?
    ensures var hits := CollectSpec(pages, maxPages, wanted, detail, shape, limit).hits;
      && (limit.None? ==> |hits| == |Listed(pages, maxPages)|)
      && (forall i :: 0 <= i < |hits| ==> i < |Listed(pages, maxPages)|
                                          && hits[i] == shape(detail(Listed(pages, maxPages)[i]).value))
  {
    var items := Listed(pages, maxPages);
    var all := Hits(items, wanted, detail, shape);
    AllWantedAllHit(items, wanted, detail, shape);
    assert CollectSpec(pages, maxPages, wanted, detail, shape, limit).hits == Cap(all, limit);
  }

  /** Two shapings of the same hits: index by index, they shape the same detail. */
  lemma {:induction false} HitsAlike<A, B>(items: seq<Value>, wanted: Value -> bool, detail: Value -> Option<Value>,
                                           shapeA: Value -> A, shapeB: Value -> B)
    ensures |Hits(items, wanted, detail, shapeA)| == |Hits(items, wanted, detail, shapeB)|
    ensures forall i :: 0 <= i < |Hits(items, wanted, detail, shapeA)| ==>
      exists d :: Hits(items, wanted, detail, shapeA)[i] == shapeA(d) && Hits(items, wanted, detail, shapeB)[i] == shapeB(d)
    decreases |items|
  {
    if items != [] {
      var init := items[..|items| - 1];
      var last := items[|items| - 1];
      HitsAlike(init, wanted, detail, shapeA, shapeB);
      var a := Hits(items, wanted, detail, shapeA);
      var b := Hits(items, wanted, detail, shapeB);
      forall i | 0 <= i < |a|
        ensures exists d :: a[i] == shapeA(d) && b[i] == shapeB(d)
      {
        if i < |Hits(init, wanted, detail, shapeA)| {
          assert a[i] == Hits(init, wanted, detail, shapeA)[i];
          assert b[i] == Hits(init, wanted, detail, shapeB)[i];
        } else {
          var d := detail(last).value;
          assert a[i] == shapeA(d) && b[i] == shapeB(d);
        }
      }
    }
  }

  /**
   * The scan's decisions do not depend on how hits are shaped: two
   * shapings give the same kind of answer, and the same number of hits,
   * index by index shaping the same detail.
   */
  lemma CollectShapesAlike<A, B>(pages: seq<ListResponse>, maxPages: nat, wanted: Value -> bool,
                                 detail: Value -> Option<Value>, shapeA: Value -> A, shapeB: Value -> B, limit: Limit)
    ensures CollectSpec(pages, maxPages, wanted, detail, shapeA, limit).Results?
         == CollectSpec(pages, maxPages, wanted, detail, shapeB, limit).Results?
    ensures CollectSpec(pages, maxPages, wanted, detail, shapeA, limit).Results? ==>
      var a := CollectSpec(pages, maxPages, wanted, detail, shapeA, limit).hits;
      var b := CollectSpec(pages, maxPages, wanted, detail, shapeB, limit).hits;
      |a| == |b| && forall i :: 0 <= i < |a| ==> exists d :: a[i] == shapeA(d) && b[i] == shapeB(d)
  {
    var items := Listed(pages, maxPages);
    HitsAlike(items, wanted, detail, shapeA, shapeB);
    var ha := Hits(items, wanted, detail, shapeA);
    var hb := Hits(items, wanted, detail, shapeB);
    if CollectSpec(pages, maxPages, wanted, detail, shapeA, limit).Results? {
      var a := CollectSpec(pages, maxPages, wanted, detail, shapeA, limit).hits;
      var b := CollectSpec(pages, maxPages, wanted, detail, shapeB, limit).hits;
      assert a == Cap(ha, limit) && b == Cap(hb, limit);
      forall i | 0 <= i < |a|
        ensures exists d :: a[i] == shapeA(d) && b[i] == shapeB(d)
      {
        assert a[i] == ha[i] && b[i] == hb[i];
      }
    }
  }
}
