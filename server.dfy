/**
 * server.js, the Express server: every route first runs the shared key
 * check. `/api/products` filters one upstream page by a lower-cased term,
 * cuts it to `limit` and projects each item field by field;
 * `/api/orders/:id` looks an order up by id and falls back to a search by
 * visible order number; `/api/orders/:id/shipping` shapes an order's
 * address. Every shaped field is a `||` chain ending in a default.
 */
module Server {
  import opened JsString
  import opened JsValue
  import opened Locale
  import opened Auth
  import opened Catalog
  import ProductsApi

  /** The credentials of a request: the `key` parameter and the `x-api-key` header, "" when absent. */
  datatype Credentials = Credentials(queryKey: string, headerKey: string)

  /** What the server's routes answer. */
  datatype Reply =
    | Unauthorized                      // 401 bad_key
    | PassedOn(status: int, body: Value) // an upstream failure passed on
    | ProxyError                        // 500: the upstream body could not be used
    | NotFound                          // 404 Order not found
    | Products(list: seq<Product>)
    | Order(summary: OrderSummary)
    | Shipping(info: ShippingInfo)

  // ---------------------------------------------------------------------
  // /api/products

  /** `v && (v.es || v.pt || v.en)`: a falsy field as it is, else its locale pick. */
  function LocaleField(v: Value): (r: Value)
    ensures !Truthy(v) ==> r == v
    ensures Truthy(v) ==> r == LocaleOr(v)
    ensures Truthy(r) <==> Truthy(v) && Truthy(LocaleOr(v))
  {
    And(v, LocaleOr(v))
  }

  /** `typeof v === 'string' ? v.toLowerCase() : ''` */
  function LowerIfString(v: Value): (r: string)
    ensures v.Str? ==> r == Lower(v.s)
    ensures !v.Str? ==> r == ""
  {
    if v.Str? then Lower(v.s) else ""
  }

  /**
   * The local filter: a blank term keeps every item; otherwise an item is
   * kept when its lower-cased locale name or handle (each only when it is
   * a string) contains the term. There is no diacritic folding.
   */
  predicate Keeps(term: string, p: Value) {
    term == "" || NamedBy(term, p)
  }

  /** The lower-cased locale name or handle, each only when it is a string, contains the term. */
  predicate NamedBy(term: string, p: Value) {
    var name := LowerIfString(Or(LocaleField(Get(p, "name")), Str("")));
    var handle := LowerIfString(Get(p, "handle"));
    Includes(name, term) || Includes(handle, term)
  }

  /** `items.filter(p => Keeps(term, p))` */
  function Filter(items: seq<Value>, term: string): (r: seq<Value>)
    ensures |r| <= |items|
  {
    if items == [] then []
    else
      var init := Filter(items[..|items| - 1], term);
      var last := items[|items| - 1];
      if Keeps(term, last) then init + [last] else init
  }

  /** An item is kept exactly when it was listed and passes the filter. */
  lemma {:induction false} FilterMembers(items: seq<Value>, term: string)
    ensures forall x :: x in Filter(items, term) <==> x in items && Keeps(term, x)
  {
    if items != [] {
      var init := items[..|items| - 1];
      var last := items[|items| - 1];
      FilterMembers(init, term);
      assert items == init + [last];
    }
  }

  /** Filtering keeps the catalog order: filtering a concatenation concatenates the filtered parts. */
  lemma {:induction false} FilterAppend(a: seq<Value>, b: seq<Value>, term: string)
    ensures Filter(a + b, term) == Filter(a, term) + Filter(b, term)
    decreases |b|
  {
    if b == [] {
      assert a + b == a;
    } else {
      var init := b[..|b| - 1];
      assert (a + b)[..|a + b| - 1] == a + init;
      FilterAppend(a, init, term);
    }
  }

  /** A term that is blank after lower-casing and trimming keeps every item, in order. */
  lemma {:induction false} BlankTermKeepsAll(items: seq<Value>)
    ensures Filter(items, "") == items
  {
    if items != [] {
      var init, last := items[..|items| - 1], items[|items| - 1];
      assert Filter(items, "") == Filter(init, "") + [last] by {
        assert Keeps("", last);
      }
      BlankTermKeepsAll(init);
      assert init + [last] == items;
    }
  }

  /** Between strings of the same length, containment is equality. */
  lemma IncludesSameLength(s: string, t: string)
    requires |s| == |t|
    ensures Includes(s, t) <==> s == t
  {
    if Includes(s, t) {
      var i :| 0 <= i <= |s| - |t| && t <= s[i..];
      assert s[0..] == s;
    }
    if s == t {
      assert t <= s[0..];
    }
  }

  /**
   * The filter does not fold diacritics: a term ending in "e" does not find
   * an item whose Spanish name is the same text ending in "é" ("cafe" does
   * not find "café").
   */
  lemma NoDiacriticFolding(stem: string)
    ensures !Keeps(stem + "e", Obj(map["name" := Obj(map["es" := Str(stem + "\U{E9}")])]))
  {
    var name, term := stem + "\U{E9}", stem + "e";
    var p := Obj(map["name" := Obj(map["es" := Str(name)])]);
    assert LocaleField(Get(p, "name")) == Str(name);
    var lowered := Lower(name);
    assert lowered != term by {
      assert lowered[|stem|] == LowerChar('\U{E9}') == '\U{E9}';
      assert term[|stem|] == 'e';
    }
    IncludesSameLength(lowered, term);
    assert Get(p, "handle") == Undefined;
    assert !Includes("", term);
  }

  /**
   * `s.slice(0, end)`: the first `end` elements, or, for a negative `end`,
   * all but the last `-end`.
   */
  function SliceTo<T>(s: seq<T>, end: int): (r: seq<T>)
    ensures r <= s
    ensures 0 <= end ==> |r| == (if end < |s| then end else |s|)
    ensures end < 0 ==> |r| == (if |s| + end > 0 then |s| + end else 0)
  {
    var stop := if end < 0 then |s| + end else end;
    if stop <= 0 then [] else if stop >= |s| then s else s[..stop]
  }

  /** The upstream item as the route returns it. */
  datatype Product = Product(
    id: Value, name: Value, price: Value, comparePrice: Value, sku: Value,
    available: Value, permalink: Value, description: Value, image: Value)

  /**
   * A price field before any fallback: a truthy number is kept, a truthy
   * object gives its first truthy `es`, `pt`, `en`, and anything else
   * (a string included) gives `null`.
   */
  function DirectPrice(v: Value): (r: Value)
    ensures r == Null || Truthy(r)
    ensures v.Num? && v.n != 0 ==> r == v
    ensures Truthy(v) && !v.Num? && Truthy(LocaleOr(v)) ==> r == LocaleOr(v)
    ensures Truthy(v) && !v.Num? && !Truthy(LocaleOr(v)) ==> r == Null
    ensures v.Str? || !Truthy(v) ==> r == Null
  {
    if !Truthy(v) then Null
    else if v.Num? then v
    else if Truthy(LocaleOr(v)) then LocaleOr(v)
    else Null
  }

  /** The `price` of a projected item: its direct price, else the truthy price of its first variant, else `null`. */
  function ServerPrice(p: Value): (r: Value)
    ensures r == Null || Truthy(r)
    ensures Truthy(DirectPrice(Get(p, "price"))) ==> r == DirectPrice(Get(p, "price"))
    ensures (!Truthy(DirectPrice(Get(p, "price"))) && IsNonEmptyArray(Get(p, "variants"))
             && Truthy(Get(Get(p, "variants").elems[0], "price")))
            ==> r == Get(Get(p, "variants").elems[0], "price")
    ensures (!Truthy(DirectPrice(Get(p, "price")))
             && !(IsNonEmptyArray(Get(p, "variants")) && Truthy(Get(Get(p, "variants").elems[0], "price"))))
            ==> r == Null
  {
    var direct := DirectPrice(Get(p, "price"));
    var variants := Get(p, "variants");
    if !Truthy(direct) && variants.Arr? && |variants.elems| > 0 && Truthy(Get(variants.elems[0], "price"))
    then Get(variants.elems[0], "price")
    else direct
  }

  /** The `compare_price` of a projected item: the direct price logic, with no variant fallback. */
  function ComparePrice(p: Value): (r: Value)
    ensures r == Null || Truthy(r)
    ensures r == DirectPrice(Get(p, "compare_at_price"))
  {
    DirectPrice(Get(p, "compare_at_price"))
  }

  /** The price logic as the route runs it, reassigning `price` and `comparePrice` step by step. */
  method ExtractPrices(p: Value) returns (price: Value, comparePrice: Value)
    ensures price == ServerPrice(p)
    ensures comparePrice == ComparePrice(p)
  {
    price := Null;
    var given := Get(p, "price");
    if Truthy(given) {
      if given.Num? {
        price := given;
      } else if Truthy(LocaleOr(given)) {
        price := LocaleOr(given);
      }
    }
    var variants := Get(p, "variants");
    if !Truthy(price) && variants.Arr? && |variants.elems| > 0 {
      var firstVar := variants.elems[0];
      if Truthy(Get(firstVar, "price")) {
        price := Get(firstVar, "price");
      }
    }
    comparePrice := Null;
    var compare := Get(p, "compare_at_price");
    if Truthy(compare) {
      if compare.Num? {
        comparePrice := compare;
      } else if Truthy(LocaleOr(compare)) {
        comparePrice := LocaleOr(compare);
      }
    }
  }

  /**
   * A price given as a plain string, or as the number 0, is not used:
   * the price is the first variant's when that is truthy, else `null`.
   */
  lemma StringOrZeroPriceFallsToVariant(p: Value)
    requires Get(p, "price").Str? || Get(p, "price") == Num(0)
    ensures Get(p, "variants").Arr? && |Get(p, "variants").elems| > 0 && Truthy(Get(Get(p, "variants").elems[0], "price"))
            ==> ServerPrice(p) == Get(Get(p, "variants").elems[0], "price")
    ensures !(Get(p, "variants").Arr? && |Get(p, "variants").elems| > 0) ==> ServerPrice(p) == Null
  {
  }

  /**
   * The copies disagree on a price of 0 or a non-empty string: api/products.js
   * answers it as it is, the server does not use it, and without variants
   * answers `null`.
   */
  lemma PriceCopiesDisagree(p: Value)
    requires Get(p, "price") == Num(0) || (Get(p, "price").Str? && Get(p, "price").s != "")
    requires !IsNonEmptyArray(Get(p, "variants"))
    ensures ProductsApi.GetPrice(p) == Get(p, "price")
    ensures ServerPrice(p) == Null
  {
    StringOrZeroPriceFallsToVariant(p);
  }

  /**
   * The copies agree on a non-zero number, on a locale object with a
   * truthy `es`, `pt` or `en`, and on a missing price whose first variant
   * has a truthy price or which has no variants.
   */
  lemma PriceCopiesAgree(p: Value)
    ensures var v := Get(p, "price");
      (v.Num? && v.n != 0) || (v.Obj? && Truthy(LocaleOr(v))) ==> ServerPrice(p) == ProductsApi.GetPrice(p)
    ensures var variants := Get(p, "variants");
      Nullish(Get(p, "price")) && (!IsNonEmptyArray(variants) || Truthy(Get(variants.elems[0], "price")))
      ==> ServerPrice(p) == ProductsApi.GetPrice(p)
  {
    var v := Get(p, "price");
    if v.Obj? && Truthy(LocaleOr(v)) {
      assert PickLang(v) == LocaleOr(v);
    }
  }

  /** `compare_price` is the price logic applied to `compare_at_price`, without the variant fallback. */
  lemma CompareIsPriceWithoutVariants(p: Value)
    ensures ComparePrice(p) == ServerPrice(Obj(map["price" := Get(p, "compare_at_price")]))
  {
    var q := Obj(map["price" := Get(p, "compare_at_price")]);
    assert Get(q, "price") == Get(p, "compare_at_price");
    assert Get(q, "variants") == Undefined;
  }

  /**
   * `p.images && p.images.length > 0 ? p.images[0].src : null`: the first
   * image's `src` for a non-empty array; a non-empty string has a length
   * but its first character has no `src`.
   */
  function ImageOf(images: Value): (r: Value)
    ensures images.Arr? && |images.elems| > 0 ==> r == Get(images.elems[0], "src")
    ensures !Truthy(images) || (images.Arr? && images.elems == []) ==> r == Null
  {
    if !Truthy(images) then Null
    else match images
      case Arr(es) => if |es| > 0 then Get(es[0], "src") else Null
      case Str(_) => Undefined
      case _ => Null
  }

  /** The projection of one upstream item. */
  function Project(p: Value): (r: Product)
    ensures r.id == Get(p, "id") && r.available == Get(p, "published")
    ensures r.price == ServerPrice(p) && r.comparePrice == ComparePrice(p)
    ensures Truthy(LocaleField(Get(p, "name"))) ==> r.name == LocaleOr(Get(p, "name"))
    ensures !Truthy(LocaleField(Get(p, "name"))) && Truthy(Get(p, "handle")) ==> r.name == Get(p, "handle")
    ensures !Truthy(LocaleField(Get(p, "name"))) && !Truthy(Get(p, "handle")) ==> r.name == Str("")
    ensures Truthy(Get(p, "sku")) ==> r.sku == Get(p, "sku")
    ensures !Truthy(Get(p, "sku")) ==> r.sku == Null
    ensures Truthy(Get(p, "permalink")) ==> r.permalink == Get(p, "permalink")
    ensures !Truthy(Get(p, "permalink")) ==> r.permalink == Null
    ensures Truthy(LocaleField(Get(p, "description"))) ==> r.description == LocaleOr(Get(p, "description"))
    ensures !Truthy(LocaleField(Get(p, "description"))) ==> r.description == Null
    ensures r.image == ImageOf(Get(p, "images"))
  {
    Product(
      Get(p, "id"),
      Or(LocaleField(Get(p, "name")), Or(Get(p, "handle"), Str(""))),
      ServerPrice(p),
      ComparePrice(p),
      Or(Get(p, "sku"), Null),
      Get(p, "published"),
      Or(Get(p, "permalink"), Null),
      Or(LocaleField(Get(p, "description")), Null),
      ImageOf(Get(p, "images")))
  }

  /**
   * The server names an item as the search handlers do, except for a name
   * given as a plain string, which only `pickLang` reads: a non-empty one
   * is the search handlers' name, while the server falls back to the handle.
   */
  lemma ProjectNameAgrees(p: Value)
    ensures !Get(p, "name").Str? ==> Project(p).name == DisplayName(p)
    ensures Get(p, "name").Str? && Get(p, "name").s != "" ==>
      DisplayName(p) == Get(p, "name") && Project(p).name == Or(Get(p, "handle"), Str(""))
  {
    var name := Get(p, "name");
    if Truthy(name) && !name.Str? {
      assert LocaleField(name) == LocaleOr(name);
    }
    if name.Str? {
      assert LocaleOr(name) == Undefined by {
        assert Get(name, "es") == Get(name, "pt") == Get(name, "en") == Undefined;
      }
    }
  }

  /** `.map(Project)` */
  function ProjectAll(items: seq<Value>): (r: seq<Product>)
    ensures |r| == |items|
    ensures forall i :: 0 <= i < |items| ==> r[i] == Project(items[i])
  {
    seq(|items|, i requires 0 <= i < |items| => Project(items[i]))
  }

  /** The `/api/products` query: `q` ("" when absent) and `limit` as a number, `None` when absent. */
  datatype ProductsQuery = ProductsQuery(q: string, limit: Option<int>)

  /** The default of `limit` when the query has none. */
  const DefaultLimit: int := 20

  /** The filter term: the query lower-cased, then trimmed. */
  function TermOf(q: string): string {
    Trim(Lower(q))
  }

  /**
   * `/api/products` given the one upstream page it reads: an upstream
   * failure is passed on, a body that is not an array fails the route,
   * and otherwise the filtered items are cut to `limit` and projected.
   */
  function ListProducts(cred: Credentials, apiKey: string, query: ProductsQuery, resp: ListResponse): (r: Reply)
    ensures r.Unauthorized? <==> !CheckKey(cred.queryKey, cred.headerKey, apiKey)
    ensures r.PassedOn? <==> CheckKey(cred.queryKey, cred.headerKey, apiKey) && !IsOk(resp.status)
    ensures r.PassedOn? ==> r.status == resp.status && r.body == resp.body
    ensures r.Products? ==> resp.body.Arr? && |r.list| <= |resp.body.elems|
    ensures r.Unauthorized? || r.PassedOn? || r.ProxyError? || r.Products?
  {
    if !CheckKey(cred.queryKey, cred.headerKey, apiKey) then Unauthorized
    else if !IsOk(resp.status) then PassedOn(resp.status, resp.body)
    else if !resp.body.Arr? then ProxyError
    else
      var limit := if query.limit.Some? then query.limit.value else DefaultLimit;
      Products(ProjectAll(SliceTo(Filter(resp.body.elems, TermOf(query.q)), limit)))
  }

  /**
   * With a non-negative limit, the route lists the first `limit` kept
   * items, in catalog order, each projected; every listed item passed the
   * filter.
   */
  lemma ListsFirstKeptItems(cred: Credentials, apiKey: string, query: ProductsQuery, resp: ListResponse)
    requires CheckKey(cred.queryKey, cred.headerKey, apiKey) && IsOk(resp.status) && resp.body.Arr?
    requires query.limit.None? || query.limit.value >= 0
    ensures var kept := Filter(resp.body.elems, TermOf(query.q));
      var limit := if query.limit.Some? then query.limit.value else DefaultLimit;
      var r := ListProducts(cred, apiKey, query, resp);
      && r.Products?
      && |r.list| == (if limit < |kept| then limit else |kept|)
      && forall i :: 0 <= i < |r.list| ==> r.list[i] == Project(kept[i]) && Keeps(TermOf(query.q), kept[i])
  {
    var kept := Filter(resp.body.elems, TermOf(query.q));
    var limit := if query.limit.Some? then query.limit.value else DefaultLimit;
    assert ListProducts(cred, apiKey, query, resp) == Products(ProjectAll(SliceTo(kept, limit)));
    ProjectsPrefix(kept, limit);
    KeptItemsPass(resp.body.elems, TermOf(query.q));
  }

  /** Every item the filter keeps passes it. */
  lemma KeptItemsPass(items: seq<Value>, term: string)
    ensures forall i :: 0 <= i < |Filter(items, term)| ==> Keeps(term, Filter(items, term)[i])
  {
    var kept := Filter(items, term);
    FilterMembers(items, term);
    forall i | 0 <= i < |kept| ensures Keeps(term, kept[i]) {
      assert kept[i] in kept;
    }
  }

  /** Projecting the first `limit` items projects each of them in place. */
  lemma ProjectsPrefix(kept: seq<Value>, limit: int)
    requires limit >= 0
    ensures |ProjectAll(SliceTo(kept, limit))| == (if limit < |kept| then limit else |kept|)
    ensures forall i :: 0 <= i < |ProjectAll(SliceTo(kept, limit))| ==> ProjectAll(SliceTo(kept, limit))[i] == Project(kept[i])
  {
    var cut := SliceTo(kept, limit);
    forall i | 0 <= i < |cut| ensures ProjectAll(cut)[i] == Project(kept[i]) {
      assert cut[i] == kept[i];
    }
  }

  /** The absent query gives the blank term. */
  lemma BlankTerm()
    ensures TermOf("") == ""
  {
    assert Lower("") == "";
    TrimNoop("");
  }

  /** Without a `limit`, a blank query lists the first 20 items of the page. */
  lemma BlankQueryListsPage(cred: Credentials, apiKey: string, resp: ListResponse)
    requires CheckKey(cred.queryKey, cred.headerKey, apiKey) && IsOk(resp.status) && resp.body.Arr?
    ensures ListProducts(cred, apiKey, ProductsQuery("", None), resp)
            == Products(ProjectAll(SliceTo(resp.body.elems, DefaultLimit)))
  {
    BlankTerm();
    BlankTermKeepsAll(resp.body.elems);
  }

  // ---------------------------------------------------------------------
  // /api/orders/:id

  /** The summary of an order. */
  datatype OrderSummary = OrderSummary(
    id: Value, number: Value, status: Value, shippingCompany: Value, tracking: Value,
    shippingStatus: Value, createdAt: Value, updatedAt: Value)

  /**
   * `data.<top> || data.shipping?.<nested> || null`: the top-level field
   * when truthy, else the nested field of `shipping` when truthy, else
   * `null`.
   */
  function ShippingFallback(data: Value, top: string, nested: string): (r: Value)
    ensures Truthy(Get(data, top)) ==> r == Get(data, top)
    ensures !Truthy(Get(data, top)) && Truthy(Get(Get(data, "shipping"), nested)) ==> r == Get(Get(data, "shipping"), nested)
    ensures !Truthy(Get(data, top)) && !Truthy(Get(Get(data, "shipping"), nested)) ==> r == Null
  {
    Or(Get(data, top), Or(Get(Get(data, "shipping"), nested), Null))
  }

  /** The summary the order route answers for an order record. */
  function Summary(data: Value): (r: OrderSummary)
    ensures r.id == Get(data, "id") && r.number == Get(data, "number") && r.status == Get(data, "status")
    ensures r.createdAt == Get(data, "created_at") && r.updatedAt == Get(data, "updated_at")
    ensures r.shippingCompany == ShippingFallback(data, "shipping_company", "shipping_company")
    ensures r.tracking == ShippingFallback(data, "shipping_tracking_number", "tracking_number")
    ensures r.shippingStatus == ShippingFallback(data, "shipping_status", "status")
  {
    OrderSummary(
      Get(data, "id"), Get(data, "number"), Get(data, "status"),
      ShippingFallback(data, "shipping_company", "shipping_company"),
      ShippingFallback(data, "shipping_tracking_number", "tracking_number"),
      ShippingFallback(data, "shipping_status", "status"),
      Get(data, "created_at"), Get(data, "updated_at"))
  }

  /**
   * The lookup given the answer to the id request and the answer the
   * number search would give: only a 404 on the id triggers the search,
   * whose first result is used, and an empty or non-array search result
   * is a 404.
   */
  function OrderLookup(byId: ListResponse, byNumber: ListResponse): (r: Reply)
    ensures r.PassedOn? || r.NotFound? || r.Order?
    ensures r.PassedOn? ==> !IsOk(r.status)
    ensures r.PassedOn? <==> (byId.status == 404 && !IsOk(byNumber.status)) || (byId.status != 404 && !IsOk(byId.status))
    ensures r.PassedOn? && byId.status == 404 ==> r.status == byNumber.status && r.body == byNumber.body
    ensures r.PassedOn? && byId.status != 404 ==> r.status == byId.status && r.body == byId.body
    ensures r.NotFound? <==> byId.status == 404 && IsOk(byNumber.status) && !IsNonEmptyArray(byNumber.body)
  {
    if byId.status == 404 then
      if !IsOk(byNumber.status) then PassedOn(byNumber.status, byNumber.body)
      else if !IsNonEmptyArray(byNumber.body) then NotFound
      else Order(Summary(byNumber.body.elems[0]))
    else if !IsOk(byId.status) then PassedOn(byId.status, byId.body)
    else Order(Summary(byId.body))
  }

  /** The route as it runs: `r` is reassigned to the number search after a 404. */
  method LookupOrder(byId: ListResponse, byNumber: ListResponse) returns (reply: Reply)
    ensures reply == OrderLookup(byId, byNumber)
  {
    var r := byId;
    if r.status == 404 {
      r := byNumber;
      var arr := r.body;
      if !IsOk(r.status) {
        return PassedOn(r.status, arr);
      }
      if !IsNonEmptyArray(arr) {
        return NotFound;
      }
      var data := arr.elems[0];
      return Order(Summary(data));
    }
    var data := r.body;
    if !IsOk(r.status) {
      return PassedOn(r.status, data);
    }
    reply := Order(Summary(data));
  }

  /** `/api/orders/:id`: the key check, then the lookup. */
  function OrderRoute(cred: Credentials, apiKey: string, byId: ListResponse, byNumber: ListResponse): (r: Reply)
    ensures r.Unauthorized? <==> !CheckKey(cred.queryKey, cred.headerKey, apiKey)
    ensures !r.Unauthorized? ==> r == OrderLookup(byId, byNumber)
  {
    if !CheckKey(cred.queryKey, cred.headerKey, apiKey) then Unauthorized else OrderLookup(byId, byNumber)
  }

  /** The number search is consulted only after a 404 on the id. */
  lemma FallbackOnlyAfter404(byId: ListResponse, byNumber: ListResponse, other: ListResponse)
    requires byId.status != 404
    ensures OrderLookup(byId, byNumber) == OrderLookup(byId, other)
    ensures IsOk(byId.status) ==> OrderLookup(byId, byNumber) == Order(Summary(byId.body))
  {
  }

  /** After a 404 on the id, a successful number search answers the summary of its first order. */
  lemma FallbackUsesFirstResult(byId: ListResponse, byNumber: ListResponse)
    requires byId.status == 404 && IsOk(byNumber.status) && IsNonEmptyArray(byNumber.body)
    ensures OrderLookup(byId, byNumber) == Order(Summary(byNumber.body.elems[0]))
  {
  }

  // ---------------------------------------------------------------------
  // /api/orders/:id/shipping

  datatype Address = Address(line1: string, line2: Value, city: Value, province: Value, zip: Value, country: Value)

  datatype ShippingInfo = ShippingInfo(
    name: Value, email: Value, phone: Value, address: Address,
    shippingCompany: Value, tracking: Value, status: Value)

  /** `.filter(Boolean)` followed by the string conversion `join` applies. */
  function TruthyTexts(vs: seq<Value>): (r: seq<string>)
    ensures |r| <= |vs|
  {
    if vs == [] then []
    else
      var rest := TruthyTexts(vs[1..]);
      if Truthy(vs[0]) then [ToStr(vs[0])] + rest else rest
  }

  /** `[addr.address, addr.number].filter(Boolean).join(' ')` */
  function Line1(addr: Value): string {
    JoinWith(TruthyTexts([Get(addr, "address"), Get(addr, "number")]), " ")
  }

  /** `line1` is the truthy ones of the street and the number, separated by one space. */
  lemma Line1Cases(addr: Value)
    ensures var a := Get(addr, "address"); var n := Get(addr, "number");
      && (Truthy(a) && Truthy(n) ==> Line1(addr) == ToStr(a) + " " + ToStr(n))
      && (Truthy(a) && !Truthy(n) ==> Line1(addr) == ToStr(a))
      && (!Truthy(a) && Truthy(n) ==> Line1(addr) == ToStr(n))
      && (!Truthy(a) && !Truthy(n) ==> Line1(addr) == "")
  {
    var a := Get(addr, "address");
    var n := Get(addr, "number");
    var parts := [a, n];
    assert parts[1..] == [n];
    assert parts[1..][1..] == [];
    var tail := TruthyTexts([n]);
    assert tail == (if Truthy(n) then [ToStr(n)] else []);
    if Truthy(a) && Truthy(n) {
      assert TruthyTexts(parts) == [ToStr(a), ToStr(n)];
      assert [ToStr(a), ToStr(n)][1..] == [ToStr(n)];
    }
  }

  /** A lone space trims to "". */
  lemma TrimSpace()
    ensures Trim(" ") == ""
  {
    var r := Trim(" ");
    var i :| 0 <= i <= 1 - |r| && r <= " "[i..];
  }

  /** `` `${first || ''} ${last || ''}`.trim() ``: the address's full name. */
  function AddressName(addr: Value): string {
    Trim(TextOf(Get(addr, "first_name")) + " " + TextOf(Get(addr, "last_name")))
  }

  /**
   * `` `${first || ''} ${last || ''}`.trim() || data.customer?.name || null ``
   */
  function ShippingName(data: Value, addr: Value): (r: Value)
    ensures r == Null || Truthy(r)
    ensures AddressName(addr) != "" ==> r == Str(AddressName(addr))
    ensures AddressName(addr) == "" && Truthy(Get(Get(data, "customer"), "name")) ==> r == Get(Get(data, "customer"), "name")
    ensures AddressName(addr) == "" && !Truthy(Get(Get(data, "customer"), "name")) ==> r == Null
  {
    Or(Str(AddressName(addr)), Or(Get(Get(data, "customer"), "name"), Null))
  }

  /**
   * An address with a first and a last name, neither with white space at
   * its ends, is named by both, separated by one space.
   */
  lemma AddressNameUsed(data: Value, addr: Value, first: string, last: string)
    requires Get(addr, "first_name") == Str(first) && Get(addr, "last_name") == Str(last)
    requires first != [] && !IsSpace(first[0]) && !IsSpace(first[|first| - 1])
    requires last != [] && !IsSpace(last[0]) && !IsSpace(last[|last| - 1])
    ensures ShippingName(data, addr) == Str(first + " " + last)
  {
    var full := first + " " + last;
    assert TextOf(Get(addr, "first_name")) == first && TextOf(Get(addr, "last_name")) == last;
    assert full[0] == first[0] && full[|full| - 1] == last[|last| - 1];
    TrimNoop(full);
  }

  /** With neither a first nor a last name in the address, the name is the customer's, else `null`. */
  lemma NoAddressNameUsesCustomer(data: Value, addr: Value)
    requires !Truthy(Get(addr, "first_name")) && !Truthy(Get(addr, "last_name"))
    ensures ShippingName(data, addr) == Or(Get(Get(data, "customer"), "name"), Null)
  {
    assert TextOf(Get(addr, "first_name")) + " " + TextOf(Get(addr, "last_name")) == " ";
    TrimSpace();
    assert AddressName(addr) == "";
  }

  /** The shipping view of an order record; a missing address reads as `{}`. */
  function ShippingOf(data: Value): (r: ShippingInfo)
    ensures r.name == ShippingName(data, Or(Get(data, "shipping_address"), Obj(map[])))
    ensures r.address.line1 == Line1(Or(Get(data, "shipping_address"), Obj(map[])))
    ensures var addr := Or(Get(data, "shipping_address"), Obj(map[])); var customer := Get(data, "customer");
      && r.email == Or(Get(customer, "email"), Null)
      && r.phone == Or(Get(addr, "phone"), Or(Get(customer, "phone"), Null))
    ensures var addr := Or(Get(data, "shipping_address"), Obj(map[]));
      && r.address.line2 == Or(Get(addr, "floor"), Or(Get(addr, "comment"), Null))
      && r.address.city == Or(Get(addr, "city"), Null)
      && r.address.province == Or(Get(addr, "province"), Null)
      && r.address.zip == Or(Get(addr, "zipcode"), Null)
      && r.address.country == Or(Get(addr, "country"), Null)
    ensures r.shippingCompany == ShippingFallback(data, "shipping_company", "shipping_company")
    ensures r.tracking == ShippingFallback(data, "shipping_tracking_number", "tracking_number")
    ensures r.status == ShippingFallback(data, "shipping_status", "status")
  {
    var addr := Or(Get(data, "shipping_address"), Obj(map[]));
    var customer := Get(data, "customer");
    ShippingInfo(
      ShippingName(data, addr),
      Or(Get(customer, "email"), Null),
      Or(Get(addr, "phone"), Or(Get(customer, "phone"), Null)),
      Address(
        Line1(addr),
        Or(Get(addr, "floor"), Or(Get(addr, "comment"), Null)),
        Or(Get(addr, "city"), Null),
        Or(Get(addr, "province"), Null),
        Or(Get(addr, "zipcode"), Null),
        Or(Get(addr, "country"), Null)),
      ShippingFallback(data, "shipping_company", "shipping_company"),
      ShippingFallback(data, "shipping_tracking_number", "tracking_number"),
      ShippingFallback(data, "shipping_status", "status"))
  }

  /** `/api/orders/:id/shipping`: the key check, an upstream failure passed on, else the shipping view. */
  function ShippingRoute(cred: Credentials, apiKey: string, resp: ListResponse): (r: Reply)
    ensures r.Unauthorized? <==> !CheckKey(cred.queryKey, cred.headerKey, apiKey)
    ensures r.PassedOn? <==> CheckKey(cred.queryKey, cred.headerKey, apiKey) && !IsOk(resp.status)
    ensures r.Shipping? ==> r.info == ShippingOf(resp.body)
    ensures r.PassedOn? ==> r.status == resp.status && r.body == resp.body
    ensures CheckKey(cred.queryKey, cred.headerKey, apiKey) && IsOk(resp.status) ==> r == Shipping(ShippingOf(resp.body))
  {
    if !CheckKey(cred.queryKey, cred.headerKey, apiKey) then Unauthorized
    else if !IsOk(resp.status) then PassedOn(resp.status, resp.body)
    else Shipping(ShippingOf(resp.body))
  }

  /** An order without any address, customer or shipping data yields `null` in every optional field. */
  lemma EmptyOrderShipping()
    ensures var s := ShippingOf(Obj(map[]));
      && s.name == Null && s.email == Null && s.phone == Null
      && s.address == Address("", Null, Null, Null, Null, Null)
      && s.shippingCompany == Null && s.tracking == Null && s.status == Null
  {
    var empty := Obj(map[]);
    var s := ShippingOf(empty);
    assert Or(Get(empty, "shipping_address"), empty) == empty;
    assert s.name == Null by {
      NoAddressNameUsesCustomer(empty, empty);
    }
    assert s.address.line1 == "" by {
      Line1Cases(empty);
    }
  }

  /** Without a shipping address the name and the phone are the customer's, else `null`, and the address is empty. */
  lemma NoAddressUsesCustomer(data: Value)
    requires !Truthy(Get(data, "shipping_address"))
    ensures var s := ShippingOf(data); var customer := Get(data, "customer");
      && s.name == Or(Get(customer, "name"), Null)
      && s.phone == Or(Get(customer, "phone"), Null)
      && s.address == Address("", Null, Null, Null, Null, Null)
  {
    var empty := Obj(map[]);
    assert Or(Get(data, "shipping_address"), empty) == empty;
    NoAddressNameUsesCustomer(data, empty);
    Line1Cases(empty);
  }
}
