/**
 * The `/api/products` route of api/index.js: the same scan as
 * api/products.js behind the `checkKey` middleware, with its own price
 * fallback and buy-URL builder, against the base `STORE_BASE_URL`.
 */
module IndexApi {
  import opened JsString
  import opened JsValue
  import opened Locale
  import opened Auth
  import opened BuyLinks
  import opened Limits
  import opened Matching
  import opened Catalog
  import opened Http
  import ProductsApi

  /** The list pages the route scans at most. */
  const MaxPages: nat := 30

  /**
   * The route's price: the locale pick of `data.price` when non-empty,
   * else the first variant's price when not null or undefined, else
   * `null`. A bare number is not used: `pickLang` of a number is "".
   */
  function IndexPrice(data: Value): (r: Value)
    ensures Truthy(PickLang(Get(data, "price"))) ==> r == PickLang(Get(data, "price"))
    ensures !Truthy(PickLang(Get(data, "price"))) ==> r == ProductsApi.VariantPrice(data)
  {
    var priceLang := PickLang(Get(data, "price"));
    if Truthy(priceLang) then priceLang else ProductsApi.VariantPrice(data)
  }

  /**
   * The price block as the route writes it: start from `null`, take the
   * locale pick when it is truthy, then fall back to the first variant.
   */
  method PriceOf(data: Value) returns (price: Value)
    ensures price == IndexPrice(data)
  {
    price := Null;
    var priceLang := PickLang(Get(data, "price"));
    if Truthy(priceLang) {
      price := priceLang;
    }
    var variants := Get(data, "variants");
    if !Truthy(price) && variants.Arr? && |variants.elems| > 0 && !Nullish(Get(variants.elems[0], "price")) {
      price := Get(variants.elems[0], "price");
    }
  }

  /**
   * Where the two handlers' prices differ: a non-zero numeric price is
   * kept by api/products.js but ignored by this route, which answers the
   * variant price instead (here `null`, with no variants).
   */
  lemma NumericPriceIgnored(data: Value, n: int)
    requires Get(data, "price") == Num(n) && n != 0
    requires !IsNonEmptyArray(Get(data, "variants"))
    ensures ProductsApi.GetPrice(data) == Num(n)
    ensures IndexPrice(data) == Null
  {
    PickLangOfNumber(n);
  }

  /** Where the price is a locale object with a non-empty pick, both handlers agree. */
  lemma LocalePricesAgree(data: Value)
    requires Get(data, "price").Obj? && Truthy(PickLang(Get(data, "price")))
    ensures IndexPrice(data) == ProductsApi.GetPrice(data)
  {
  }

  /** One result: `{id, name, price, buy_url: buildBuyUrl(data.permalink)}`. */
  function IndexHit(data: Value, base: string): (r: Hit)
    ensures r.id == Get(data, "id")
    ensures r.name == DisplayName(data)
    ensures Truthy(r.name) || r.name == Str("")
    ensures r.price == IndexPrice(data)
    ensures r.buyUrl == IndexBuyUrl(Get(data, "permalink"), base)
  {
    Hit(Get(data, "id"), DisplayName(data), IndexPrice(data), IndexBuyUrl(Get(data, "permalink"), base))
  }

  /** The shaping of a detail into a result, as the scan uses it. */
  function Shape(base: string): Value -> Hit {
    d => IndexHit(d, base)
  }

  /** The base URL results are joined to: `STORE_BASE_URL`. */
  function BaseOf(env: Env): (r: string)
    ensures r <= env.storeBase
    ensures r == [] || r[|r| - 1] != '/'
  {
    StripTrailingSlashes(env.storeBase)
  }

  /** What the route answers for a request, a catalog and a detail endpoint. */
  function Search(req: Request, env: Env, pages: seq<ListResponse>, detail: Value -> Option<Value>): (r: Response)
    ensures r.Unauthorized? <==> !CheckKey(req.queryKey, req.headerKey, env.apiKey)
    ensures r.Found? && RequestLimit(req.limit).Some? ==> |r.hits| <= RequestLimit(req.limit).value
    ensures r.Passed? ==> !IsOk(r.status) && exists k :: 1 <= k <= MaxPages && PageAt(pages, k).status == r.status && PageAt(pages, k).body == r.body
  {
    if !CheckKey(req.queryKey, req.headerKey, env.apiKey) then Unauthorized
    else
      match CollectSpec(pages, MaxPages, ProductsApi.Wanted(QueryOf(req)), detail, Shape(BaseOf(env)), RequestLimit(req.limit))
      case Results(hits) => Found(hits)
      case Upstream(status, body) => Passed(status, body)
  }

  /** The route: the `checkKey` middleware, then the scan. */
  method Handle(req: Request, env: Env, pages: seq<ListResponse>, detail: Value -> Option<Value>)
    returns (resp: Response)
    ensures resp == Search(req, env, pages, detail)
  {
    if !CheckKey(req.queryKey, req.headerKey, env.apiKey) {
      return Unauthorized;
    }
    var q := Trim(req.q);
    var limit := RequestLimit(req.limit);
    var base := StripTrailingSlashes(env.storeBase);
    var qNorm := Normalizer.Normalize(q);
    var outcome := CollectMatches(pages, MaxPages, ProductsApi.Wanted(qNorm), detail, Shape(base), limit);
    match outcome
    case Results(hits) => resp := Found(hits);
    case Upstream(status, body) => resp := Passed(status, body);
  }

  /**
   * Every result is the shaped detail of a listed item that matched the
   * normalized query and whose detail fetch was ok; its name is the
   * locale name, else the handle, else "".
   */
  lemma SearchSound(req: Request, env: Env, pages: seq<ListResponse>, detail: Value -> Option<Value>, h: Hit)
    requires Search(req, env, pages, detail).Found?
    requires h in Search(req, env, pages, detail).hits
    ensures exists i :: 0 <= i < |Listed(pages, MaxPages)|
                        && Matches(QueryOf(req), Listed(pages, MaxPages)[i])
                        && detail(Listed(pages, MaxPages)[i]).Some?
                        && h == IndexHit(detail(Listed(pages, MaxPages)[i]).value, BaseOf(env))
                        && h.name == DisplayName(detail(Listed(pages, MaxPages)[i]).value)
  {
    var items := Listed(pages, MaxPages);
    var w := ProductsApi.Wanted(QueryOf(req));
    var outcome := CollectSpec(pages, MaxPages, w, detail, Shape(BaseOf(env)), RequestLimit(req.limit));
    assert outcome.Results? && Search(req, env, pages, detail).hits == outcome.hits;
    CollectSound(pages, MaxPages, w, detail, Shape(BaseOf(env)), RequestLimit(req.limit), h);
    var i :| 0 <= i < |items| && w(items[i]) && detail(items[i]).Some?
             && h == Shape(BaseOf(env))(detail(items[i]).value);
    var d := detail(items[i]).value;
    assert h == IndexHit(d, BaseOf(env)) && h.name == DisplayName(d);
    assert Matches(QueryOf(req), items[i]);
  }

  /**
   * The two handlers search alike: with the same base, the same catalog
   * and the same detail endpoint, they return results for the same items,
   * differing only in the price and buy-URL rules.
   */
  lemma SameItemsAsProducts(req: Request, env: Env, pages: seq<ListResponse>, detail: Value -> Option<Value>)
    requires env.storeBase == env.storeBaseMtb
    ensures Search(req, env, pages, detail).Unauthorized? == ProductsApi.Search(req, env, pages, detail).Unauthorized?
    ensures Search(req, env, pages, detail).Found? == ProductsApi.Search(req, env, pages, detail).Found?
    ensures Search(req, env, pages, detail).Found? ==>
      var mine := Search(req, env, pages, detail).hits;
      var theirs := ProductsApi.Search(req, env, pages, detail).hits;
      |mine| == |theirs| && forall i :: 0 <= i < |mine| ==> mine[i].id == theirs[i].id && mine[i].name == theirs[i].name
  {
    var w := ProductsApi.Wanted(QueryOf(req));
    var limit := RequestLimit(req.limit);
    var base := BaseOf(env);
    if CheckKey(req.queryKey, req.headerKey, env.apiKey) {
      CollectShapesAlike(pages, MaxPages, w, detail, Shape(base), ProductsApi.Shape(base), limit);
    }
  }
}
