/**
 * api/products.js: the search handler of the Vercel function. It checks
 * the key, normalizes the query, scans up to 30 catalog pages collecting
 * the matching items whose detail fetch is ok, and shapes each one as
 * `{id, name, price, buy_url}` against the base `STORE_BASE_URL_MTB`.
 */
module ProductsApi {
  import opened JsString
  import opened JsValue
  import opened Locale
  import opened Normalizer
  import opened Auth
  import opened BuyLinks
  import opened Limits
  import opened Matching
  import opened Catalog
  import opened Http

  /** The list pages the handler scans at most. */
  const MaxPages: nat := 30

  /** The first variant's price when it is not null or undefined, else `null`. */
  function VariantPrice(p: Value): (r: Value)
    ensures IsNonEmptyArray(Get(p, "variants")) && !Nullish(Get(Get(p, "variants").elems[0], "price")) ==>
      r == Get(Get(p, "variants").elems[0], "price")
    ensures !(IsNonEmptyArray(Get(p, "variants")) && !Nullish(Get(Get(p, "variants").elems[0], "price"))) ==>
      r == Null
  {
    var variants := Get(p, "variants");
    if IsNonEmptyArray(variants) && !Nullish(Get(variants.elems[0], "price")) then
      Get(variants.elems[0], "price")
    else Null
  }

  /**
   * `getPrice(p)`: a numeric `price` as it is (0 included), else its
   * non-empty locale pick, else the first variant's non-null price, else
   * `null`.
   */
  function GetPrice(p: Value): (r: Value)
    ensures Get(p, "price").Num? ==> r == Get(p, "price")
    ensures !Nullish(Get(p, "price")) && !Get(p, "price").Num? && Truthy(PickLang(Get(p, "price"))) ==>
      r == PickLang(Get(p, "price"))
    ensures Nullish(Get(p, "price")) || (!Get(p, "price").Num? && !Truthy(PickLang(Get(p, "price")))) ==>
      r == VariantPrice(p)
  {
    var price := Get(p, "price");
    if !Nullish(price) && price.Num? then price
    else if !Nullish(price) && Truthy(PickLang(price)) then PickLang(price)
    else VariantPrice(p)
  }

  /**
   * The price is never `undefined`, and it comes from one of three places:
   * the top-level price, one of its locale fields, or the first variant's
   * price; otherwise it is `null`.
   */
  lemma GetPriceOrigin(p: Value)
    ensures !GetPrice(p).Undefined?
    ensures var price := Get(p, "price");
      || GetPrice(p) == price
      || GetPrice(p) in [Get(price, "es"), Get(price, "pt"), Get(price, "en")]
      || (IsNonEmptyArray(Get(p, "variants")) && GetPrice(p) == Get(Get(p, "variants").elems[0], "price"))
      || GetPrice(p) == Null
  {
  }

  /** A price of 0 is a number, so it is kept even when a variant has a price. */
  lemma ZeroPriceKept(p: Value)
    requires Get(p, "price") == Num(0)
    ensures GetPrice(p) == Num(0)
  {
  }

  /**
   * One result: `{id: data.id, name: pickLang(data.name) || data.handle || "",
   * price: getPrice(data), buy_url}`.
   */
  function ProductsHit(data: Value, base: string): (r: Hit)
    ensures r.id == Get(data, "id")
    ensures r.name == DisplayName(data)
    ensures Truthy(r.name) || r.name == Str("")
    ensures r.price == GetPrice(data)
    ensures r.buyUrl == ProductsBuyUrl(Get(data, "permalink"), base)
  {
    Hit(Get(data, "id"), DisplayName(data), GetPrice(data), ProductsBuyUrl(Get(data, "permalink"), base))
  }

  /** The match predicate for the normalized query, as the scan uses it. */
  function Wanted(qNorm: string): Value -> bool {
    p => Matches(qNorm, p)
  }

  /** The shaping of a detail into a result, as the scan uses it. */
  function Shape(base: string): Value -> Hit {
    d => ProductsHit(d, base)
  }

  /** The base URL results are joined to: `STORE_BASE_URL_MTB`. */
  function BaseOf(env: Env): string {
    StripTrailingSlashes(env.storeBaseMtb)
  }

  /** What the handler answers for a request, a catalog and a detail endpoint. */
  function Search(req: Request, env: Env, pages: seq<ListResponse>, detail: Value -> Option<Value>): (r: Response)
    ensures r.Unauthorized? <==> !CheckKey(req.queryKey, req.headerKey, env.apiKey)
    ensures r.Found? && RequestLimit(req.limit).Some? ==> |r.hits| <= RequestLimit(req.limit).value
    ensures r.Passed? ==> !IsOk(r.status) && exists k :: 1 <= k <= MaxPages && PageAt(pages, k).status == r.status && PageAt(pages, k).body == r.body
  {
    if !CheckKey(req.queryKey, req.headerKey, env.apiKey) then Unauthorized
    else
      var limit := RequestLimit(req.limit);
      match CollectSpec(pages, MaxPages, Wanted(QueryOf(req)), detail, Shape(BaseOf(env)), limit)
      case Results(hits) => Found(hits)
      case Upstream(status, body) => Passed(status, body)
  }

  /** The handler: the key check, then the scan. */
  method Handle(req: Request, env: Env, pages: seq<ListResponse>, detail: Value -> Option<Value>)
    returns (resp: Response)
    ensures resp == Search(req, env, pages, detail)
  {
    if !CheckKey(req.queryKey, req.headerKey, env.apiKey) {
      return Unauthorized;
    }
    var q := Trim(req.q);
    var limit := RequestLimit(req.limit);
    var base := StripTrailingSlashes(env.storeBaseMtb);
    var qNorm := Normalize(q);
    var outcome := CollectMatches(pages, MaxPages, Wanted(qNorm), detail, Shape(base), limit);
    match outcome
    case Results(hits) => resp := Found(hits);
    case Upstream(status, body) => resp := Passed(status, body);
  }

  /**
   * Every result is the shaped detail of a listed item that matched the
   * normalized query and whose detail fetch was ok.
   */
  lemma SearchSound(req: Request, env: Env, pages: seq<ListResponse>, detail: Value -> Option<Value>, h: Hit)
    requires Search(req, env, pages, detail).Found?
    requires h in Search(req, env, pages, detail).hits
    ensures exists i :: 0 <= i < |Listed(pages, MaxPages)|
                        && Matches(QueryOf(req), Listed(pages, MaxPages)[i])
                        && detail(Listed(pages, MaxPages)[i]).Some?
                        && h == ProductsHit(detail(Listed(pages, MaxPages)[i]).value, BaseOf(env))
  {
    var limit := RequestLimit(req.limit);
    CollectSound(pages, MaxPages, Wanted(QueryOf(req)), detail, Shape(BaseOf(env)), limit, h);
  }

  /**
   * A blank query lists the catalog: when every detail fetch is ok, the
   * results are the listed items in order, as many as the limit allows.
   */
  lemma BlankQueryListsCatalog(req: Request, env: Env, pages: seq<ListResponse>, detail: Value -> Option<Value>)
    requires Trim(req.q) == ""
    requires forall p :: detail(p).Some?
    requires Search(req, env, pages, detail).Found?
    ensures var hits := Search(req, env, pages, detail).hits;
      var items := Listed(pages, MaxPages);
      && (RequestLimit(req.limit).None? ==> |hits| == |items|)
      && (forall i :: 0 <= i < |hits| ==> i < |items| && hits[i] == ProductsHit(detail(items[i]).value, BaseOf(env)))
  {
    var limit := RequestLimit(req.limit);
    NormalizeEmpty();
    forall p ensures Wanted(QueryOf(req))(p) && detail(p).Some? {
      EmptyQueryMatches(p);
    }
    var shape := Shape(BaseOf(env));
    var hits := Search(req, env, pages, detail).hits;
    var items := Listed(pages, MaxPages);
    assert hits == CollectSpec(pages, MaxPages, Wanted(QueryOf(req)), detail, shape, limit).hits;
    CollectAllWanted(pages, MaxPages, Wanted(QueryOf(req)), detail, shape, limit);
    forall i | 0 <= i < |hits|
      ensures i < |items| && hits[i] == ProductsHit(detail(items[i]).value, BaseOf(env))
    {
      assert hits[i] == shape(detail(items[i]).value);
    }
  }
}
