# tienda-proxy search core, in Dafny

tienda-proxy is a small proxy in front of the Tiendanube store API. It
answers product searches, single-product links and order lookups. This
project models its decision logic and proves what that logic promises.

The model covers:

- **Shared pieces.**
  - The API-key check (`Auth`).
  - The text normalizer (`Normalizer`).
  - The `es → pt → en` locale fallback (`Locale`).
  - The `limit` parameter (`Limits`).
  - The match predicate (`Matching`).
  - The three buy-URL builders (`BuyLinks`).
- **The two search handlers**, api/products.js (`ProductsApi`) and the
  `/api/products` route of api/index.js (`IndexApi`).
  - They share one scan loop (`Catalog.CollectMatches`), which collects
    matching items whose detail fetch is ok until `limit`. Each handler
    shapes its results its own way.
- **The single-product link handler**, api/product-link.js (`ProductLink`).
  - It scores items with integer points.
  - It keeps the first best-scoring item over a page scan with early exit
    (`BestMatch`).
- **The Express server**, server.js (`Server`):
  - the `/api/products` filter, slice and projection, with the step-by-step
    price extraction;
  - the order lookup with its fallback by visible number;
  - the order-summary and shipping-address shaping.

The network is replaced by values:

- The catalog is a sequence of list responses, each a status and a parsed
  JSON body.
- Page `k` is element `k - 1`. Every page past the end is an ok, empty array.
- The product-detail endpoint is a function from a listed item to
  `Option<Value>`, where `None` is a response that is not ok.
- JSON values are a datatype (`JsValue.Value`) with JavaScript truthiness
  and `||` / `&&` written out.
- Request parameters, headers and environment variables come in as strings,
  "" when absent.

Imperative code is modelled as methods proved against specification
functions:

- the nested page/item loops of the search handlers;
- the best-so-far scan and the word loop of the scorer;
- the reassigning price blocks of api/index.js and server.js;
- the `r` reassignment of the order lookup.

The rest is functions and lemmas.

A `limit` that does not parse as an integer (`?limit=abc`) makes
`parseInt` return NaN. NaN survives `Math.max` and `Math.min`, and
`results.length >= NaN` is never true. So such a request collects every
matching item of up to 30 pages. The model follows the code here:
`Limits.RequestLimit` answers `None` ("no limit"), and the bound on the
number of results holds only for a limit that parses.

## Model

| member | source | states |
|---|---|---|
| Normalizer.NormalizeIsNormalized | api/products.js:3-12 | normalize always yields a string over [a-z0-9 -] with no leading or trailing space and no two spaces in a row |
| Normalizer.NormalizeIdempotent | api/products.js:3-12 | normalizing a normalized string changes nothing |
| Normalizer.NormalizeFixesNormalForm | api/index.js:14-22 | a string already in normal form is its own normalization |
| Normalizer.NormalizeValue | api/products.js:4 | `String(str \|\| "")`: null, undefined, "" and every other falsy value normalize to "" |
| Normalizer.NormalizeEmpty | api/product-link.js:11-20 | the empty string normalizes to "" |
| Normalizer.NormalizeIgnoresCase | api/products.js:5 | lower-casing the input first does not change the result |
| Normalizer.Decompose | api/products.js:6 | a Latin-1 letter with a canonical decomposition splits into an ASCII lower-case base letter and one combining mark of U+0300–U+036F |
| Normalizer.AccentInsensitive | api/products.js:6-7 | anywhere in any string, replacing a decomposable Latin-1 letter by its base letter does not change the result (NFD followed by dropping U+0300–U+036F) |
| Normalizer.DiaExample | api/index.js:13-22 | "Día" and "dia" normalize alike |
| Normalizer.StripMarks | api/products.js:7 | no combining mark is left, and a single character is dropped exactly when it is a mark |
| Normalizer.StripMarksAppend | api/products.js:7 | marks are removed character by character: with the one-character case, every other character is kept, in order |
| Normalizer.MapDashes | api/products.js:8 | each Unicode dash becomes '-', every other character is kept, length unchanged |
| Normalizer.BlankOthers | api/products.js:9 | every character outside [a-z0-9], white space and '-' becomes a space, length unchanged |
| Normalizer.CollapseShape | api/products.js:10 | collapsing white space runs leaves only normal characters and no double space |
| Locale.ResolveLocale | api/products.js:17 | the `\|\|` chain over the language keys gives the first truthy field in order, else the last field |
| Locale.LocaleOr | api/product-link.js:57 | `es \|\| pt \|\| en`: es when truthy, else pt when truthy, else en; truthy iff one of the three is |
| Locale.PickLang | api/products.js:14-18 | "" for a falsy input, a string as it is, otherwise the first truthy of es, pt, en in that order, else "" |
| Locale.PickLangOfNumber | api/index.js:81 | pickLang of a number is "" |
| Locale.DisplayName | api/products.js:105 | the locale name when truthy, else the handle when truthy, else "" |
| Auth.CheckKeyMeaning | api/product-link.js:4-8 | the check passes iff the configured key is non-blank and equals the provided key, both trimmed |
| Auth.UnsetKeyRejectsAll | server.js:9-20 | an unset or blank API_KEY rejects every request |
| Auth.ExpectedKeyAccepted | server.js:10-16 | the configured key is accepted in the query, or in the header when the query has none |
| Auth.BlankQueryKeyShadowsHeader | api/products.js:36-38 | a whitespace-only query key is truthy, shadows the header and is rejected |
| BuyLinks.StripTrailingSlashes | api/products.js:51 | the base is a prefix of the configured URL, does not end in '/', and only slashes were removed |
| BuyLinks.JoinPath | api/products.js:99 | base, then exactly the one '/' the permalink lacks, then the rest of the permalink |
| BuyLinks.JoinPathOneSlash | api/index.js:36 | joining a slash-free base and a permalink starting with at most one '/' leaves exactly one slash at the seam |
| BuyLinks.ProductsBuyUrl | api/products.js:93-101 | null for a blank permalink; verbatim when it starts with "http" or the base is empty; otherwise joined to the base |
| BuyLinks.IndexBuyUrl | api/index.js:30-37 | null iff the permalink is falsy or blank once trimmed; the trimmed permalink verbatim for "http" or an empty base; otherwise joined |
| BuyLinks.LinkBuyUrl | api/product-link.js:84-89 | null unless the permalink is a non-blank string; verbatim for "http"; otherwise always joined to the base, even an empty one |
| BuyLinks.JoinRooted | api/products.js:99 | a permalink starting with '/' is appended to the base as it is |
| BuyLinks.JoinUnrooted | api/products.js:99 | any other permalink gets exactly one '/' between base and permalink |
| BuyLinks.ProductsJoinsRaw | api/products.js:94-99 | with a non-empty base, a non-blank permalink not starting with "http" is joined untrimmed |
| BuyLinks.IndexJoinsTrimmed | api/index.js:30-36 | with a non-empty base, a permalink whose trimmed form is non-blank and not "http…" is joined trimmed |
| BuyLinks.ProductsAgreesWithIndex | api/products.js:93-101 | on a permalink without surrounding white space, the products.js and index.js builders agree |
| BuyLinks.ProductsKeepsUntrimmedPermalink | api/products.js:94-99 | products.js tests the trimmed permalink but joins the raw one: for any rooted q, " " + q gives base + "/ " + q where index.js gives base + q |
| BuyLinks.EmptyBaseDiffers | api/index.js:35 | with an empty base, a relative permalink p is returned as p by index.js and as "/" + p by product-link.js |
| BuyLinks.RootedPermalinkOneSlash | api/index.js:11-36 | whatever trailing slashes the configured base has, a permalink starting with '/' is joined with exactly one slash at the seam |
| BuyLinks.StripExample | api/index.js:11 | "https://shop.test//" loses both trailing slashes |
| Limits.DigitRun | api/products.js:43 | the longest prefix of decimal digits: a prefix, all digits, followed by no digit |
| Limits.ParseInt10 | api/products.js:43 | parseInt gives NaN (None) exactly when no digit follows the leading white space and optional sign |
| Limits.ClampLimit | api/products.js:43 | a parsed limit is clamped into [1, 20] (kept inside, 1 below, 20 above); NaN stays NaN |
| Limits.RequestLimit | api/index.js:4 | a request's limit, when it has one, lies in [1, 20] |
| Limits.DigitsValueOfDecimal | api/products.js:43 | the decimal digits of n read back as n |
| Limits.ParseIntOfDecimal | api/products.js:43 | parseInt of the decimal text of any integer, negative ones included, gives it back |
| Limits.RequestLimitOfNumber | api/products.js:43 | no limit parameter means 10; a written number n means n clamped into [1, 20] |
| Matching.Words | api/products.js:54 | the query words are exactly the space-separated pieces of length 3 or more |
| Matching.FilterLong | api/index.js:40 | the kept pieces are exactly those of length 3 or more, never more than given |
| Matching.OneWordQuery | api/products.js:77-81 | for a non-empty query without spaces, an item matches iff its normalized name or handle contains the query |
| Matching.EmptyQueryMatches | api/products.js:78 | an empty normalized query matches every item |
| Catalog.FirstStop | api/products.js:60-68 | the scan goes on exactly through pages that are ok non-empty arrays, stopping at the first other page or after maxPages |
| Catalog.Hits | api/products.js:70-108 | no more results than listed items |
| Catalog.HitOf | api/products.js:77-91 | an item yields a result iff it matches and its detail fetch is ok, and then exactly the shaped detail |
| Catalog.HitsAppend | api/products.js:103 | results keep catalog order: the results of a + b are those of a followed by those of b |
| Catalog.HitsSound | api/products.js:83-91 | every result is the shaped detail of a listed item that matched and whose detail fetch was ok |
| Catalog.SkipsFailedDetail | api/products.js:91 | an item whose detail fetch fails is skipped as if it were not listed |
| Catalog.AllWantedAllHit | api/index.js:61-64 | when every item matches and every detail is ok, every item yields its result, in order |
| Catalog.Cap | api/products.js:110-113 | the kept results are a prefix, at most limit long, all of them when the limit is not reached |
| Catalog.CollectSpec | api/products.js:57-116 | the answer holds at most limit results, and a passed-on error is the status and body of a failing page among the first maxPages |
| Catalog.StopsAt | api/products.js:60-68 | a scan that stops short of limit at a failing page passes that page's response on, and otherwise answers the hits so far |
| Catalog.LimitReachedOnPage | api/products.js:103-111 | once limit hits are collected on a page that continues, the answer is exactly those hits |
| Catalog.PageDone | api/products.js:70-113 | after a page's item loop, either limit was reached and the hits are the answer, or the whole page was looked at and the hits are those of the pages so far |
| Catalog.CollectPage | api/products.js:60-113 | one turn of the page loop: when it ends the scan its answer is CollectSpec; otherwise the hits of pages 1..page are collected, short of limit |
| Catalog.CollectMatches | api/products.js:57-114 | the nested page/item loops with continue/break compute exactly CollectSpec |
| Catalog.CollectFromPage | api/products.js:70-111 | the item loop of one page collects the results of the items it looked at and stops exactly when limit is reached |
| Catalog.CollectReadsOnlyUpToStop | api/products.js:58-68 | only pages up to the first failing or empty page, and never past maxPages, affect the answer |
| Catalog.CollectSound | api/products.js:103-110 | every collected result comes from a listed item before the stop that matched and whose detail was ok |
| Catalog.CollectAllWanted | api/index.js:61-62 | when everything matches and every detail is ok, the results are the listed items in order, as many as the limit allows |
| Catalog.CollectShapesAlike | api/index.js:87-92 | the scan's decisions do not depend on the shaping: two shapings give the same kind of answer and results index by index from the same detail |
| ProductsApi.VariantPrice | api/products.js:28-31 | the first variant's price when that is not null or undefined, else null |
| ProductsApi.GetPrice | api/products.js:20-33 | a numeric price as it is; else a non-empty locale pick; else the variant price |
| ProductsApi.GetPriceOrigin | api/products.js:20-33 | the price is never undefined and comes from the price field, one of its locales, the first variant, or null |
| ProductsApi.ZeroPriceKept | api/products.js:22-23 | a price of 0 is a number and is kept |
| ProductsApi.ProductsHit | api/products.js:103-108 | a result carries the detail's id, DisplayName of the detail, getPrice and the products.js buy URL |
| ProductsApi.Search | api/products.js:35-116 | 401 iff the key check fails; at most limit results; a passed-on error comes from a failing list page |
| ProductsApi.Handle | api/products.js:35-116 | the handler answers exactly Search |
| ProductsApi.SearchSound | api/products.js:77-108 | every result is the shaped detail of a listed item matching the normalized query whose detail was ok |
| ProductsApi.BlankQueryListsCatalog | api/products.js:77-78 | a blank query lists the catalog in order when every detail is ok, all of it with no limit |
| IndexApi.IndexPrice | api/index.js:80-85 | the non-empty locale pick of the price, else the first variant's non-null price, else null |
| IndexApi.PriceOf | api/index.js:80-85 | the reassigning price block computes IndexPrice |
| IndexApi.NumericPriceIgnored | api/index.js:81-82 | a non-zero numeric price is kept by products.js but ignored here |
| IndexApi.LocalePricesAgree | api/index.js:81-82 | on a locale-object price with a non-empty pick the two handlers agree |
| IndexApi.IndexHit | api/index.js:87-92 | a result carries the id, DisplayName of the detail, IndexPrice and buildBuyUrl of the permalink |
| IndexApi.BaseOf | api/index.js:11 | the base is a prefix of STORE_BASE_URL and does not end in '/' |
| IndexApi.Search | api/index.js:2-104 | 401 iff the key check fails; at most limit results; a passed-on error comes from a failing list page |
| IndexApi.Handle | api/index.js:2-104 | the route answers exactly Search |
| IndexApi.SearchSound | api/index.js:55-92 | every result comes from a matching listed item whose detail was ok, named by locale name, else handle, else "" |
| IndexApi.SameItemsAsProducts | api/index.js:43-98 | with the same base, the route and api/products.js return the same kind of answer and results with the same ids and names |
| BestMatch.Step | api/product-link.js:71-74 | an item replaces the running best only by scoring strictly more |
| BestMatch.FoldAppend | api/product-link.js:46-78 | running the best over two stretches of items is running it over the first, then the second |
| BestMatch.FoldFirstMax | api/product-link.js:71-74 | the running best is the first item of maximal score: no item outscores it and every earlier one scores less |
| BestMatch.NonEmptyKeepsOne | api/product-link.js:43-44 | from best = null and score -1, any item scoring 0 or more leaves a best item |
| BestMatch.TiesKeepFirst | api/product-link.js:71 | among equally scored items the first is kept |
| BestMatch.ScanIsFold | api/product-link.js:46-78 | a finished scan read pages 1..n (n ≤ 20), all ok non-empty arrays, and its best is the running best over their items |
| BestMatch.ScanPage | api/product-link.js:56-75 | the item loop computes the running best over the page |
| BestMatch.RunScan | api/product-link.js:46-78 | the page loop with its early break computes Scan |
| BestMatch.ScanKeepsFirstMax | api/product-link.js:46-78 | the kept item is the first maximal one among the items of the pages read |
| BestMatch.TiedFirstPage | api/product-link.js:77 | when page 1 items all score the same good-enough score, the scan ends with its first item |
| BestMatch.GoodEnoughStopsEarly | api/product-link.js:77 | once page 1 brings the best score to 10, later pages are never read |
| BestMatch.LastRead | api/product-link.js:46-78 | the last page read: the first failing, empty or good-enough page, never past page 20 |
| BestMatch.ScanReadsOnlyUpToStop | api/product-link.js:46-78 | the scan reads at most 20 pages, and catalogs that agree through the last page read give the same outcome |
| ProductLink.Score | api/product-link.js:61-69 | the score accumulated step by step is ScoreOf: 10 + 8 for the whole query, 2 + 1 per word |
| ProductLink.WordScore | api/product-link.js:65-69 | the word loop adds exactly the word points |
| ProductLink.WordPointsBounds | api/product-link.js:66-69 | each word adds between 0 and 3 points |
| ProductLink.ScoreBounds | api/product-link.js:61-69 | a score lies between 0 and 18 + 3 per word |
| ProductLink.WordPointsPositive | api/product-link.js:66-69 | the words add points iff some word occurs in the name or the handle |
| ProductLink.ScorePositiveIffMatch | api/product-link.js:61-69 | on the same normalized name and handle, the score is above 0 iff the search handlers' match predicate holds |
| ProductLink.PlainNameMatchesButScoresZero | api/product-link.js:57 | the handlers read names differently: an item with a plain-string name and no handle matches a non-empty query found in that name, yet scores 0 |
| ProductLink.EmptyQueryScore | api/product-link.js:62-63 | under an empty normalized query every item scores 18 |
| ProductLink.FoundName | api/product-link.js:93 | the name is the locale name when truthy, else the handle |
| ProductLink.AnswerChecks | api/product-link.js:22-32 | 405 iff not GET; 401 iff GET and the key fails; 400 iff both pass and q is blank after trimming |
| ProductLink.Conclude | api/product-link.js:80-95 | a failing page is passed on; 404 iff nothing was kept, the kept item is falsy (`!best`) or the best score is under 3; otherwise the kept item's id, its name (FoundName) and its buy URL |
| ProductLink.Handle | api/product-link.js:22-95 | the handler answers exactly Answer |
| ProductLink.AnswerAfterChecks | api/product-link.js:31-46 | past the three checks the answer is what the scan concludes |
| ProductLink.ConcludedIsFirstBest | api/product-link.js:71-82 | a found item is truthy, scored at least 3, and is the first best among the items scanned |
| ProductLink.FoundIsFirstBest | api/product-link.js:43-95 | the handler's found id is that of the first item of maximal score among the pages read, scoring at least 3 |
| ProductLink.PunctuationQueryFindsFirstItem | api/product-link.js:41-80 | a non-blank q that normalizes to "" keeps the first item of page 1: the answer is that item, or 404 when it is falsy |
| ProductLink.EmptyQueryScoresAll | api/product-link.js:62-63 | under the empty query every listed item scores 18 |
| Server.LocaleField | server.js:167 | a falsy field as it is, else its locale pick |
| Server.Filter | server.js:166-171 | never more items than given |
| Server.FilterMembers | server.js:166-171 | an item is kept iff it was listed and passes the filter: a blank term, or a lower-cased string locale name or handle containing the term |
| Server.FilterAppend | server.js:166 | the filter keeps catalog order |
| Server.BlankTermKeepsAll | server.js:170 | a blank term keeps every item, in order |
| Server.NoDiacriticFolding | server.js:165-170 | the filter does not fold accents: for any stem, stem + "e" does not find an item whose Spanish name is stem + "é" |
| Server.IncludesSameLength | server.js:170 | between strings of equal length, includes is equality |
| Server.SliceTo | server.js:173 | slice(0, limit) is a prefix of the first limit items, or of all but the last -limit for a negative limit |
| Server.DirectPrice | server.js:176-181 | a truthy number is kept, a truthy non-number gives its truthy es/pt/en pick and otherwise null (a string included), a falsy value gives null |
| Server.ServerPrice | server.js:175-186 | the direct price when truthy, else the first variant's price when the variants are a non-empty array and that price is truthy, else null |
| Server.ComparePrice | server.js:188-194 | compare_price is DirectPrice of compare_at_price, null or truthy |
| Server.CompareIsPriceWithoutVariants | server.js:188-194 | compare_price is the price logic applied to compare_at_price on an item with no variants |
| Server.PriceCopiesAgree | server.js:175-186 | server.js and api/products.js agree on a non-zero number, on a locale object with a truthy pick, and on a missing price whose variants give a truthy price or are absent |
| Server.ExtractPrices | server.js:175-194 | the reassigning price blocks compute ServerPrice and ComparePrice |
| Server.StringOrZeroPriceFallsToVariant | server.js:176-186 | a string price or a price of 0 is not used: the first variant's truthy price, else null |
| Server.PriceCopiesDisagree | server.js:176-186 | on a price of 0 or a non-empty string, api/products.js answers it as it is while the server answers null |
| Server.ImageOf | server.js:205 | the first image's src for a non-empty array; null for a falsy or empty one |
| Server.Project | server.js:196-206 | id and available copied; the name falls back locale → handle → ""; sku and permalink are the field when truthy, else null; the description is its truthy locale pick, else null; the image is ImageOf; the prices are ServerPrice and ComparePrice |
| Server.ProjectNameAgrees | server.js:198 | the projected name is DisplayName unless the name is a plain string, which api/products.js shows and the server replaces by the handle, else "" |
| Server.ListProducts | server.js:151-213 | 401 iff the key fails; an upstream failure passed on iff the page is not ok; a list never longer than the page |
| Server.ListsFirstKeptItems | server.js:165-207 | with limit ≥ 0, the list is the first limit kept items in order, projected, each of which passed the filter |
| Server.KeptItemsPass | server.js:166-171 | every kept item passes the filter |
| Server.ProjectsPrefix | server.js:173 | projecting the first limit items projects each in place |
| Server.BlankTerm | server.js:165 | an absent q gives the blank term |
| Server.BlankQueryListsPage | server.js:152-173 | with no q and no limit, the first 20 items of the page are listed |
| Server.ShippingFallback | server.js:60-62 | the top-level field when truthy, else the nested shipping field when truthy, else null |
| Server.Summary | server.js:56-65 | the summary copies id, number, status and dates, and takes the three shipping fields by fallback |
| Server.OrderLookup | server.js:39-79 | after a 404 on the id, a failing number search is passed on with its status and body, an ok one that is empty or not an array is 404; otherwise a failing id response is passed on with its status and body |
| Server.LookupOrder | server.js:32-79 | the route with its reassignment of r computes OrderLookup |
| Server.OrderRoute | server.js:28-83 | 401 iff the key fails, otherwise the lookup |
| Server.FallbackOnlyAfter404 | server.js:39 | unless the id lookup gave 404, the number search is irrelevant, and an ok id lookup answers its own summary |
| Server.FallbackUsesFirstResult | server.js:50-65 | after a 404, an ok non-empty number search answers the summary of its first order |
| Server.TruthyTexts | server.js:132 | filter(Boolean) never keeps more parts than given |
| Server.Line1Cases | server.js:132 | line1 is the truthy ones of street and number joined by one space, and "" when neither is truthy |
| Server.ShippingName | server.js:128 | the trimmed "first last" of the address when non-blank, else the customer's truthy name, else null |
| Server.AddressNameUsed | server.js:128 | a first and a last name without surrounding white space give "first last" |
| Server.NoAddressNameUsesCustomer | server.js:128 | with neither first nor last name, the name is the customer's, else null |
| Server.ShippingOf | server.js:126-142 | every field follows its `\|\|` chain: name, email, phone, line1 to country, and the three shipping fields; a missing address reads as {} |
| Server.ShippingRoute | server.js:114-146 | 401 iff the key fails; a failing upstream response passed on with its status and body iff not ok; an authorized ok response gives the shipping view of the order |
| Server.EmptyOrderShipping | server.js:126-142 | an order with no address, customer or shipping data yields null in every optional field and an empty line1 |
| Server.NoAddressUsesCustomer | server.js:126-137 | without a shipping address the name and phone are the customer's, else null, and the address is empty |

## Left out

- Network and runtime plumbing is not modelled: `fetch`, JSON parsing, Express routing, `res.status().json()`, `process.env` reads and headers. The catalog, the detail endpoint, the order responses and the configuration are parameters.
- The `try`/`catch` that turns any thrown error into a 500 `proxy_error` is not modelled. Property access on `null` or `undefined` throws a TypeError in JavaScript; the model reads such a property as `undefined` instead (`JsValue.Get`). The one place where the server's catch decides the answer, a list body that is not an array (`arr.filter`), is modelled as `ProxyError`.
- BuyLinks.ProductsBuyUrl: a truthy permalink that is not a string throws in api/products.js (`permalink.startsWith`); the model answers `None` instead of a 500.
- Numbers are integers. Prices only pass through and are never computed with, so fractions do not matter.
- `toLowerCase`, `normalize("NFD")` and the `\s` class use full Unicode tables. The model covers ASCII and Latin-1: the case table, the Latin-1 decompositions and the common white-space characters.
- The `limit` and `q` query parameters are each read as one string. Repeated parameters, which Express turns into arrays, are not modelled.
- Server.ListProducts: `limit` is taken as the integer that `slice` converts it to (`None` when absent, meaning 20). The string-to-number conversion (`"abc"` → 0, `"2.5"` → 2) is not modelled, and neither is the upstream page number, which only goes into the URL.
- Server.ImageOf: an `images` object with a numeric `length` field is treated as having no image.
- The routes `/api/health`, `/api/orders/:id/items`, `/api/products/:id`, `/api/products/:id/variants` and `/api/promos` only pass upstream data through or answer static text, so they are not modelled.
- The `console.log` lines are not modelled.
- Only the outcome of the search handlers is modelled, not which detail requests are sent: the model does not say that an item that does not match triggers no detail fetch.
