/**
 * api/product-link.js: finds the single best catalog item for a query and
 * answers its id, name and buy URL. Each listed item gets an integer
 * score (10 when its normalized name contains the whole query, 8 when its
 * handle does, and 2 and 1 per query word of three characters or more
 * found in the name and the handle); the scan keeps the first item with
 * the highest score, stops after a page once the best score is 10 or more,
 * and answers 404 when nothing scored 3 or more.
 */
module ProductLink {
  import opened JsString
  import opened JsValue
  import opened Locale
  import opened Normalizer
  import opened Auth
  import opened BuyLinks
  import opened Matching
  import opened Catalog
  import opened BestMatch

  /** `normalize(p.name?.es || p.name?.pt || p.name?.en || "")`: no string branch here. */
  function LinkNameKey(p: Value): string {
    NormalizeValue(LocaleOr(Get(p, "name")))
  }

  /** What the query words add: 2 per word in the name, 1 per word in the handle. */
  function WordPoints(words: seq<string>, name: string, handle: string): (r: int)
  {
    if words == [] then 0
    else
      var w := words[|words| - 1];
      WordPoints(words[..|words| - 1], name, handle)
      + (if Includes(name, w) then 2 else 0) + (if Includes(handle, w) then 1 else 0)
  }

  /** The score of an item with normalized name `name` and handle `handle`. */
  function ScoreOf(qNorm: string, name: string, handle: string): int {
    (if Includes(name, qNorm) then 10 else 0) + (if Includes(handle, qNorm) then 8 else 0)
    + WordPoints(Words(qNorm), name, handle)
  }

  /** The score of a listed item. */
  function ItemScore(qNorm: string, p: Value): int {
    ScoreOf(qNorm, LinkNameKey(p), HandleKey(p))
  }

  /** The per-item score as the handler accumulates it, word by word. */
  method Score(qNorm: string, nameNorm: string, handleNorm: string) returns (score: int)
    ensures score == ScoreOf(qNorm, nameNorm, handleNorm)
  {
    score := 0;
    if Includes(nameNorm, qNorm) {
      score := score + 10;
    }
    if Includes(handleNorm, qNorm) {
      score := score + 8;
    }
    var points := WordScore(Words(qNorm), nameNorm, handleNorm);
    score := score + points;
  }

  /** The loop over the query words. */
  method WordScore(words: seq<string>, nameNorm: string, handleNorm: string) returns (score: int)
    ensures score == WordPoints(words, nameNorm, handleNorm)
  {
    score := 0;
    for j := 0 to |words|
      invariant score == WordPoints(words[..j], nameNorm, handleNorm)
    {
      var w := words[j];
      assert words[..j + 1][..j] == words[..j];
      if Includes(nameNorm, w) {
        score := score + 2;
      }
      if Includes(handleNorm, w) {
        score := score + 1;
      }
    }
    assert words[..|words|] == words;
  }

  /** Word points lie between 0 and 3 per word. */
  lemma {:induction false} WordPointsBounds(words: seq<string>, name: string, handle: string)
    ensures 0 <= WordPoints(words, name, handle) <= 3 * |words|
  {
    if words != [] {
      WordPointsBounds(words[..|words| - 1], name, handle);
    }
  }

  /** A score is at least 0 and at most 18 plus 3 per query word. */
  lemma ScoreBounds(qNorm: string, name: string, handle: string)
    ensures 0 <= ScoreOf(qNorm, name, handle) <= 18 + 3 * |Words(qNorm)|
  {
    WordPointsBounds(Words(qNorm), name, handle);
  }

  /** Word points are positive exactly when some word occurs in the name or the handle. */
  lemma {:induction false} WordPointsPositive(words: seq<string>, name: string, handle: string)
    ensures WordPoints(words, name, handle) > 0 <==>
      exists w :: w in words && (Includes(name, w) || Includes(handle, w))
  {
    if words != [] {
      var init := words[..|words| - 1];
      var last := words[|words| - 1];
      WordPointsPositive(init, name, handle);
      WordPointsBounds(init, name, handle);
      assert words == init + [last];
      if exists w :: w in words && (Includes(name, w) || Includes(handle, w)) {
        var w :| w in words && (Includes(name, w) || Includes(handle, w));
        if w != last {
          assert w in init;
        }
      }
    }
  }

  /**
   * The score is positive exactly when the search handlers' match
   * predicate holds on the same normalized name and handle.
   */
  lemma ScorePositiveIffMatch(qNorm: string, name: string, handle: string)
    ensures ScoreOf(qNorm, name, handle) > 0 <==> KeysMatch(qNorm, name, handle)
  {
    WordPointsPositive(Words(qNorm), name, handle);
    WordPointsBounds(Words(qNorm), name, handle);
    if qNorm == "" {
      IncludesEmpty(name);
    }
  }

  /**
   * The two scorings read the name differently: the search handlers take a
   * plain-string name through `pickLang`, product-link's `p.name?.es || ...`
   * reads nothing from it. An item whose name is a plain string and which
   * has no handle matches a non-empty query found in that name, yet scores 0 here.
   */
  lemma PlainNameMatchesButScoresZero(p: Value, qNorm: string)
    requires Get(p, "name").Str? && !Truthy(Get(p, "handle"))
    requires qNorm != "" && Includes(Normalize(Get(p, "name").s), qNorm)
    ensures Matches(qNorm, p)
    ensures ItemScore(qNorm, p) == 0
  {
    var name := Get(p, "name");
    assert NameKey(p) == Normalize(name.s) by {
      assert PickLang(name) == name;
      assert TextOf(name) == name.s;
    }
    assert LinkNameKey(p) == "" by {
      assert Get(name, "es") == Get(name, "pt") == Get(name, "en") == Undefined;
      assert LocaleOr(name) == Undefined;
    }
    assert HandleKey(p) == "";
    assert !Includes("", qNorm);
    assert WordPoints(Words(qNorm), "", "") == 0 by {
      WordPointsPositive(Words(qNorm), "", "");
      WordPointsBounds(Words(qNorm), "", "");
      forall w | w in Words(qNorm) ensures !Includes("", w) {
        assert |w| >= 3;
      }
    }
  }

  /** An empty normalized query is contained in everything: every item scores 18. */
  lemma EmptyQueryScore(name: string, handle: string)
    ensures ScoreOf("", name, handle) == 18
  {
    IncludesEmpty(name);
    IncludesEmpty(handle);
    assert Split("", ' ') == [""];
    assert Words("") == [];
  }

  /** The handler's scoring of listed items for the normalized query `qNorm`. */
  function Scorer(qNorm: string): Value -> int {
    p => ItemScore(qNorm, p)
  }

  /** The request as the handler reads it; an absent parameter or header is "". */
  datatype Request = Request(verb: string, queryKey: string, headerKey: string, q: string)

  /** What the handler answers. */
  datatype Reply =
    | MethodNotAllowed  // 405
    | Unauthorized      // 401
    | MissingQ          // 400
    | Passed(status: int, body: Value)
    | NotFound          // 404
    | Found(id: Value, name: Value, buyUrl: Option<string>)

  /** `best.name?.es || best.name?.pt || best.name?.en || best.handle` */
  function FoundName(best: Value): (r: Value)
    ensures Truthy(LocaleOr(Get(best, "name"))) ==> r == LocaleOr(Get(best, "name"))
    ensures !Truthy(LocaleOr(Get(best, "name"))) ==> r == Get(best, "handle")
  {
    Or(LocaleOr(Get(best, "name")), Get(best, "handle"))
  }

  /** What the handler answers, given `API_KEY`, `STORE_BASE_URL` and the catalog. */
  function Answer(req: Request, apiKey: string, storeBase: string, pages: seq<ListResponse>): Reply
  {
    if req.verb != "GET" then MethodNotAllowed
    else if !CheckKey(req.queryKey, req.headerKey, apiKey) then Unauthorized
    else
      var q := Trim(req.q);
      if q == "" then MissingQ
      else Lookup(q, storeBase, pages)
  }

  /**
   * 405 exactly for a method other than GET, 401 exactly for a GET whose
   * key fails, 400 exactly for an authorized GET whose `q` is blank.
   */
  lemma AnswerChecks(req: Request, apiKey: string, storeBase: string, pages: seq<ListResponse>)
    ensures var r := Answer(req, apiKey, storeBase, pages);
      && (r.MethodNotAllowed? <==> req.verb != "GET")
      && (r.Unauthorized? <==> req.verb == "GET" && !CheckKey(req.queryKey, req.headerKey, apiKey))
      && (r.MissingQ? <==> req.verb == "GET" && CheckKey(req.queryKey, req.headerKey, apiKey) && Trim(req.q) == "")
  {
    if req.verb == "GET" && CheckKey(req.queryKey, req.headerKey, apiKey) && Trim(req.q) != "" {
      var r := Lookup(Trim(req.q), storeBase, pages);
      assert Answer(req, apiKey, storeBase, pages) == r;
      assert r.Passed? || r.Found? || r.NotFound?;
    }
  }

  /** Past the checks: scan the catalog for the trimmed query `q` and conclude. */
  function Lookup(q: string, storeBase: string, pages: seq<ListResponse>): (r: Reply)
    ensures r.Passed? || r.Found? || r.NotFound?
  {
    Conclude(Scan(pages, Scorer(Normalize(q)), 1, Start), StripTrailingSlashes(storeBase))
  }

  /**
   * The answer once the scan is over: a failing page passed on, 404 when
   * nothing was kept or the best score is under 3, else the kept item.
   */
  function Conclude(out: ScanOutcome, base: string): (r: Reply)
    ensures r.Passed? || r.Found? || r.NotFound?
    ensures r.Passed? <==> out.Failed?
    ensures r.Found? <==> out.Done? && out.best.item.Some? && Truthy(out.best.item.value) && out.best.score >= 3
    ensures r.NotFound? <==> out.Done? && (out.best.item.None? || !Truthy(out.best.item.value) || out.best.score < 3)
    ensures r.Found? ==> r.id == Get(out.best.item.value, "id")
    ensures r.Found? ==> r.name == FoundName(out.best.item.value)
    ensures r.Found? ==> r.buyUrl == LinkBuyUrl(Get(out.best.item.value, "permalink"), base)
  {
    match out
    case Failed(status, body) => Passed(status, body)
    case Done(b) =>
      if b.item.None? || !Truthy(b.item.value) || b.score < 3 then NotFound
      else
        var best := b.item.value;
        Found(Get(best, "id"), FoundName(best), LinkBuyUrl(Get(best, "permalink"), base))
  }

  /** The handler. */
  method Handle(req: Request, apiKey: string, storeBase: string, pages: seq<ListResponse>) returns (r: Reply)
    ensures r == Answer(req, apiKey, storeBase, pages)
  {
    if req.verb != "GET" {
      return MethodNotAllowed;
    }
    if !CheckKey(req.queryKey, req.headerKey, apiKey) {
      return Unauthorized;
    }
    var q := Trim(req.q);
    if q == "" {
      return MissingQ;
    }
    var base := StripTrailingSlashes(storeBase);
    var qNorm := Normalize(q);
    var out := RunScan(pages, Scorer(qNorm));
    if out.Failed? {
      return Passed(out.status, out.body);
    }
    var best := out.best.item;
    if best.None? || !Truthy(best.value) || out.best.score < 3 {
      return NotFound;
    }
    r := Found(Get(best.value, "id"), FoundName(best.value), LinkBuyUrl(Get(best.value, "permalink"), base));
  }

  /** Past the method, key and query checks, the answer is what the scan concludes. */
  lemma AnswerAfterChecks(req: Request, apiKey: string, storeBase: string, pages: seq<ListResponse>)
    requires req.verb == "GET" && CheckKey(req.queryKey, req.headerKey, apiKey) && Trim(req.q) != ""
    ensures Answer(req, apiKey, storeBase, pages)
            == Conclude(Scan(pages, Scorer(Normalize(Trim(req.q))), 1, Start), StripTrailingSlashes(storeBase))
  {
  }

  /**
   * `id` is the id of a truthy item that scores at least 3 and is the first
   * item of maximal score among the items of pages 1..n, for some n up to
   * `MaxPages` such that every one of those pages continued.
   */
  predicate FirstBestAmongScanned(pages: seq<ListResponse>, qNorm: string, id: Value) {
    exists n, k ::
      && 0 <= n <= MaxPages && AllContinue(pages, n) && 0 <= k < |ItemsThrough(pages, n)|
      && FirstMax(ItemsThrough(pages, n), k, Scorer(qNorm))
      && ItemScore(qNorm, ItemsThrough(pages, n)[k]) >= 3
      && Truthy(ItemsThrough(pages, n)[k])
      && id == Get(ItemsThrough(pages, n)[k], "id")
  }

  /** What the scan concludes as found is the first best item among those scanned. */
  lemma ConcludedIsFirstBest(pages: seq<ListResponse>, qNorm: string, base: string)
    requires Conclude(Scan(pages, Scorer(qNorm), 1, Start), base).Found?
    ensures FirstBestAmongScanned(pages, qNorm, Conclude(Scan(pages, Scorer(qNorm), 1, Start), base).id)
  {
    var score := Scorer(qNorm);
    ScanKeepsFirstMax(pages, score);
    var n, k :| && 0 <= n <= MaxPages && AllContinue(pages, n) && 0 <= k < |ItemsThrough(pages, n)|
      && Scan(pages, score, 1, Start).best == Best(Some(ItemsThrough(pages, n)[k]), score(ItemsThrough(pages, n)[k]))
      && FirstMax(ItemsThrough(pages, n), k, score);
    assert score(ItemsThrough(pages, n)[k]) >= 3;
  }

  /**
   * A found item is the first item of maximal score among the items of
   * the pages scanned, and it scored at least 3.
   */
  lemma FoundIsFirstBest(req: Request, apiKey: string, storeBase: string, pages: seq<ListResponse>)
    requires Answer(req, apiKey, storeBase, pages).Found?
    ensures FirstBestAmongScanned(pages, Normalize(Trim(req.q)), Answer(req, apiKey, storeBase, pages).id)
  {
    AnswerAfterChecks(req, apiKey, storeBase, pages);
    ConcludedIsFirstBest(pages, Normalize(Trim(req.q)), StripTrailingSlashes(storeBase));
  }

  /**
   * A query that is not blank but normalizes to "" (punctuation only)
   * gives every item the score 18, so when page 1 lists items the scan
   * keeps its first item: the answer is that item, or 404 when the item
   * is itself falsy (`!best`).
   */
  lemma PunctuationQueryFindsFirstItem(req: Request, apiKey: string, storeBase: string, pages: seq<ListResponse>)
    requires req.verb == "GET" && CheckKey(req.queryKey, req.headerKey, apiKey)
    requires Trim(req.q) != "" && Normalize(Trim(req.q)) == ""
    requires Continues(PageAt(pages, 1))
    ensures Truthy(PageAt(pages, 1).body.elems[0]) ==> Answer(req, apiKey, storeBase, pages).Found?
    ensures Truthy(PageAt(pages, 1).body.elems[0]) ==> Answer(req, apiKey, storeBase, pages).id == Get(PageAt(pages, 1).body.elems[0], "id")
    ensures !Truthy(PageAt(pages, 1).body.elems[0]) ==> Answer(req, apiKey, storeBase, pages).NotFound?
  {
    var score := Scorer("");
    EmptyQueryScoresAll(PageAt(pages, 1).body.elems);
    TiedFirstPage(pages, score, 18);
    AnswerAfterChecks(req, apiKey, storeBase, pages);
  }

  /** Under the empty normalized query every item scores 18. */
  lemma EmptyQueryScoresAll(items: seq<Value>)
    ensures forall j :: 0 <= j < |items| ==> Scorer("")(items[j]) == 18
  {
    forall j | 0 <= j < |items| ensures Scorer("")(items[j]) == 18 {
      EmptyQueryScore(LinkNameKey(items[j]), HandleKey(items[j]));
    }
  }
}
