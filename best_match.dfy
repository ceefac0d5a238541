/**
 * The best-so-far scan of api/product-link.js, over any scoring of items:
 * a running best that a later item replaces only by scoring strictly
 * more, and a page loop that passes a failing page on, ends at an empty
 * page, and ends after a page once the best score is good enough.
 */
module BestMatch {
  import opened JsValue
  import opened Catalog

  /** The list pages the scan reads at most. */
  const MaxPages: nat := 20

  /** The best score after which the scan reads no further page. */
  const GoodEnough: int := 10

  /** The running best: the item kept so far (`null` at first) and its score. */
  datatype Best = Best(item: Option<Value>, score: int)

  /** Before any item: `best = null`, `bestScore = -1`. */
  const Start: Best := Best(None, -1)

  /** One item against the running best: it replaces it only by scoring strictly more. */
  function Step(b: Best, p: Value, score: Value -> int): (r: Best)
    ensures r.score >= b.score
    ensures r == b || (r == Best(Some(p), score(p)) && score(p) > b.score)
  {
    if score(p) > b.score then Best(Some(p), score(p)) else b
  }

  /** The running best after the items, in order, from `b`. */
  function RunningBest(items: seq<Value>, b: Best, score: Value -> int): Best
  {
    if items == [] then b else Step(RunningBest(items[..|items| - 1], b, score), items[|items| - 1], score)
  }

  /** Folding two runs of items is folding the first, then the second. */
  lemma {:induction false} FoldAppend(a: seq<Value>, c: seq<Value>, b: Best, score: Value -> int)
    ensures RunningBest(a + c, b, score) == RunningBest(c, RunningBest(a, b, score), score)
    decreases |c|
  {
    if c == [] {
      assert a + c == a;
    } else {
      var init := c[..|c| - 1];
      assert (a + c)[..|a + c| - 1] == a + init;
      FoldAppend(a, init, b, score);
    }
  }

  /** `items[k]` scores at least as much as every item, and more than every item before it. */
  predicate FirstMax(items: seq<Value>, k: int, score: Value -> int)
    requires 0 <= k < |items|
  {
    && (forall j :: 0 <= j < |items| ==> score(items[j]) <= score(items[k]))
    && (forall j :: 0 <= j < k ==> score(items[j]) < score(items[k]))
  }

  /**
   * The running best is the first item of maximal score: it is the start
   * when no item beats the start's score, and otherwise an item `items[k]`
   * with `FirstMax(items, k)`.
   */
  lemma {:induction false} FoldFirstMax(items: seq<Value>, b: Best, score: Value -> int)
    ensures RunningBest(items, b, score).score >= b.score
    ensures forall j :: 0 <= j < |items| ==> score(items[j]) <= RunningBest(items, b, score).score
    ensures RunningBest(items, b, score) == b ||
      exists k :: 0 <= k < |items| && RunningBest(items, b, score) == Best(Some(items[k]), score(items[k]))
                  && FirstMax(items, k, score)
    decreases |items|
  {
    if items != [] {
      var init := items[..|items| - 1];
      var last := items[|items| - 1];
      FoldFirstMax(init, b, score);
      var f := RunningBest(init, b, score);
      assert forall j :: 0 <= j < |init| ==> items[j] == init[j];
      if score(last) > f.score {
        assert FirstMax(items, |items| - 1, score);
      } else if f != b {
        var k :| 0 <= k < |init| && f == Best(Some(init[k]), score(init[k])) && FirstMax(init, k, score);
        assert items[k] == init[k];
        assert FirstMax(items, k, score);
      }
    }
  }

  /** From the start, a non-empty run whose first item scores 0 or more keeps an item. */
  lemma NonEmptyKeepsOne(items: seq<Value>, score: Value -> int)
    requires items != [] && score(items[0]) >= 0
    ensures RunningBest(items, Start, score).item.Some?
    ensures RunningBest(items, Start, score).score >= score(items[0])
  {
    FoldFirstMax(items, Start, score);
  }

  /** From the start, items that all score the same `c >= 0` keep the first of them. */
  lemma {:induction false} TiesKeepFirst(items: seq<Value>, score: Value -> int, c: int)
    requires items != [] && c > Start.score
    requires forall j :: 0 <= j < |items| ==> score(items[j]) == c
    ensures RunningBest(items, Start, score) == Best(Some(items[0]), c)
    decreases |items|
  {
    var init := items[..|items| - 1];
    if init != [] {
      TiesKeepFirst(init, score, c);
    }
  }

  /** The outcome of the page scan: the final running best, or a failing page passed on. */
  datatype ScanOutcome = Done(best: Best) | Failed(status: int, body: Value)

  /**
   * The page loop from page `page` with running best `b`: a failing page
   * is passed on, an empty page or page `MaxPages + 1` ends the scan, and
   * after a page the scan ends once the best score is `GoodEnough`.
   */
  function Scan(pages: seq<ListResponse>, score: Value -> int, page: int, b: Best): ScanOutcome
    requires page >= 1
    decreases MaxPages + 1 - page
  {
    if page > MaxPages then Done(b)
    else
      var resp := PageAt(pages, page);
      if !IsOk(resp.status) then Failed(resp.status, resp.body)
      else if !IsNonEmptyArray(resp.body) then Done(b)
      else
        var b2 := RunningBest(resp.body.elems, b, score);
        if b2.score >= GoodEnough then Done(b2) else Scan(pages, score, page + 1, b2)
  }

  /**
   * A finished scan has read pages 1..n, every one of which continued,
   * and its running best is the fold of their items from the start.
   */
  lemma {:induction false} ScanIsFold(pages: seq<ListResponse>, score: Value -> int, page: int, b: Best)
    requires 1 <= page <= MaxPages + 1
    requires AllContinue(pages, page - 1)
    requires b == RunningBest(ItemsThrough(pages, page - 1), Start, score)
    requires Scan(pages, score, page, b).Done?
    ensures exists n :: 0 <= n <= MaxPages && AllContinue(pages, n)
                        && Scan(pages, score, page, b).best == RunningBest(ItemsThrough(pages, n), Start, score)
    decreases MaxPages + 1 - page
  {
    var before := ItemsThrough(pages, page - 1);
    if page <= MaxPages {
      var resp := PageAt(pages, page);
      if IsNonEmptyArray(resp.body) {
        var b2 := RunningBest(resp.body.elems, b, score);
        assert ItemsThrough(pages, page) == before + resp.body.elems;
        FoldAppend(before, resp.body.elems, Start, score);
        assert AllContinue(pages, page);
        if b2.score < GoodEnough {
          ScanIsFold(pages, score, page + 1, b2);
        } else {
          assert Scan(pages, score, page, b).best == RunningBest(ItemsThrough(pages, page), Start, score);
        }
      } else {
        assert Scan(pages, score, page, b).best == RunningBest(before, Start, score);
      }
    } else {
      assert Scan(pages, score, page, b).best == RunningBest(before, Start, score);
    }
  }

  /** The item loop over one page, from running best `b`. */
  method ScanPage(arr: seq<Value>, b: Best, score: Value -> int) returns (r: Best)
    ensures r == RunningBest(arr, b, score)
  {
    var best := b.item;
    var bestScore := b.score;
    for i := 0 to |arr|
      invariant Best(best, bestScore) == RunningBest(arr[..i], b, score)
    {
      var p := arr[i];
      assert arr[..i + 1][..i] == arr[..i];
      var s := score(p);
      if s > bestScore {
        bestScore := s;
        best := Some(p);
      }
    }
    assert arr[..|arr|] == arr;
    return Best(best, bestScore);
  }

  /** The page loop: a failing page is passed on at once. */
  method RunScan(pages: seq<ListResponse>, score: Value -> int) returns (out: ScanOutcome)
    ensures out == Scan(pages, score, 1, Start)
  {
    var b := Start;
    var page := 1;
    while page <= MaxPages
      invariant 1 <= page <= MaxPages + 1
      invariant Scan(pages, score, page, b) == Scan(pages, score, 1, Start)
    {
      var resp := PageAt(pages, page);
      if !IsOk(resp.status) {
        return Failed(resp.status, resp.body);
      }
      if !IsNonEmptyArray(resp.body) {
        break;
      }
      b := ScanPage(resp.body.elems, b, score);
      if b.score >= GoodEnough {
        break;
      }
      page := page + 1;
    }
    return Done(b);
  }

  /**
   * What a finished scan keeps is the first item of maximal score among
   * the items of the pages it read (pages 1..n, every one of which
   * continued), unless it keeps nothing.
   */
  lemma ScanKeepsFirstMax(pages: seq<ListResponse>, score: Value -> int)
    requires Scan(pages, score, 1, Start).Done?
    requires Scan(pages, score, 1, Start).best.item.Some?
    ensures exists n, k ::
      && 0 <= n <= MaxPages && AllContinue(pages, n) && 0 <= k < |ItemsThrough(pages, n)|
      && Scan(pages, score, 1, Start).best == Best(Some(ItemsThrough(pages, n)[k]), score(ItemsThrough(pages, n)[k]))
      && FirstMax(ItemsThrough(pages, n), k, score)
  {
    var out := Scan(pages, score, 1, Start);
    ScanIsFold(pages, score, 1, Start);
    var n :| 0 <= n <= MaxPages && AllContinue(pages, n) && out.best == RunningBest(ItemsThrough(pages, n), Start, score);
    FoldFirstMax(ItemsThrough(pages, n), Start, score);
  }

  /** When page 1 lists items that all score the same good-enough `c`, the scan keeps its first item. */
  lemma TiedFirstPage(pages: seq<ListResponse>, score: Value -> int, c: int)
    requires Continues(PageAt(pages, 1)) && c >= GoodEnough
    requires forall j :: 0 <= j < |PageAt(pages, 1).body.elems| ==> score(PageAt(pages, 1).body.elems[j]) == c
    ensures Scan(pages, score, 1, Start) == Done(Best(Some(PageAt(pages, 1).body.elems[0]), c))
  {
    TiesKeepFirst(PageAt(pages, 1).body.elems, score, c);
  }

  /**
   * Once page 1 brings the best score to `GoodEnough`, no later page is
   * read: two catalogs that agree on page 1 give the same outcome.
   */
  lemma GoodEnoughStopsEarly(pages: seq<ListResponse>, other: seq<ListResponse>, score: Value -> int)
    requires PageAt(pages, 1) == PageAt(other, 1) && Continues(PageAt(pages, 1))
    requires RunningBest(PageAt(pages, 1).body.elems, Start, score).score >= GoodEnough
    ensures Scan(pages, score, 1, Start) == Scan(other, score, 1, Start)
  {
  }

  /**
   * The last page the scan reads from page `page` on: the first page that
   * fails, is empty or not an array, or brings the best score to
   * `GoodEnough`, and never past `MaxPages` (`page - 1` when it reads none).
   */
  function LastRead(pages: seq<ListResponse>, score: Value -> int, page: int, b: Best): (r: int)
    requires page >= 1
    ensures page <= MaxPages ==> page <= r <= MaxPages
    ensures page > MaxPages ==> r == page - 1
    decreases MaxPages + 1 - page
  {
    if page > MaxPages then page - 1
    else
      var resp := PageAt(pages, page);
      if !Continues(resp) then page
      else
        var b2 := RunningBest(resp.body.elems, b, score);
        if b2.score >= GoodEnough then page else LastRead(pages, score, page + 1, b2)
  }

  /**
   * No page after the last one read matters: catalogs that agree on the
   * pages from `page` through `LastRead` give the same outcome.
   */
  lemma {:induction false} ScanReadsOnlyThroughLast(pages: seq<ListResponse>, other: seq<ListResponse>,
                                                    score: Value -> int, page: int, b: Best)
    requires page >= 1
    requires forall k :: page <= k <= LastRead(pages, score, page, b) ==> PageAt(pages, k) == PageAt(other, k)
    ensures Scan(pages, score, page, b) == Scan(other, score, page, b)
    decreases MaxPages + 1 - page
  {
    if page <= MaxPages {
      var resp := PageAt(pages, page);
      assert PageAt(other, page) == resp;
      if Continues(resp) {
        var b2 := RunningBest(resp.body.elems, b, score);
        if b2.score < GoodEnough {
          assert LastRead(pages, score, page, b) == LastRead(pages, score, page + 1, b2);
          ScanReadsOnlyThroughLast(pages, other, score, page + 1, b2);
        }
      }
    }
  }

  /** The scan from page 1 reads at most `MaxPages` pages and nothing after its last one. */
  lemma ScanReadsOnlyUpToStop(pages: seq<ListResponse>, other: seq<ListResponse>, score: Value -> int)
    requires forall k :: 1 <= k <= LastRead(pages, score, 1, Start) ==> PageAt(pages, k) == PageAt(other, k)
    ensures LastRead(pages, score, 1, Start) <= MaxPages
    ensures Scan(pages, score, 1, Start) == Scan(other, score, 1, Start)
  {
    ScanReadsOnlyThroughLast(pages, other, score, 1, Start);
  }
}
