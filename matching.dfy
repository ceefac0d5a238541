/**
 * The match predicate of api/products.js and api/index.js: the query and
 * the item's name and handle are normalized, and an item matches when the
 * query is empty, or the name or handle contains the whole query or one of
 * its words of three characters or more.
 */
module Matching {
  import opened JsString
  import opened JsValue
  import opened Locale
  import opened Normalizer

  /** `qNorm.split(" ").filter(w => w.length >= 3)` */
  function Words(qNorm: string): (r: seq<string>)
    ensures forall w :: w in r <==> w in Split(qNorm, ' ') && |w| >= 3
  {
    FilterLong(Split(qNorm, ' '))
  }

  /** The pieces of length at least 3, in order. */
  function FilterLong(pieces: seq<string>): (r: seq<string>)
    ensures forall w :: w in r <==> w in pieces && |w| >= 3
    ensures |r| <= |pieces|
  {
    if pieces == [] then []
    else (if |pieces[0]| >= 3 then [pieces[0]] else []) + FilterLong(pieces[1..])
  }

  /** `normalize(pickLang(p.name))`: the normalized display name of a listed item. */
  function NameKey(p: Value): string {
    NormalizeValue(PickLang(Get(p, "name")))
  }

  /** `normalize(p.handle || "")`: the normalized handle of a listed item. */
  function HandleKey(p: Value): string {
    NormalizeValue(Get(p, "handle"))
  }

  /**
   * The match predicate: an empty query matches everything; otherwise the
   * normalized name or handle contains the whole query, or some query word
   * of three characters or more.
   */
  predicate Matches(qNorm: string, p: Value) {
    KeysMatch(qNorm, NameKey(p), HandleKey(p))
  }

  /** The match predicate on the normalized name and handle. */
  predicate KeysMatch(qNorm: string, name: string, handle: string) {
    || qNorm == ""
    || Includes(name, qNorm)
    || Includes(handle, qNorm)
    || exists w :: w in Words(qNorm) && (Includes(name, w) || Includes(handle, w))
  }

  /** A piece of text with no space splits into itself alone. */
  lemma {:induction false} SplitWithoutSeparator(s: string, sep: char)
    requires sep !in s
    ensures Split(s, sep) == [s]
  {
    if s != [] {
      assert sep !in s[1..] by {
        forall i | 0 <= i < |s[1..]| ensures s[1..][i] != sep { assert s[1..][i] == s[i + 1]; }
      }
      SplitWithoutSeparator(s[1..], sep);
      assert [s[0]] + s[1..] == s;
    }
  }

  /**
   * A one-word query adds nothing through its words: an item matches it
   * exactly when its normalized name or handle contains it.
   */
  lemma OneWordQuery(qNorm: string, name: string, handle: string)
    requires qNorm != "" && ' ' !in qNorm
    ensures KeysMatch(qNorm, name, handle) <==> Includes(name, qNorm) || Includes(handle, qNorm)
  {
    SplitWithoutSeparator(qNorm, ' ');
    assert forall w :: w in Words(qNorm) ==> w == qNorm;
  }


  /** An empty query matches every item. */
  lemma EmptyQueryMatches(p: Value)
    ensures Matches("", p)
  {
  }
}
