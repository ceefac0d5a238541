/**
 * Purchase links: the configured store base with its trailing slashes
 * removed, joined to a product's permalink. The three handlers each carry
 * their own copy of the builder, and the copies differ: api/products.js
 * tests a trimmed permalink but joins the raw one, api/index.js joins the
 * trimmed one and returns it alone when the base is empty, and
 * api/product-link.js accepts only strings and always joins.
 */
module BuyLinks {
  import opened JsString
  import opened JsValue

  /** `s.replace(/\/+$/, "")` */
  function StripTrailingSlashes(s: string): (r: string)
    ensures r <= s
    ensures r == [] || r[|r| - 1] != '/'
    ensures forall i :: |r| <= i < |s| ==> s[i] == '/'
  {
    if s != [] && s[|s| - 1] == '/' then StripTrailingSlashes(s[..|s| - 1]) else s
  }

  /** `${base}${p.startsWith("/") ? "" : "/"}${p}` */
  function JoinPath(base: string, p: string): (r: string)
    ensures |r| > |base|
    ensures r[..|base|] == base && r[|base|] == '/'
    ensures r[|base| + 1..] == if StartsWith(p, "/") then p[1..] else p
  {
    var r := base + (if StartsWith(p, "/") then "" else "/") + p;
    assert StartsWith(p, "/") ==> p == "/" + p[1..];
    r
  }

  /** A base without a trailing slash and a path starting with at most one: exactly one slash between them. */
  lemma JoinPathOneSlash(base: string, p: string)
    requires base == [] || base[|base| - 1] != '/'
    requires !StartsWith(p, "//")
    ensures var r := JoinPath(base, p);
      && r[|base|] == '/'
      && (|base| > 0 ==> r[|base| - 1] != '/')
      && (|r| > |base| + 1 ==> r[|base| + 1] != '/')
  {
    var r := JoinPath(base, p);
    if |base| > 0 {
      assert r[|base| - 1] == r[..|base|][|base| - 1] == base[|base| - 1];
    }
    if |r| > |base| + 1 && StartsWith(p, "/") {
      assert r[|base| + 1] == p[1..][0] == p[1];
      assert p[..2] != "//";
      assert p[..2] == [p[0], p[1]];
    }
  }

  /**
   * api/products.js: `permalink = data.permalink || null`, then a link
   * when `permalink && String(permalink).trim()`; absolute as it is,
   * otherwise joined to a non-empty base, or alone.
   */
  function ProductsBuyUrl(permalinkField: Value, base: string): (r: Option<string>)
    ensures permalinkField.Str? ==>
      (r.None? <==> Trim(permalinkField.s) == "")
    ensures permalinkField.Str? && r.Some? && StartsWith(permalinkField.s, "http") ==>
      r.value == permalinkField.s
    ensures permalinkField.Str? && r.Some? && base == "" ==> r.value == permalinkField.s
    ensures permalinkField.Str? && r.Some? && !StartsWith(permalinkField.s, "http") && base != "" ==>
      r.value == JoinPath(base, permalinkField.s)
    ensures !permalinkField.Str? ==> r.None?
  {
    var permalink := Or(permalinkField, Null);
    if Truthy(permalink) && Trim(ToStr(permalink)) != "" && permalink.Str? then
      var p := permalink.s;
      if StartsWith(p, "http") then Some(p)
      else if base != "" then Some(JoinPath(base, p))
      else Some(p)
    else None
  }

  /** api/index.js `buildBuyUrl(permalink)`: works on `String(permalink).trim()`. */
  function IndexBuyUrl(permalink: Value, base: string): (r: Option<string>)
    ensures r.None? <==> !Truthy(permalink) || Trim(ToStr(permalink)) == ""
    ensures r.Some? && StartsWith(Trim(ToStr(permalink)), "http") ==> r.value == Trim(ToStr(permalink))
    ensures r.Some? && base == "" ==> r.value == Trim(ToStr(permalink))
    ensures r.Some? && !StartsWith(Trim(ToStr(permalink)), "http") && base != "" ==>
      r.value == JoinPath(base, Trim(ToStr(permalink)))
  {
    if !Truthy(permalink) then None
    else
      var p := Trim(ToStr(permalink));
      if p == "" then None
      else if StartsWith(p, "http") then Some(p)
      else if base == "" then Some(p)
      else Some(JoinPath(base, p))
  }

  /** api/product-link.js: a link only for a non-blank string permalink, joined even to an empty base. */
  function LinkBuyUrl(permalink: Value, base: string): (r: Option<string>)
    ensures r.None? <==> !(permalink.Str? && Trim(permalink.s) != "")
    ensures r.Some? && StartsWith(permalink.s, "http") ==> r.value == permalink.s
    ensures r.Some? && !StartsWith(permalink.s, "http") ==> r.value == JoinPath(base, permalink.s)
  {
    if permalink.Str? && Trim(permalink.s) != "" then
      Some(if StartsWith(permalink.s, "http") then permalink.s else JoinPath(base, permalink.s))
    else None
  }

  /** On a string permalink without surrounding white space, the products.js and index.js builders agree. */
  lemma ProductsAgreesWithIndex(p: string, base: string)
    requires Trim(p) == p
    ensures ProductsBuyUrl(Str(p), base) == IndexBuyUrl(Str(p), base)
  {
  }

  /** A string does not start with a prefix whose first character differs from its own. */
  lemma FirstCharDiffers(s: string, prefix: string)
    requires s != [] && prefix != [] && s[0] != prefix[0]
    ensures !StartsWith(s, prefix)
  {
  }

  /**
   * With a leading space they do not: for " " + q with q rooted, products.js
   * keeps the space and adds a slash, index.js joins the trimmed q.
   */
  lemma ProductsKeepsUntrimmedPermalink(base: string, q: string)
    requires base != ""
    requires q != [] && q[0] == '/' && !IsSpace(q[|q| - 1])
    ensures ProductsBuyUrl(Str(" " + q), base) == Some(base + "/" + (" " + q))
    ensures IndexBuyUrl(Str(" " + q), base) == Some(base + q)
  {
    var p := " " + q;
    LeadingSpaceTrimmed(q);
    FirstCharDiffers(p, "http");
    FirstCharDiffers(p, "/");
    FirstCharDiffers(q, "http");
    ProductsJoinsRaw(p, base);
    IndexJoinsTrimmed(p, base);
    JoinUnrooted(p, base);
    JoinRooted(q, base);
  }

  /** products.js joins a non-blank, non-absolute permalink to a non-empty base as it is. */
  lemma ProductsJoinsRaw(p: string, base: string)
    requires base != "" && Trim(p) != "" && !StartsWith(p, "http")
    ensures ProductsBuyUrl(Str(p), base) == Some(JoinPath(base, p))
  {
  }

  /** index.js joins the trimmed permalink when it is non-blank and not absolute. */
  lemma IndexJoinsTrimmed(p: string, base: string)
    requires base != "" && Trim(p) != "" && !StartsWith(Trim(p), "http")
    ensures IndexBuyUrl(Str(p), base) == Some(JoinPath(base, Trim(p)))
  {
  }

  /** A permalink that starts with '/' is appended to the base as it is. */
  lemma JoinRooted(p: string, base: string)
    requires StartsWith(p, "/")
    ensures JoinPath(base, p) == base + p
  {
  }

  /** Any other permalink gets one '/' between the base and itself. */
  lemma JoinUnrooted(p: string, base: string)
    requires !StartsWith(p, "/")
    ensures JoinPath(base, p) == base + "/" + p
  {
  }

  /** One leading space in front of a trimmed string is all that trimming removes. */
  lemma LeadingSpaceTrimmed(q: string)
    requires q != [] && !IsSpace(q[0]) && !IsSpace(q[|q| - 1])
    ensures Trim(q) == q && Trim(" " + q) == q
  {
    TrimNoop(q);
    assert (" " + q)[1..] == q;
  }

  /**
   * With an empty base, index.js returns a relative permalink as it is;
   * product-link.js prefixes "/".
   */
  lemma EmptyBaseDiffers(p: string)
    requires p != [] && p[0] != 'h' && p[0] != '/'
    requires !IsSpace(p[0]) && !IsSpace(p[|p| - 1])
    ensures IndexBuyUrl(Str(p), "") == Some(p)
    ensures LinkBuyUrl(Str(p), "") == Some("/" + p)
  {
    TrimNoop(p);
    FirstCharDiffers(p, "http");
    FirstCharDiffers(p, "/");
    assert JoinPath("", p) == "/" + p;
  }

  /**
   * Whatever trailing slashes the configured base has, a rooted permalink
   * is joined to it with a single slash.
   */
  lemma RootedPermalinkOneSlash(configured: string, p: string)
    requires StripTrailingSlashes(configured) != ""
    requires p != [] && p[0] == '/' && !IsSpace(p[|p| - 1])
    ensures var base := StripTrailingSlashes(configured);
      && IndexBuyUrl(Str(p), base) == Some(base + p)
      && base[|base| - 1] != '/'
  {
    var base := StripTrailingSlashes(configured);
    TrimNoop(p);
    FirstCharDiffers(p, "http");
    IndexJoinsTrimmed(p, base);
    JoinRooted(p, base);
  }

  /** Stripping removes exactly the trailing slashes of the configured URL. */
  lemma StripExample()
    ensures StripTrailingSlashes("https://shop.test//") == "https://shop.test"
  {
    assert "https://shop.test//"[..|"https://shop.test//"| - 1] == "https://shop.test/";
    assert "https://shop.test/"[..|"https://shop.test/"| - 1] == "https://shop.test";
  }
}
