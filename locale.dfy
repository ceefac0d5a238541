/**
 * Locale resolution of Tiendanube's multilingual fields (`{es, pt, en}`
 * objects): `pickLang` of api/products.js and api/index.js, the bare
 * `obj.es || obj.pt || obj.en` chains of api/product-link.js and
 * server.js, and the display name `pickLang(data.name) || data.handle || ""`.
 */
module Locale {
  import opened JsValue

  /** The preference order of the language keys. */
  const LocaleOrder: seq<string> := ["es", "pt", "en"]

  /**
   * `obj[order[0]] || obj[order[1]] || ...`: the first truthy field in the
   * given order, or the last field when none is truthy.
   */
  function ResolveLocale(v: Value, order: seq<string>): (r: Value)
    requires |order| > 0
    ensures Truthy(r) <==> exists i :: 0 <= i < |order| && Truthy(Get(v, order[i]))
    ensures exists i :: 0 <= i < |order| && r == Get(v, order[i])
    ensures forall i :: (0 <= i < |order| && Truthy(Get(v, order[i]))
                         && forall j :: 0 <= j < i ==> !Truthy(Get(v, order[j]))) ==> r == Get(v, order[i])
    ensures !Truthy(r) ==> r == Get(v, order[|order| - 1])
  {
    var fields := seq(|order|, i requires 0 <= i < |order| => Get(v, order[i]));
    var r := OrChain(fields);
    assert forall i :: 0 <= i < |order| ==> fields[i] == Get(v, order[i]);
    r
  }

  /** `obj.es || obj.pt || obj.en` (also `obj?.es || ...`). */
  function LocaleOr(v: Value): (r: Value)
    ensures Truthy(r) <==> Truthy(Get(v, "es")) || Truthy(Get(v, "pt")) || Truthy(Get(v, "en"))
    ensures r in [Get(v, "es"), Get(v, "pt"), Get(v, "en")]
    ensures Truthy(Get(v, "es")) ==> r == Get(v, "es")
    ensures !Truthy(Get(v, "es")) && Truthy(Get(v, "pt")) ==> r == Get(v, "pt")
    ensures !Truthy(Get(v, "es")) && !Truthy(Get(v, "pt")) ==> r == Get(v, "en")
  {
    var r := ResolveLocale(v, LocaleOrder);
    assert LocaleOrder[0] == "es" && LocaleOrder[1] == "pt" && LocaleOrder[2] == "en";
    r
  }

  /**
   * `pickLang(obj)`: "" for a falsy value, a string as it is, otherwise
   * the first truthy of its `es`, `pt`, `en` fields, else "".
   */
  function PickLang(v: Value): (r: Value)
    ensures !Truthy(v) ==> r == Str("")
    ensures v.Str? ==> r == v
    ensures !Truthy(r) ==> r == Str("")
    ensures Truthy(r) <==> (v.Str? && v.s != "") || (Truthy(v) && !v.Str? && Truthy(LocaleOr(v)))
    ensures Truthy(r) && !v.Str? ==> r in [Get(v, "es"), Get(v, "pt"), Get(v, "en")]
    ensures Truthy(v) && !v.Str? && Truthy(LocaleOr(v)) ==> r == LocaleOr(v)
  {
    if !Truthy(v) then Str("")
    else if v.Str? then v
    else Or(LocaleOr(v), Str(""))
  }

  /** A number is truthy but has no language fields, so `pickLang` of it is "". */
  lemma PickLangOfNumber(n: int)
    ensures PickLang(Num(n)) == Str("")
  {
    assert Get(Num(n), "es") == Get(Num(n), "pt") == Get(Num(n), "en") == Undefined;
  }

  /**
   * `pickLang(data.name) || data.handle || ""`: the name shown for a
   * product, never a falsy value other than "".
   */
  function DisplayName(data: Value): (r: Value)
    ensures Truthy(r) || r == Str("")
    ensures Truthy(PickLang(Get(data, "name"))) ==> r == PickLang(Get(data, "name"))
    ensures !Truthy(PickLang(Get(data, "name"))) && Truthy(Get(data, "handle")) ==> r == Get(data, "handle")
    ensures !Truthy(PickLang(Get(data, "name"))) && !Truthy(Get(data, "handle")) ==> r == Str("")
  {
    var vs := [PickLang(Get(data, "name")), Get(data, "handle"), Str("")];
    assert !Truthy(vs[0]) && Truthy(vs[1]) ==> (forall j :: 0 <= j < 1 ==> !Truthy(vs[j]));
    OrChain(vs)
  }
}
