/**
 * The shared-secret check every route runs first (`checkKey`): the key
 * comes from the `key` query parameter, else the `x-api-key` header, and
 * is compared, trimmed, with the trimmed configured `API_KEY`. Absent
 * values enter as "", which `||` treats like a missing one.
 */
module Auth {
  import opened JsString

  /** `(req.query.key || req.headers["x-api-key"] || "").trim()` */
  function ProvidedKey(queryKey: string, headerKey: string): (r: string)
    ensures queryKey != "" ==> r == Trim(queryKey)
    ensures queryKey == "" ==> r == Trim(headerKey)
  {
    Trim(if queryKey != "" then queryKey else headerKey)
  }

  /** `!!provided && provided === expected` */
  predicate CheckKey(queryKey: string, headerKey: string, apiKey: string) {
    var provided := ProvidedKey(queryKey, headerKey);
    provided != "" && provided == Trim(apiKey)
  }

  /** The check accepts exactly a non-blank key equal, once trimmed, to the configured one. */
  lemma CheckKeyMeaning(queryKey: string, headerKey: string, apiKey: string)
    ensures CheckKey(queryKey, headerKey, apiKey) <==>
      Trim(apiKey) != "" && ProvidedKey(queryKey, headerKey) == Trim(apiKey)
  {
  }

  /** An unset or blank `API_KEY` rejects every request. */
  lemma UnsetKeyRejectsAll(queryKey: string, headerKey: string, apiKey: string)
    requires Trim(apiKey) == ""
    ensures !CheckKey(queryKey, headerKey, apiKey)
  {
  }

  /** The configured key itself is accepted, in the query or (with no query key) in the header. */
  lemma ExpectedKeyAccepted(apiKey: string, other: string)
    requires Trim(apiKey) != ""
    ensures CheckKey(apiKey, other, apiKey)
    ensures CheckKey("", apiKey, apiKey)
  {
  }

  /**
   * A query key that is only white space is still truthy, so it shadows
   * the header, and the request is rejected whatever the header holds.
   */
  lemma BlankQueryKeyShadowsHeader(queryKey: string, headerKey: string, apiKey: string)
    requires queryKey != "" && Trim(queryKey) == ""
    ensures !CheckKey(queryKey, headerKey, apiKey)
  {
  }
}
