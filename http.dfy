/**
 * The request, configuration and response of the two search handlers
 * (api/products.js and the `/api/products` route of api/index.js).
 */
module Http {
  import opened JsString
  import opened JsValue
  import opened Normalizer
  import opened Catalog

  /** The request as the handler reads it; an absent parameter or header is "". */
  datatype Request = Request(queryKey: string, headerKey: string, q: string, limit: string)

  /** The configuration read from the environment; an unset variable is "". */
  datatype Env = Env(apiKey: string, storeBase: string, storeBaseMtb: string)

  /** What a search handler answers. */
  datatype Response =
    | Unauthorized          // 401 {error: "unauthorized", reason: "bad_key"}
    | Found(hits: seq<Hit>) // 200 with the array of results
    | Passed(status: int, body: Value) // a failed list response, passed on

  /** The normalized query of a request. */
  function QueryOf(req: Request): string {
    Normalize(Trim(req.q))
  }
}
