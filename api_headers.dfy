/**
 * The `no_cache_for_api` middleware: every response to a path under
 * `/api/` is marked as not cacheable; other responses pass unchanged.
 */
module ApiHeaders {
  import opened Strings

  /** Response headers by name. Header names are case-insensitive and the
      response stores them lower-cased, so the keys here are lower-case
      names: `Cache-Control` is the key `cache-control`. */
  type Headers = map<string, string>

  const ApiPrefix: string := "/api/"

  /** `response.headers[name] = value` for a lower-case `name`: replaces any
      header of that name. */
  function SetHeader(h: Headers, name: string, value: string): (r: Headers)
    ensures r.Keys == h.Keys + {name} && r[name] == value
    ensures forall k :: k in h && k != name ==> r[k] == h[k]
  {
    h[name := value]
  }

  /** The headers of the response the middleware returns for `path`. */
  function NoCacheForApi(path: string, headers: Headers): (r: Headers)
    ensures StartsWith(path, ApiPrefix) ==>
      && r.Keys == headers.Keys + {"cache-control", "pragma", "expires"}
      && r["cache-control"] == "no-store" && r["pragma"] == "no-cache" && r["expires"] == "0"
      && forall k :: k in headers && k != "cache-control" && k != "pragma" && k != "expires" ==> r[k] == headers[k]
    ensures !StartsWith(path, ApiPrefix) ==> r == headers
  {
    if StartsWith(path, ApiPrefix) then
      SetHeader(SetHeader(SetHeader(headers, "cache-control", "no-store"), "pragma", "no-cache"), "expires", "0")
    else headers
  }

  /** Passing a response through the middleware twice changes nothing more. */
  lemma NoCacheIdempotent(path: string, headers: Headers)
    ensures NoCacheForApi(path, NoCacheForApi(path, headers)) == NoCacheForApi(path, headers)
  {
  }

  /** The prefix includes its slash: `/api` itself and paths such as
      `/apis/x` or `/api-docs` pass unchanged. */
  lemma ApiPrefixNeedsSlash(path: string, headers: Headers)
    requires |path| >= 4 && path[..4] == "/api" && (|path| == 4 || path[4] != '/')
    ensures NoCacheForApi(path, headers) == headers
  {
    if |path| >= 5 {
      assert path[..5][4] == path[4];
    }
  }
}
