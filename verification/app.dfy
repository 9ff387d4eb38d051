/** The browser-cache middleware of apx-app/src/sobeys_scctower/backend/app.py. */
module App {
  import opened Text
  import opened Core

  /** The header value successful API reads are given. */
  const ApiCacheControl: string := "public, max-age=120, stale-while-revalidate=300"

  /** `CacheControlMiddleware.dispatch`, applied to the response the rest of
      the application produced: a successful GET under `/api/` lets browsers
      reuse the answer for two minutes, except for the user-specific
      `/current-user` endpoint; status and body are never changed. */
  function CacheControlDispatch(verb: string, path: string, response: HttpResponse): (r: HttpResponse)
    ensures r.status == response.status && r.body == response.body
    ensures "cache-control" in r.headers && r.headers["cache-control"] == ApiCacheControl
            <== (verb == "GET" && StartsWith(path, "/api/") && response.status == 200
                 && !Contains(path, "/current-user"))
    ensures !(verb == "GET" && StartsWith(path, "/api/") && response.status == 200
              && !Contains(path, "/current-user"))
            ==> r == response
    ensures forall k :: k != "cache-control" ==> (k in r.headers <==> k in response.headers)
    ensures forall k :: k in r.headers && k != "cache-control" ==> r.headers[k] == response.headers[k]
  {
    if verb == "GET" && StartsWith(path, "/api/") && response.status == 200 then
      // user-specific endpoints are skipped
      if !Contains(path, "/current-user") then
        response.(headers := response.headers["cache-control" := ApiCacheControl])
      else response
    else response
  }

  /** Passing a response through the middleware twice changes nothing more. */
  lemma DispatchIdempotent(verb: string, path: string, response: HttpResponse)
    ensures var once := CacheControlDispatch(verb, path, response);
            CacheControlDispatch(verb, path, once) == once
  {
    var once := CacheControlDispatch(verb, path, response);
    if once != response {
      assert once.headers["cache-control" := ApiCacheControl] == once.headers;
    }
  }

  /** The user-specific endpoint is never marked cacheable by the middleware,
      whatever the request looks like. */
  lemma CurrentUserNeverCached(verb: string, pre: string, post: string, response: HttpResponse)
    ensures CacheControlDispatch(verb, pre + "/current-user" + post, response) == response
  {
    assert StartsWith("/current-user", "/current-user");
    ContainsInContext(pre, "/current-user", post, "/current-user");
  }

  /** Static files are served outside `/api/`, so the middleware leaves the
      cache-control value chosen by the static file handler in place. */
  lemma StaticCacheControlSurvives(verb: string, fullPath: string, urlPath: string, status: int,
                                   fileHeaders: map<string, string>, body: string, notModified: bool)
    requires !StartsWith(urlPath, "/api/")
    ensures var served := CacheControlDispatch(verb, urlPath, StaticFileResponse(fullPath, status, fileHeaders, body, notModified));
            served.headers["cache-control"] == StaticCacheControl(fullPath)
  {
  }
}
