/**
 * The development server's `spa-fallback` middleware (vite.config.js,
 * lines 11-22): a request for an application route, rather than a file, a
 * dev-server internal or an API path, is rewritten to `/index.html` before
 * the next handler runs.
 */
module DevServer {
  import opened JsText

  const IndexPath: string := "/index.html"

  /** Vite's own routes, passed on untouched. */
  predicate Internal(url: string)
  {
    StartsWith(url, "/@") || StartsWith(url, "/node_modules") || StartsWith(url, "/src")
  }

  /** The URL the next handler sees. */
  function Rewritten(url: string): string
  {
    if Internal(url) then url
    else if '.' !in url && !StartsWith(url, "/api/") then IndexPath
    else url
  }

  /**
   * A URL is either passed on unchanged or replaced by `/index.html`; it is
   * replaced exactly when it is not internal, holds no dot anywhere (query
   * included) and does not start with `/api/`. Rewriting twice changes
   * nothing more.
   */
  lemma RewrittenSpec(url: string)
    ensures Rewritten(url) == url || Rewritten(url) == IndexPath
    ensures Rewritten(url) != url <==> !Internal(url) && '.' !in url && !StartsWith(url, "/api/")
    ensures Rewritten(Rewritten(url)) == Rewritten(url)
  {
    assert IndexPath[6] == '.';
  }

  /**
   * The boundary cases: `/api` without a slash is served the page, a route
   * whose query holds a dot is not, and every `/src…` path, even one that is
   * a route name, bypasses the fallback.
   */
  lemma FallbackEdges()
    ensures Rewritten("/api") == IndexPath
    ensures Rewritten("/api/analyze") == "/api/analyze"
    ensures Rewritten("/history?v=1.2") == "/history?v=1.2"
    ensures Rewritten("/history") == IndexPath
    ensures Rewritten("/srcview") == "/srcview"
  {
    NotPrefix("/api", "/@", 1);
    NotPrefix("/api", "/node_modules", 1);
    NotPrefix("/api", "/src", 1);
    NotPrefix("/api", "/api/", 4);
    NotPrefix("/history", "/@", 1);
    NotPrefix("/history", "/node_modules", 1);
    NotPrefix("/history", "/src", 1);
    NotPrefix("/history", "/api/", 1);
    assert "/history?v=1.2"[12] == '.';
    assert forall i :: 0 <= i < |"/api"| ==> "/api"[i] != '.';
    assert forall i :: 0 <= i < |"/history"| ==> "/history"[i] != '.';
    assert StartsWith("/api/analyze", "/api/");
    assert StartsWith("/srcview", "/src");
  }

  /** A string that differs from `p` at position `i` (or is too short to reach it) does not start with `p`. */
  lemma NotPrefix(s: string, p: string, i: nat)
    requires i < |p| && (i >= |s| || s[i] != p[i])
    ensures !StartsWith(s, p)
  {
    if |p| <= |s| {
      assert s[..|p|][i] == s[i];
    }
  }

  /** One request passing through the middleware. */
  class DevRequest {
    var url: string
    /** How many times `next()` has been called. */
    var nextCalls: nat

    constructor(url: string)
      ensures this.url == url && nextCalls == 0
    {
      this.url := url;
      nextCalls := 0;
    }

    method SpaFallback()
      modifies this
      ensures url == Rewritten(old(url))
      ensures nextCalls == old(nextCalls) + 1
    {
      if StartsWith(url, "/@") || StartsWith(url, "/node_modules") || StartsWith(url, "/src") {
        nextCalls := nextCalls + 1;
        return;
      }
      if '.' !in url && !StartsWith(url, "/api/") {
        url := IndexPath;
      }
      nextCalls := nextCalls + 1;
    }
  }
}
