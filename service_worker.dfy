/**
 * The offline cache manager: the install handler that pre-caches a fixed
 * manifest, and the fetch handler that sends API requests through
 * stale-while-revalidate and every other request through cache-first.
 *
 * Asynchronous steps are taken in sequence (look up, then fetch, then
 * possibly write), and the network's answer to a fetch is an input.
 */
module ServiceWorker {
  import opened Wrappers
  import opened Text
  import opened CacheApi

  const CacheName: string := "pwa-cache-v1"
  const ApiCacheName: string := "api-cache-v1"

  /** The assets pre-cached at install time. */
  const UrlsToCache: seq<Url> := [
    "/_next/static/js/main-app.js",
    "/_next/static/js/app/layout.js",
    "/_next/static/js/app/todos/page.js",
    "/_next/static/js/app/bills/page.js",
    "/globals.css",
    "/manifest.json",
    "/",
    "/todos",
    "/bills"
  ]

  lemma ManifestIsDistinct()
    ensures Distinct(UrlsToCache)
  {
  }

  datatype Strategy = StaleWhileRevalidate | CacheFirst

  /** What the fetch handler resolves the event with: a response, or a failed request. */
  datatype Answer = Respond(response: Response) | Fail

  /** The strategy for a request, chosen from its path alone. */
  function Route(pathname: string): Strategy
  {
    if StartsWith(pathname, "/api/") then StaleWhileRevalidate else CacheFirst
  }

  /** Stale-while-revalidate is chosen exactly when the path begins with the five characters "/api/". */
  lemma RouteByPrefix(pathname: string)
    ensures Route(pathname) == StaleWhileRevalidate <==> |pathname| >= 5 && pathname[..5] == "/api/"
    ensures Route(pathname) == CacheFirst <==> !(|pathname| >= 5 && pathname[..5] == "/api/")
  {
    StartsWithIsPrefix(pathname, "/api/");
  }

  /** A path that is only "/api", without the trailing slash, is served cache-first. */
  lemma BareApiPathIsCacheFirst()
    ensures Route("/api") == CacheFirst
    ensures Route("/api/bills") == StaleWhileRevalidate
  {
    RouteByPrefix("/api");
    RouteByPrefix("/api/bills");
  }

  /**
   * The answer both strategies give: the cached response when there is one,
   * otherwise the network's response of whatever status, and a failed
   * request when neither exists.
   */
  function CachedOrNetwork(cached: Option<Response>, net: Fetched): (a: Answer)
    ensures cached.Some? ==> a == Respond(cached.value)
    ensures cached.None? && net.Received? ==> a == Respond(net.response)
    ensures a == Fail <==> cached.None? && net.NetworkError?
  {
    match cached
    case Some(r) => Respond(r)
    case None =>
      match net
      case Received(r) => Respond(r)
      case NetworkError => Fail
  }

  /** The revalidation writes back: a status-200 response to a request the cache accepts. */
  predicate Refreshes(req: Request, net: Fetched)
  {
    net.Received? && net.response.status == 200 && IsGet(req)
  }

  /**
   * The API store after revalidation: the request's entry holds the new
   * response when the network answered 200, and otherwise nothing changes.
   */
  function Revalidated(store: Store, req: Request, net: Fetched): (s: Store)
    ensures s.Keys == if Refreshes(req, net) then store.Keys + {req.url} else store.Keys
    ensures forall u :: u in store && u != req.url ==> s[u] == store[u]
    ensures req.url in s ==> s[req.url] == if Refreshes(req, net) then net.response else store[req.url]
  {
    if Refreshes(req, net) then store[req.url := net.response] else store
  }

  /**
   * Once a revalidation has written a fresh 200 response, the next API request
   * for the same URL is answered with it, whatever the network does then.
   */
  lemma RefreshedEntryServedNext(store: Store, req: Request, net: Fetched, later: Fetched)
    requires Refreshes(req, net)
    ensures CachedOrNetwork(StoreMatch(Revalidated(store, req, net), req), later) == Respond(net.response)
  {
  }

  /**
   * The install handler: open the static store, then `addAll` the manifest,
   * where `outcomes[k]` is the network's answer for `UrlsToCache[k]`.
   */
  method Install(caches: CacheStorage, outcomes: seq<Fetched>) returns (installed: bool)
    requires caches.Valid() && |outcomes| == |UrlsToCache|
    modifies caches
    ensures caches.Valid()
    ensures installed <==> AllAccepted(outcomes)
    ensures caches.names == OpenedNames(old(caches.names), old(caches.stores), CacheName)
    ensures caches.stores == var afterOpen := Opened(old(caches.stores), CacheName);
              if installed then afterOpen[CacheName := PutAll(afterOpen[CacheName], UrlsToCache, outcomes)] else afterOpen
    ensures forall n :: n in old(caches.stores) && n != CacheName ==> n in caches.stores && caches.stores[n] == old(caches.stores)[n]
    ensures caches.trace == old(caches.trace) + FetchSteps(UrlsToCache)
              + (if installed then PutSteps(CacheName, UrlsToCache) else [])
  {
    caches.Open(CacheName);
    ManifestIsDistinct();
    installed := caches.AddAll(CacheName, UrlsToCache, outcomes);
  }

  /**
   * What a successful install leaves in the static store: every manifest URL,
   * holding the response fetched for it, and every earlier entry for a URL
   * outside the manifest unchanged.
   */
  lemma InstallStoresManifest(store: Store, outcomes: seq<Fetched>)
    requires |outcomes| == |UrlsToCache| && AllAccepted(outcomes)
    ensures forall k :: 0 <= k < |UrlsToCache| ==>
      UrlsToCache[k] in PutAll(store, UrlsToCache, outcomes)
      && PutAll(store, UrlsToCache, outcomes)[UrlsToCache[k]] == outcomes[k].response
    ensures forall u :: u in store && u !in UrlsToCache ==>
      u in PutAll(store, UrlsToCache, outcomes) && PutAll(store, UrlsToCache, outcomes)[u] == store[u]
  {
    ManifestIsDistinct();
    PutAllStores(store, UrlsToCache, outcomes);
  }

  /**
   * The API branch: open the API store, look the request up, always fetch,
   * write a status-200 response back, and answer from the cache when it had
   * the request, from the network otherwise.
   */
  method StaleWhileRevalidateBranch(caches: CacheStorage, req: Request, net: Fetched) returns (answer: Answer)
    requires caches.Valid()
    modifies caches
    ensures caches.Valid()
    ensures caches.names == OpenedNames(old(caches.names), old(caches.stores), ApiCacheName)
    ensures var afterOpen := Opened(old(caches.stores), ApiCacheName);
      && caches.stores == afterOpen[ApiCacheName := Revalidated(afterOpen[ApiCacheName], req, net)]
      && answer == CachedOrNetwork(StoreMatch(afterOpen[ApiCacheName], req), net)
    ensures caches.trace == old(caches.trace) + [MatchIn(ApiCacheName, req.url), Step.Fetch(req.url)]
              + (if net.Received? && net.response.status == 200 then [Step.Put(ApiCacheName, req.url)] else [])
  {
    caches.Open(ApiCacheName);
    var cachedResponse := caches.Match(ApiCacheName, req);
    var networkResponse := caches.Fetch(req, net);
    if networkResponse.Received? && networkResponse.response.status == 200 {
      var _ := caches.Put(ApiCacheName, req, networkResponse.response);
    }
    if cachedResponse.Some? {
      answer := Respond(cachedResponse.value);
    } else if networkResponse.Received? {
      answer := Respond(networkResponse.response);
    } else {
      answer := Fail;
    }
  }

  /**
   * Every other request: answer from any store when one has it, without
   * touching the network; otherwise fetch and pass the result on unchanged.
   * No store is written.
   */
  method CacheFirstBranch(caches: CacheStorage, req: Request, net: Fetched) returns (answer: Answer)
    requires caches.Valid()
    modifies caches`trace
    ensures caches.names == old(caches.names) && caches.stores == old(caches.stores)
    ensures answer == CachedOrNetwork(MatchAll(caches.names, caches.stores, req), net)
    ensures caches.trace == old(caches.trace) + [MatchAny(req.url)]
              + (if MatchAll(caches.names, caches.stores, req).Some? then [] else [Step.Fetch(req.url)])
  {
    var response := caches.MatchAnyStore(req);
    if response.Some? {
      answer := Respond(response.value);
      return;
    }
    var fetched := caches.Fetch(req, net);
    answer := if fetched.Received? then Respond(fetched.response) else Fail;
  }

  /** The fetch handler: exactly one strategy answers each request, chosen by `Route`. */
  method HandleFetch(caches: CacheStorage, req: Request, net: Fetched) returns (answer: Answer)
    requires caches.Valid()
    modifies caches
    ensures caches.Valid()
    ensures Route(req.pathname) == StaleWhileRevalidate ==>
      var afterOpen := Opened(old(caches.stores), ApiCacheName);
      && caches.names == OpenedNames(old(caches.names), old(caches.stores), ApiCacheName)
      && caches.stores == afterOpen[ApiCacheName := Revalidated(afterOpen[ApiCacheName], req, net)]
      && answer == CachedOrNetwork(StoreMatch(afterOpen[ApiCacheName], req), net)
      && caches.trace == old(caches.trace) + [MatchIn(ApiCacheName, req.url), Step.Fetch(req.url)]
           + (if net.Received? && net.response.status == 200 then [Step.Put(ApiCacheName, req.url)] else [])
    ensures Route(req.pathname) == CacheFirst ==>
      && caches.names == old(caches.names) && caches.stores == old(caches.stores)
      && answer == CachedOrNetwork(MatchAll(old(caches.names), old(caches.stores), req), net)
      && caches.trace == old(caches.trace) + [MatchAny(req.url)]
           + (if MatchAll(old(caches.names), old(caches.stores), req).Some? then [] else [Step.Fetch(req.url)])
  {
    if Route(req.pathname) == StaleWhileRevalidate {
      answer := StaleWhileRevalidateBranch(caches, req, net);
      return;
    }
    answer := CacheFirstBranch(caches, req, net);
  }

  /**
   * Once a store of the worker holds a URL, a cache-first GET for it is
   * answered from the caches (so without a network call).
   */
  lemma {:induction false} StoredUrlHits(names: seq<string>, stores: map<string, Store>, name: string, req: Request)
    requires forall n :: n in stores <==> n in names
    requires name in stores && req.url in stores[name] && IsGet(req)
    ensures MatchAll(names, stores, req).Some?
  {
    var k :| 0 <= k < |names| && names[k] == name;
    assert HitIn(names[k], stores, req);
    MatchAllFirstHit(names, stores, req);
  }

  /**
   * After a successful install from the stores `before`, every manifest URL is
   * answered from the caches by the cache-first branch, with no network fetch.
   * The requirements on `stores` are what `Install` ensures when it returns true.
   */
  lemma InstalledManifestIsServedFromCache(before: map<string, Store>, names: seq<string>, stores: map<string, Store>,
                                           outcomes: seq<Fetched>, u: Url)
    requires forall n :: n in stores <==> n in names
    requires |outcomes| == |UrlsToCache| && AllAccepted(outcomes)
    requires stores == Opened(before, CacheName)[CacheName := PutAll(Opened(before, CacheName)[CacheName], UrlsToCache, outcomes)]
    requires u in UrlsToCache
    ensures MatchAll(names, stores, Request("GET", u, u)).Some?
  {
    InstallStoresManifest(Opened(before, CacheName)[CacheName], outcomes);
    StoredUrlHits(names, stores, CacheName, Request("GET", u, u));
  }

  /** A successful `Install` is followed by cache hits for the whole manifest. */
  method InstallThenServe(caches: CacheStorage, outcomes: seq<Fetched>, u: Url) returns (installed: bool, hit: bool)
    requires caches.Valid() && |outcomes| == |UrlsToCache| && u in UrlsToCache
    modifies caches
    ensures installed <==> AllAccepted(outcomes)
    ensures installed ==> hit
  {
    var before := caches.stores;
    installed := Install(caches, outcomes);
    hit := false;
    if installed {
      InstalledManifestIsServedFromCache(before, caches.names, caches.stores, outcomes, u);
      var r := caches.MatchAnyStore(Request("GET", u, u));
      hit := r.Some?;
    }
  }
}
