/**
 * The host's Cache Storage interface as the service worker uses it: named
 * stores opened on demand and remembered in creation order, per-store
 * `match` and `put`, the cross-store `caches.match`, the all-or-nothing
 * `addAll`, and the network `fetch`.  Every cache and network operation the
 * worker issues is appended to a trace, so that the handlers' contracts can
 * say which operations happen and in what order.
 *
 * The rules follow the Cache and CacheStorage algorithms of the W3C Service
 * Workers specification (section 5.4, "Cache", and section 5.5,
 * "CacheStorage"): a request is keyed by its URL; only GET requests match
 * or can be stored; `put` refuses a 206 response; `addAll` rejects unless
 * every fetch returns an ok status (200 to 299) other than 206 and the URLs
 * are distinct, and then stores all entries in one batch.
 */
module CacheApi {
  import opened Wrappers

  type Url = string

  /** An intercepted request: its method (`verb`), its URL (the cache key) and the URL's path. */
  datatype Request = Request(verb: string, url: Url, pathname: string)

  /** A response snapshot: status and body (headers are not modelled). */
  datatype Response = Response(status: int, body: string)

  /** The outcome of one network fetch: a response of any status, or a network error. */
  datatype Fetched = Received(response: Response) | NetworkError

  /** One named store: request URL to stored response. */
  type Store = map<Url, Response>

  /** A cache or network operation, in the order the worker issues them. */
  datatype Step =
    | Fetch(url: Url)
    | MatchIn(cacheName: string, url: Url)
    | MatchAny(url: Url)
    | Put(cacheName: string, url: Url)

  predicate Distinct<T(==)>(s: seq<T>)
  {
    forall i, j :: 0 <= i < j < |s| ==> s[i] != s[j]
  }

  predicate IsGet(req: Request)
  {
    req.verb == "GET"
  }

  /** `cache.match(req)` on one store. */
  function StoreMatch(store: Store, req: Request): Option<Response>
  {
    if IsGet(req) && req.url in store then Some(store[req.url]) else None
  }

  /** The store called `name` holds an answer for `req`. */
  predicate HitIn(name: string, stores: map<string, Store>, req: Request)
  {
    name in stores && StoreMatch(stores[name], req).Some?
  }

  /** `caches.match(req)`: the answer of the first store, in creation order, that has one. */
  function MatchAll(names: seq<string>, stores: map<string, Store>, req: Request): Option<Response>
  {
    if names == [] then None
    else if HitIn(names[0], stores, req) then StoreMatch(stores[names[0]], req)
    else MatchAll(names[1..], stores, req)
  }

  /**
   * `caches.match` answers exactly when some store has a hit, and then with
   * the response of the first such store in creation order.
   */
  lemma {:induction false} MatchAllFirstHit(names: seq<string>, stores: map<string, Store>, req: Request)
    ensures MatchAll(names, stores, req).Some? <==> exists k :: 0 <= k < |names| && HitIn(names[k], stores, req)
    ensures MatchAll(names, stores, req).Some? ==>
      exists k :: 0 <= k < |names| && HitIn(names[k], stores, req)
                && MatchAll(names, stores, req) == StoreMatch(stores[names[k]], req)
                && forall j :: 0 <= j < k ==> !HitIn(names[j], stores, req)
  {
    if names != [] && !HitIn(names[0], stores, req) {
      MatchAllFirstHit(names[1..], stores, req);
      assert forall k :: 1 <= k < |names| ==> names[k] == names[1..][k - 1];
      if MatchAll(names, stores, req).Some? {
        var k :| 0 <= k < |names[1..]| && HitIn(names[1..][k], stores, req)
                && MatchAll(names[1..], stores, req) == StoreMatch(stores[names[1..][k]], req)
                && forall j :: 0 <= j < k ==> !HitIn(names[1..][j], stores, req);
        assert forall j :: 0 <= j < k + 1 ==> !HitIn(names[j], stores, req);
      }
    }
  }

  /** The stores after `caches.open(name)`: an empty store is created when none has that name. */
  function Opened(stores: map<string, Store>, name: string): map<string, Store>
  {
    if name in stores then stores else stores[name := map[]]
  }

  /** The creation order after `caches.open(name)`. */
  function OpenedNames(names: seq<string>, stores: map<string, Store>, name: string): seq<string>
  {
    if name in stores then names else names + [name]
  }

  /** A response `addAll` accepts: an ok status other than 206 (partial content). */
  predicate AddAllAccepts(r: Response)
  {
    200 <= r.status <= 299 && r.status != 206
  }

  predicate AllAccepted(outcomes: seq<Fetched>)
  {
    forall k :: 0 <= k < |outcomes| ==> outcomes[k].Received? && AddAllAccepts(outcomes[k].response)
  }

  /** `store` after putting the response of each fetch under its URL, in list order. */
  function PutAll(store: Store, urls: seq<Url>, outcomes: seq<Fetched>): Store
    requires |urls| == |outcomes|
  {
    if urls == [] then store
    else
      var n := |urls| - 1;
      var s := PutAll(store, urls[..n], outcomes[..n]);
      if outcomes[n].Received? then s[urls[n] := outcomes[n].response] else s
  }

  /**
   * A successful batch stores every listed URL with its own response, adds
   * no other key and leaves every other entry as it was.
   */
  lemma {:induction false} PutAllStores(store: Store, urls: seq<Url>, outcomes: seq<Fetched>)
    requires |urls| == |outcomes| && Distinct(urls) && AllAccepted(outcomes)
    ensures PutAll(store, urls, outcomes).Keys == store.Keys + set u | u in urls
    ensures forall k :: 0 <= k < |urls| ==> PutAll(store, urls, outcomes)[urls[k]] == outcomes[k].response
    ensures forall u :: u in store && u !in urls ==> PutAll(store, urls, outcomes)[u] == store[u]
  {
    if urls != [] {
      var n := |urls| - 1;
      var pre, got := urls[..n], outcomes[..n];
      PrefixKeepsBatch(urls, outcomes);
      PutAllStores(store, pre, got);
      PutAllLast(store, urls, outcomes);
    }
  }

  lemma PrefixKeepsBatch(urls: seq<Url>, outcomes: seq<Fetched>)
    requires |urls| == |outcomes| > 0 && Distinct(urls) && AllAccepted(outcomes)
    ensures Distinct(urls[..|urls| - 1]) && AllAccepted(outcomes[..|urls| - 1])
    ensures urls[|urls| - 1] !in urls[..|urls| - 1]
  {
    var n := |urls| - 1;
    assert forall k :: 0 <= k < n ==> urls[..n][k] == urls[k] && outcomes[..n][k] == outcomes[k];
  }

  /** The induction step of `PutAllStores`: the last put adds its URL on top of the earlier ones. */
  lemma PutAllLast(store: Store, urls: seq<Url>, outcomes: seq<Fetched>)
    requires |urls| == |outcomes| > 0 && AllAccepted(outcomes)
    requires urls[|urls| - 1] !in urls[..|urls| - 1]
    requires var n := |urls| - 1; var s := PutAll(store, urls[..n], outcomes[..n]);
      && s.Keys == store.Keys + (set u | u in urls[..n])
      && (forall k :: 0 <= k < n ==> s[urls[..n][k]] == outcomes[..n][k].response)
      && (forall u :: u in store && u !in urls[..n] ==> s[u] == store[u])
    ensures PutAll(store, urls, outcomes).Keys == store.Keys + set u | u in urls
    ensures forall k :: 0 <= k < |urls| ==> PutAll(store, urls, outcomes)[urls[k]] == outcomes[k].response
    ensures forall u :: u in store && u !in urls ==> PutAll(store, urls, outcomes)[u] == store[u]
  {
    var n := |urls| - 1;
    var pre, got := urls[..n], outcomes[..n];
    var s := PutAll(store, pre, got);
    var r := PutAll(store, urls, outcomes);
    assert outcomes[n].Received?;
    assert r == s[urls[n] := outcomes[n].response];
    assert (set u | u in urls) == (set u | u in pre) + {urls[n]} by {
      assert urls == pre + [urls[n]];
    }
    forall k | 0 <= k < n ensures r[urls[k]] == outcomes[k].response {
      assert urls[k] == pre[k] && outcomes[k] == got[k];
    }
    forall u | u in store && u !in urls ensures r[u] == store[u] {
      assert u != urls[n] && u !in pre;
    }
  }

  /** The fetches `addAll` starts, one per URL, in list order. */
  function FetchSteps(urls: seq<Url>): (t: seq<Step>)
    ensures |t| == |urls|
    ensures forall k :: 0 <= k < |urls| ==> t[k] == Fetch(urls[k])
  {
    if urls == [] then [] else FetchSteps(urls[..|urls| - 1]) + [Fetch(urls[|urls| - 1])]
  }

  /** The puts of `addAll`'s batch, one per URL, in list order. */
  function PutSteps(name: string, urls: seq<Url>): (t: seq<Step>)
    ensures |t| == |urls|
    ensures forall k :: 0 <= k < |urls| ==> t[k] == Put(name, urls[k])
  {
    if urls == [] then [] else PutSteps(name, urls[..|urls| - 1]) + [Put(name, urls[|urls| - 1])]
  }

  class CacheStorage {
    /** Store names, in creation order. */
    var names: seq<string>
    var stores: map<string, Store>
    /** Every cache and network operation issued so far. */
    var trace: seq<Step>

    ghost predicate Valid()
      reads this
    {
      Distinct(names) && forall n :: n in stores <==> n in names
    }

    constructor ()
      ensures Valid() && names == [] && stores == map[] && trace == []
    {
      names, stores, trace := [], map[], [];
    }

    /** `caches.open(name)`: creates the store if there is none of that name. */
    method Open(name: string)
      requires Valid()
      modifies this
      ensures Valid() && name in stores
      ensures names == OpenedNames(old(names), old(stores), name)
      ensures stores == Opened(old(stores), name)
      ensures trace == old(trace)
    {
      if name !in stores {
        names := names + [name];
        stores := stores[name := map[]];
      }
    }

    /** `cache.match(req)` on the store called `name`. */
    method Match(name: string, req: Request) returns (r: Option<Response>)
      requires Valid() && name in stores
      modifies this`trace
      ensures r == StoreMatch(stores[name], req)
      ensures r.Some? <==> IsGet(req) && req.url in stores[name]
      ensures trace == old(trace) + [MatchIn(name, req.url)]
    {
      trace := trace + [MatchIn(name, req.url)];
      if IsGet(req) && req.url in stores[name] {
        r := Some(stores[name][req.url]);
      } else {
        r := None;
      }
    }

    /** `caches.match(req)`: searches the stores in creation order and answers from the first hit. */
    method MatchAnyStore(req: Request) returns (r: Option<Response>)
      requires Valid()
      modifies this`trace
      ensures r == MatchAll(names, stores, req)
      ensures trace == old(trace) + [MatchAny(req.url)]
    {
      trace := trace + [MatchAny(req.url)];
      var i := 0;
      r := None;
      while i < |names|
        invariant 0 <= i <= |names|
        invariant MatchAll(names, stores, req) == MatchAll(names[i..], stores, req)
      {
        if names[i] in stores && IsGet(req) && req.url in stores[names[i]] {
          r := Some(stores[names[i]][req.url]);
          return;
        }
        assert names[i..][1..] == names[i + 1..];
        i := i + 1;
      }
    }

    /** `fetch(req)`: the network's answer is the outcome `net`, supplied by the caller. */
    method Fetch(req: Request, net: Fetched) returns (f: Fetched)
      modifies this`trace
      ensures f == net
      ensures trace == old(trace) + [Step.Fetch(req.url)]
    {
      trace := trace + [Step.Fetch(req.url)];
      f := net;
    }

    /**
     * `cache.put(req, resp)` on the store called `name`.  A non-GET request or a
     * 206 response makes the call reject and the store stays as it was.
     */
    method Put(name: string, req: Request, resp: Response) returns (stored: bool)
      requires Valid() && name in stores
      modifies this`stores, this`trace
      ensures stored <==> IsGet(req) && resp.status != 206
      ensures stores == if stored then old(stores)[name := old(stores)[name][req.url := resp]] else old(stores)
      ensures trace == old(trace) + [Step.Put(name, req.url)]
    {
      trace := trace + [Step.Put(name, req.url)];
      stored := IsGet(req) && resp.status != 206;
      if stored {
        stores := stores[name := stores[name][req.url := resp]];
      }
    }

    /**
     * `cache.addAll(urls)` on the store called `name`, where `outcomes[k]` is
     * what the network returns for `urls[k]`.  All fetches are started; the
     * batch is written only if every one is accepted and no URL repeats.
     */
    method AddAll(name: string, urls: seq<Url>, outcomes: seq<Fetched>) returns (ok: bool)
      requires Valid() && name in stores && |outcomes| == |urls|
      modifies this`stores, this`trace
      ensures ok <==> Distinct(urls) && AllAccepted(outcomes)
      ensures stores == if ok then old(stores)[name := PutAll(old(stores)[name], urls, outcomes)] else old(stores)
      ensures trace == old(trace) + FetchSteps(urls) + (if ok then PutSteps(name, urls) else [])
    {
      ok := FetchEach(urls, outcomes);
      ok := ok && Distinct(urls);
      if ok {
        CommitBatch(name, urls, outcomes);
      }
    }

    /** Starts one fetch per URL and reports whether `addAll` accepts every response. */
    method FetchEach(urls: seq<Url>, outcomes: seq<Fetched>) returns (ok: bool)
      requires |outcomes| == |urls|
      modifies this`trace
      ensures ok <==> AllAccepted(outcomes)
      ensures trace == old(trace) + FetchSteps(urls)
    {
      var i := 0;
      ok := true;
      while i < |urls|
        invariant 0 <= i <= |urls|
        invariant trace == old(trace) + FetchSteps(urls[..i])
        invariant ok <==> AllAccepted(outcomes[..i])
      {
        trace := trace + [Step.Fetch(urls[i])];
        ok := ok && outcomes[i].Received? && AddAllAccepts(outcomes[i].response);
        assert urls[..i + 1][..i] == urls[..i];
        assert outcomes[..i + 1][..i] == outcomes[..i];
        i := i + 1;
      }
      assert urls[..i] == urls && outcomes[..i] == outcomes;
    }

    /** Writes the accepted responses into the store called `name` as one batch of puts. */
    method CommitBatch(name: string, urls: seq<Url>, outcomes: seq<Fetched>)
      requires Valid() && name in stores && |outcomes| == |urls| && AllAccepted(outcomes)
      modifies this`stores, this`trace
      ensures stores == old(stores)[name := PutAll(old(stores)[name], urls, outcomes)]
      ensures trace == old(trace) + PutSteps(name, urls)
    {
      var batch := stores[name];
      var i := 0;
      while i < |urls|
        invariant 0 <= i <= |urls|
        invariant stores == old(stores)
        invariant batch == PutAll(stores[name], urls[..i], outcomes[..i])
        invariant trace == old(trace) + PutSteps(name, urls[..i])
      {
        trace := trace + [Step.Put(name, urls[i])];
        batch := batch[urls[i] := outcomes[i].response];
        assert urls[..i + 1][..i] == urls[..i];
        assert outcomes[..i + 1][..i] == outcomes[..i];
        i := i + 1;
      }
      assert urls[..i] == urls && outcomes[..i] == outcomes;
      stores := stores[name := batch];
    }
  }
}
