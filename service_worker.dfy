/**
 * The offline cache of `service-worker.js`: the browser's cache storage (named
 * caches in creation order, each mapping request URLs to responses), the
 * install step that fills the current generation, the fetch routing, and the
 * activation sweep of older generations. The network is a parameter.
 */
module ServiceWorker {
  import opened Wrappers

  const CacheName: string := "offgridone-v3"
  const ApiHost: string := "management.offgridone.net"
  const OfflinePage: string := "./index.html"

  /** The app shell cached on install, in order. */
  const UrlsToCache: seq<string> := [
    "./",
    "./index.html",
    "./styles.css",
    "./app.js",
    "./manifest.json",
    "./assets/images/icon-192.png",
    "./assets/images/icon-512.png",
    "./assets/images/OffGridOne-horizontal.png",
    "./assets/images/splash.png",
    "https://fonts.googleapis.com/icon?family=Material+Icons",
    "https://cdnjs.cloudflare.com/ajax/libs/jszip/3.10.1/jszip.min.js"
  ]

  /** The parts of a request the worker looks at; `url` is also its cache key. */
  datatype Request = Request(verb: string, url: string, hostname: string, mode: string)

  datatype Response = Response(status: int, contentType: string, body: string)

  /** What `fetch` does with a request: a response, or a rejected promise. */
  datatype NetResult = NetResponse(response: Response) | NetFailure

  /** The synthetic reply to a device API request that cannot reach the network. */
  const OfflineApiResponse: Response :=
    Response(503, "application/json", "{\"error\": \"Offline - API unavailable\"}")

  /** What the page gets for one request. */
  datatype FetchOutcome =
    | Passthrough              // no `respondWith`: the browser's own network fetch
    | Respond(response: Response)
    | RespondNothing           // `respondWith` resolved with `undefined`: a network error for the page
    | Fail                     // `respondWith` rejected: the fetch error reaches the page

  // ----- The routing decision -----

  /**
   * The fetch handler as a decision on the request, what the cache lookup of
   * its URL found, what the network gave, and what the lookup of the offline
   * page finds.
   */
  function Decide(req: Request, cached: Option<Response>, network: NetResult, offline: Option<Response>): FetchOutcome {
    if req.verb != "GET" then Passthrough
    else if req.hostname == ApiHost then
      (match network
       case NetResponse(r) => Respond(r)
       case NetFailure => Respond(OfflineApiResponse))
    else if cached.Some? then Respond(cached.value)
    else
      match network
      case NetResponse(r) => Respond(r)
      case NetFailure =>
        if req.mode == "navigate" then
          (match offline
           case Some(page) => Respond(page)
           case None => RespondNothing)
        else Fail
  }

  /** Whether handling the request writes the network's response into the current cache. */
  predicate Stores(req: Request, cached: Option<Response>, network: NetResult) {
    && req.verb == "GET" && req.hostname != ApiHost && cached.None?
    && network.NetResponse? && network.response.status == 200
  }

  /** A request other than GET is left to the browser and touches no cache. */
  lemma NonGetPassesThrough(req: Request, cached: Option<Response>, network: NetResult, offline: Option<Response>)
    requires req.verb != "GET"
    ensures Decide(req, cached, network, offline) == Passthrough
    ensures !Stores(req, cached, network)
  {
  }

  /**
   * A GET to the device API goes to the network only: the cache lookups do not
   * affect the outcome, nothing is stored, and a network failure becomes the
   * synthetic 503 reply.
   */
  lemma ApiIsNetworkOnly(req: Request, c1: Option<Response>, c2: Option<Response>, network: NetResult,
                         o1: Option<Response>, o2: Option<Response>)
    requires req.verb == "GET" && req.hostname == ApiHost
    ensures Decide(req, c1, network, o1) == Decide(req, c2, network, o2)
    ensures !Stores(req, c1, network)
    ensures network.NetFailure? ==> Decide(req, c1, network, o1) == Respond(OfflineApiResponse)
    ensures network.NetResponse? ==> Decide(req, c1, network, o1) == Respond(network.response)
  {
  }

  /** A cached response is returned as it is, whatever the network would have done. */
  lemma CacheHitIgnoresNetwork(req: Request, page: Response, n1: NetResult, n2: NetResult, offline: Option<Response>)
    requires req.verb == "GET" && req.hostname != ApiHost
    ensures Decide(req, Some(page), n1, offline) == Decide(req, Some(page), n2, offline) == Respond(page)
    ensures !Stores(req, Some(page), n1)
  {
  }

  /** On a miss the network's response is returned unchanged, and stored exactly
      when its status is 200. */
  lemma MissReturnsNetwork(req: Request, r: Response, offline: Option<Response>)
    requires req.verb == "GET" && req.hostname != ApiHost
    ensures Decide(req, None, NetResponse(r), offline) == Respond(r)
    ensures Stores(req, None, NetResponse(r)) <==> r.status == 200
  {
  }

  /**
   * A miss whose network fetch fails: a navigation gets the cached offline
   * page, or nothing when that is not cached either; any other request gets
   * the failure. Nothing is stored.
   */
  lemma MissOffline(req: Request, offline: Option<Response>)
    requires req.verb == "GET" && req.hostname != ApiHost
    ensures !Stores(req, None, NetFailure)
    ensures req.mode == "navigate" && offline.Some? ==> Decide(req, None, NetFailure, offline) == Respond(offline.value)
    ensures req.mode == "navigate" && offline.None? ==> Decide(req, None, NetFailure, offline) == RespondNothing
    ensures req.mode != "navigate" ==> Decide(req, None, NetFailure, offline) == Fail
  {
  }

  // ----- Cache storage -----

  /** `caches.match`: the URL's entry in the first cache, in creation order, that has one. */
  function MatchIn(names: seq<string>, entries: map<string, map<string, Response>>, url: string): (r: Option<Response>)
    ensures r.Some? ==> exists k :: 0 <= k < |names| && names[k] in entries && url in entries[names[k]]
                                   && r.value == entries[names[k]][url]
    ensures r.None? <==> forall k :: 0 <= k < |names| && names[k] in entries ==> url !in entries[names[k]]
  {
    if names == [] then None
    else if names[0] in entries && url in entries[names[0]] then Some(entries[names[0]][url])
    else
      var r := MatchIn(names[1..], entries, url);
      if r.Some? then
        var k :| 0 <= k < |names[1..]| && names[1..][k] in entries && url in entries[names[1..][k]]
                 && r.value == entries[names[1..][k]][url];
        assert names[k + 1] == names[1..][k];
        r
      else
        assert forall k :: 1 <= k < |names| ==> names[k] == names[1..][k - 1];
        r
  }

  /** The names left by the activation sweep: only the current generation's. */
  function OnlyCurrent(names: seq<string>): (r: seq<string>)
    ensures forall k :: 0 <= k < |r| ==> r[k] == CacheName
    ensures CacheName in names <==> CacheName in r
  {
    if names == [] then []
    else if names[0] == CacheName then [CacheName] + OnlyCurrent(names[1..])
    else OnlyCurrent(names[1..])
  }

  predicate Distinct(names: seq<string>) {
    forall i, j :: 0 <= i < j < |names| ==> names[i] != names[j]
  }

  /** `names` without `name`. */
  function Drop(names: seq<string>, name: string): (r: seq<string>)
    ensures forall k :: 0 <= k < |r| ==> r[k] != name && r[k] in names
    ensures forall n :: n in names && n != name ==> n in r
  {
    if names == [] then []
    else if names[0] == name then Drop(names[1..], name)
    else [names[0]] + Drop(names[1..], name)
  }

  lemma {:induction false} DropAppend(a: seq<string>, b: seq<string>, name: string)
    ensures Drop(a + b, name) == Drop(a, name) + Drop(b, name)
  {
    if a == [] {
      assert a + b == b;
    } else {
      assert (a + b)[1..] == a[1..] + b;
      DropAppend(a[1..], b, name);
    }
  }

  lemma {:induction false} DropDistinct(names: seq<string>, name: string)
    requires Distinct(names)
    ensures Distinct(Drop(names, name))
  {
    if names != [] {
      DropDistinct(names[1..], name);
      if names[0] != name {
        var rest := Drop(names[1..], name);
        assert names[0] !in rest by {
          assert names[0] !in names[1..];
        }
        forall i, j | 0 <= i < j < |[names[0]] + rest| ensures ([names[0]] + rest)[i] != ([names[0]] + rest)[j] {
          if i == 0 { assert ([names[0]] + rest)[j] == rest[j - 1]; }
          else { assert ([names[0]] + rest)[i] == rest[i - 1] && ([names[0]] + rest)[j] == rest[j - 1]; }
        }
      }
    }
  }

  /**
   * One step of the sweep over a snapshot of distinct names: the names before
   * `i` are swept, the rest untouched; deleting name `i` (when it is not the
   * current generation's) extends the swept part by one.
   */
  lemma SweepStep(snapshot: seq<string>, i: nat)
    requires Distinct(snapshot) && i < |snapshot|
    ensures var now := OnlyCurrent(snapshot[..i]) + snapshot[i..];
      var next := OnlyCurrent(snapshot[..i + 1]) + snapshot[i + 1..];
      (if snapshot[i] == CacheName then now else Drop(now, snapshot[i])) == next
  {
    var name := snapshot[i];
    var swept := OnlyCurrent(snapshot[..i]);
    var rest := snapshot[i + 1..];
    assert snapshot[..i + 1] == snapshot[..i] + [name];
    OnlyCurrentAppend(snapshot[..i], [name]);
    assert snapshot[i..] == [name] + rest;
    if name != CacheName {
      assert OnlyCurrent(snapshot[..i + 1]) == swept;
      NotInRest(snapshot, i);
      DropSplit(swept, name, rest);
    }
  }

  lemma NotInRest(snapshot: seq<string>, i: nat)
    requires Distinct(snapshot) && i < |snapshot|
    ensures snapshot[i] !in snapshot[i + 1..]
  {
    var rest := snapshot[i + 1..];
    forall k | 0 <= k < |rest| ensures rest[k] != snapshot[i] {
      assert rest[k] == snapshot[i + 1 + k];
    }
  }

  /** Dropping a name that occurs once, between two parts that lack it. */
  lemma DropSplit(swept: seq<string>, name: string, rest: seq<string>)
    requires forall k :: 0 <= k < |swept| ==> swept[k] == CacheName
    requires name != CacheName && name !in rest
    ensures Drop(swept + ([name] + rest), name) == swept + rest
  {
    DropAppend(swept, [name] + rest, name);
    DropAppend([name], rest, name);
    DropAbsent(swept, name);
    DropAbsent(rest, name);
  }

  lemma {:induction false} DropAbsent(names: seq<string>, name: string)
    requires name !in names
    ensures Drop(names, name) == names
  {
    if names != [] {
      DropAbsent(names[1..], name);
    }
  }

  lemma {:induction false} OnlyCurrentAppend(a: seq<string>, b: seq<string>)
    ensures OnlyCurrent(a + b) == OnlyCurrent(a) + OnlyCurrent(b)
  {
    if a == [] {
      assert a + b == b;
    } else {
      assert (a + b)[1..] == a[1..] + b;
      OnlyCurrentAppend(a[1..], b);
    }
  }

  /** Sweeping twice is sweeping once. */
  lemma {:induction false} OnlyCurrentIdempotent(names: seq<string>)
    ensures OnlyCurrent(OnlyCurrent(names)) == OnlyCurrent(names)
  {
    if names != [] {
      OnlyCurrentIdempotent(names[1..]);
    }
  }

  /** A swept list of distinct names holds the current generation at most once. */
  lemma OnlyCurrentDistinct(names: seq<string>)
    requires Distinct(names)
    ensures OnlyCurrent(names) == if CacheName in names then [CacheName] else []
  {
    if CacheName in names {
      var k :| 0 <= k < |names| && names[k] == CacheName;
      assert names == names[..k] + [CacheName] + names[k + 1..];
      OnlyCurrentAppend(names[..k] + [CacheName], names[k + 1..]);
      OnlyCurrentAppend(names[..k], [CacheName]);
      OnlyCurrentNone(names[..k]);
      OnlyCurrentNone(names[k + 1..]);
    } else {
      OnlyCurrentNone(names);
    }
  }

  lemma {:induction false} OnlyCurrentNone(names: seq<string>)
    requires CacheName !in names
    ensures OnlyCurrent(names) == []
  {
    if names != [] {
      OnlyCurrentNone(names[1..]);
    }
  }

  /** Whether every response of the install list can be cached: `addAll` rejects
      on a network failure or a status outside 200..299. */
  predicate AllCacheable(urls: seq<string>, net: string -> NetResult) {
    forall k :: 0 <= k < |urls| ==>
      net(urls[k]).NetResponse? && 200 <= net(urls[k]).response.status < 300
  }

  /** The cache `addAll` leaves: each URL mapped to its response, later URLs winning. */
  function PutAll(cache: map<string, Response>, urls: seq<string>, net: string -> NetResult): (r: map<string, Response>)
    requires AllCacheable(urls, net)
    ensures forall k :: 0 <= k < |urls| ==> urls[k] in r
    ensures forall url :: url in r ==> url in cache || url in urls
    ensures forall url :: url in cache && url !in urls ==> url in r && r[url] == cache[url]
    ensures forall url :: url in urls ==> r[url] == net(url).response
    decreases |urls|
  {
    if urls == [] then cache
    else
      var rest := urls[..|urls| - 1];
      var last := urls[|urls| - 1];
      assert AllCacheable(rest, net) by {
        forall k | 0 <= k < |rest| ensures net(rest[k]).NetResponse? && 200 <= net(rest[k]).response.status < 300 {
          assert rest[k] == urls[k];
        }
      }
      var before := PutAll(cache, rest, net);
      assert forall url :: url in urls <==> url in rest || url == last;
      before[last := net(last).response]
  }

  class CacheStorage {
    /** Cache names in creation order (the order `caches.match` searches). */
    var names: seq<string>
    /** Each cache's entries, by request URL. */
    var entries: map<string, map<string, Response>>

    ghost predicate Valid()
      reads this
    {
      && Distinct(names)
      && (forall n :: n in entries <==> n in names)
    }

    /** Storage with no caches yet. */
    constructor ()
      ensures names == [] && entries == map[]
      ensures Valid()
    {
      names := [];
      entries := map[];
    }

    /** `caches.match(url)`. */
    function Lookup(url: string): (r: Option<Response>)
      reads this
      requires Valid()
      ensures r.Some? ==> exists n :: n in entries && url in entries[n] && r.value == entries[n][url]
      ensures r.None? <==> forall n :: n in entries ==> url !in entries[n]
    {
      MatchIn(names, entries, url)
    }

    /** `caches.open(name)`: creates the cache, last in order, when it does not exist. */
    method Open(name: string)
      requires Valid()
      modifies this
      ensures name in old(entries) ==> names == old(names) && entries == old(entries)
      ensures name !in old(entries) ==> names == old(names) + [name] && entries == old(entries)[name := map[]]
      ensures entries == old(entries)[name := if name in old(entries) then old(entries)[name] else map[]]
      ensures Valid()
    {
      if name !in entries {
        names := names + [name];
        entries := entries[name := map[]];
      }
    }

    /** `caches.open(name)` then `cache.put(url, response)`. */
    method Put(name: string, url: string, response: Response)
      requires Valid()
      modifies this
      ensures names == old(names) + (if name in old(entries) then [] else [name])
      ensures entries == old(entries)[name := (if name in old(entries) then old(entries)[name] else map[])[url := response]]
      ensures Valid()
    {
      Open(name);
      entries := entries[name := entries[name][url := response]];
    }

    /** `caches.delete(name)`: reports whether the cache existed. */
    method Delete(name: string) returns (existed: bool)
      requires Valid()
      modifies this
      ensures existed <==> name in old(entries)
      ensures names == Drop(old(names), name)
      ensures entries == old(entries) - {name}
      ensures Valid()
    {
      existed := name in entries;
      DropDistinct(names, name);
      names := Drop(names, name);
      entries := entries - {name};
    }

    /**
     * The fetch handler: the outcome is `Decide` on what the cache held for the
     * request's URL and for the offline page; the response is written into the
     * current generation exactly when `Stores` says so, and nothing else changes.
     */
    method HandleFetch(req: Request, network: NetResult) returns (outcome: FetchOutcome)
      requires Valid()
      modifies this
      ensures outcome == Decide(req, old(Lookup(req.url)), network, old(Lookup(OfflinePage)))
      ensures !Stores(req, old(Lookup(req.url)), network) ==> names == old(names) && entries == old(entries)
      ensures Stores(req, old(Lookup(req.url)), network) ==>
        && names == old(names) + (if CacheName in old(entries) then [] else [CacheName])
        && entries == old(entries)[CacheName :=
             (if CacheName in old(entries) then old(entries)[CacheName] else map[])[req.url := network.response]]
      ensures Valid()
    {
      if req.verb != "GET" {
        return Passthrough;
      }
      if req.hostname == ApiHost {
        outcome := match network
          case NetResponse(r) => Respond(r)
          case NetFailure => Respond(OfflineApiResponse);
        return;
      }
      var cached := Lookup(req.url);
      if cached.Some? {
        return Respond(cached.value);
      }
      match network
      case NetResponse(r) =>
        if r.status != 200 {
          return Respond(r);
        }
        Put(CacheName, req.url, r);
        outcome := Respond(r);
      case NetFailure =>
        if req.mode == "navigate" {
          var page := Lookup(OfflinePage);
          outcome := if page.Some? then Respond(page.value) else RespondNothing;
        } else {
          outcome := Fail;
        }
    }

    /**
     * The install handler: open the current generation, then `addAll` the app
     * shell, which writes every entry or, when any response is missing or not
     * 2xx, none. The failure is caught, so `installed` only reports it.
     */
    method Install(net: string -> NetResult) returns (installed: bool)
      requires Valid()
      modifies this
      ensures installed <==> AllCacheable(UrlsToCache, net)
      ensures CacheName in entries
      ensures names == old(names) + (if CacheName in old(entries) then [] else [CacheName])
      ensures var before := if CacheName in old(entries) then old(entries)[CacheName] else map[];
        entries == old(entries)[CacheName := if installed then PutAll(before, UrlsToCache, net) else before]
      ensures Valid()
    {
      installed := OpenAndAddAll(CacheName, UrlsToCache, net);
    }

    /** `caches.open(name)` then `cache.addAll(urls)`: all of the responses or none. */
    method OpenAndAddAll(name: string, urls: seq<string>, net: string -> NetResult) returns (added: bool)
      requires Valid()
      modifies this
      ensures added <==> AllCacheable(urls, net)
      ensures name in entries
      ensures names == old(names) + (if name in old(entries) then [] else [name])
      ensures var before := if name in old(entries) then old(entries)[name] else map[];
        entries == old(entries)[name := if added then PutAll(before, urls, net) else before]
      ensures Valid()
    {
      var before := if name in entries then entries[name] else map[];
      Open(name);
      ghost var afterOpen := entries;
      added := AddAllReady(urls, net);
      if added {
        entries := entries[name := PutAll(before, urls, net)];
        assert entries == old(entries)[name := PutAll(before, urls, net)] by {
          UpdateTwice(old(entries), name, before, PutAll(before, urls, net));
        }
        assert forall n :: n in entries <==> n in afterOpen;
      }
    }

    /**
     * The activate handler: delete every cache whose name is not the current
     * generation's, one name of the snapshot at a time. The current cache keeps
     * its contents.
     */
    method Activate()
      requires Valid()
      modifies this
      ensures names == OnlyCurrent(old(names))
      ensures entries == if CacheName in old(entries) then map[CacheName := old(entries)[CacheName]] else map[]
      ensures Valid()
    {
      var cacheNames := names;
      ghost var before := entries;
      var i := 0;
      while i < |cacheNames|
        invariant 0 <= i <= |cacheNames|
        invariant Valid() && Distinct(cacheNames)
        invariant names == OnlyCurrent(cacheNames[..i]) + cacheNames[i..]
        invariant Kept(entries, before)
      {
        var name := cacheNames[i];
        SweepStep(cacheNames, i);
        if name != CacheName {
          ghost var prior := entries;
          var _ := Delete(name);
          KeptDelete(entries, prior, before, name);
        }
        i := i + 1;
      }
      assert cacheNames[..i] == cacheNames;
      OnlyCurrentDistinct(cacheNames);
      SweptEntries(entries, names, before);
    }
  }

  /** Writing a key twice leaves the second value. */
  lemma UpdateTwice<K, V>(m: map<K, V>, k: K, v: V, w: V)
    ensures m[k := v][k := w] == m[k := w]
  {
  }

  /** The entries left by a partial sweep: a subset of the original caches,
      unchanged, always including the current one. */
  ghost predicate Kept(entries: map<string, map<string, Response>>, before: map<string, map<string, Response>>) {
    && (forall n :: n in entries ==> n in before && entries[n] == before[n])
    && (CacheName in before ==> CacheName in entries)
  }

  lemma KeptDelete(entries: map<string, map<string, Response>>, prior: map<string, map<string, Response>>,
                   before: map<string, map<string, Response>>, name: string)
    requires Kept(prior, before) && name != CacheName && entries == prior - {name}
    ensures Kept(entries, before)
  {
  }

  /** At the end of the sweep the only cache left is the current one, as it was. */
  lemma SweptEntries(entries: map<string, map<string, Response>>, names: seq<string>,
                     before: map<string, map<string, Response>>)
    requires Kept(entries, before)
    requires forall n :: n in entries <==> n in names
    requires names == if CacheName in names then [CacheName] else []
    ensures entries == if CacheName in before then map[CacheName := before[CacheName]] else map[]
  {
  }

  /** `addAll`'s check, one response at a time, before anything is written. */
  method AddAllReady(urls: seq<string>, net: string -> NetResult) returns (ok: bool)
    ensures ok <==> AllCacheable(urls, net)
  {
    var k := 0;
    while k < |urls|
      invariant 0 <= k <= |urls|
      invariant AllCacheable(urls[..k], net)
    {
      assert urls[..k + 1][k] == urls[k];
      var result := net(urls[k]);
      if !(result.NetResponse? && 200 <= result.response.status < 300) {
        assert !AllCacheable(urls, net);
        return false;
      }
      assert forall j :: 0 <= j < k ==> urls[..k + 1][j] == urls[..k][j];
      k := k + 1;
    }
    assert urls[..k] == urls;
    return true;
  }

  // ----- Properties of the stored caches -----

  /** After a successful install every app-shell URL is in the current cache,
      holding the response the network gave for it. */
  lemma InstallCachesShell(before: map<string, Response>, net: string -> NetResult)
    requires AllCacheable(UrlsToCache, net)
    ensures forall k :: 0 <= k < |UrlsToCache| ==>
      UrlsToCache[k] in PutAll(before, UrlsToCache, net)
      && PutAll(before, UrlsToCache, net)[UrlsToCache[k]] == net(UrlsToCache[k]).response
  {
  }

  /**
   * After the sweep a lookup can only find entries of the current generation:
   * what it finds is exactly that cache's entry for the URL.
   */
  lemma SweptLookup(names: seq<string>, entries: map<string, map<string, Response>>, url: string)
    requires Distinct(names)
    ensures var swept := if CacheName in entries then map[CacheName := entries[CacheName]] else map[];
      MatchIn(OnlyCurrent(names), swept, url) ==
        if CacheName in names && CacheName in entries && url in entries[CacheName]
        then Some(entries[CacheName][url]) else None
  {
    OnlyCurrentDistinct(names);
  }

  /** Activating twice leaves the same storage as activating once. */
  lemma ActivateIdempotent(names: seq<string>, entries: map<string, map<string, Response>>)
    ensures var once := if CacheName in entries then map[CacheName := entries[CacheName]] else map[];
      && OnlyCurrent(OnlyCurrent(names)) == OnlyCurrent(names)
      && (if CacheName in once then map[CacheName := once[CacheName]] else map[]) == once
  {
    OnlyCurrentIdempotent(names);
  }

  /**
   * A static page missing from the cache while the network is down: a
   * navigation gets the cached root document, any other request the failure;
   * a device API request gets the synthetic 503 reply.
   */
  lemma OfflineScenario(page: Request, asset: Request, api: Request, root: Response)
    requires page.verb == "GET" && page.hostname != ApiHost && page.mode == "navigate"
    requires asset.verb == "GET" && asset.hostname != ApiHost && asset.mode != "navigate"
    requires api.verb == "GET" && api.hostname == ApiHost
    ensures Decide(page, None, NetFailure, Some(root)) == Respond(root)
    ensures Decide(asset, None, NetFailure, Some(root)) == Fail
    ensures Decide(api, None, NetFailure, Some(root)) == Respond(OfflineApiResponse)
    ensures OfflineApiResponse.status == 503
  {
  }
}
