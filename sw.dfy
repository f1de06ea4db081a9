/** sw.js: the offline cache of the app. Install fills `static-v1` with the core assets,
    activate deletes every other cache except `img-v1`, and the fetch handler routes each request
    to cache-first, stale-while-revalidate, or no interception at all. */
module ServiceWorker {
  import opened Js
  import opened Seqs

  const StaticCache: string := "static-v1"
  const ImgCache: string := "img-v1"
  const CoreAssets: seq<string> :=
    ["/", "/index.html", "/styles.css", "/app.js", "/manifest.webmanifest", "/icons/icon-192.png", "/icons/icon-512.png"]

  /** A response: its status and its body. */
  datatype Response = Response(status: int, body: string)

  /** A request: the URL it is keyed by in a cache, and that URL's pathname. */
  datatype Request = Request(url: string, path: string)

  datatype Policy = CacheFirst | StaleWhileRevalidate | PassThrough

  /** What the handler gives the page: no `respondWith` (the browser fetches as usual), or a
      response, where `None` is a network error. */
  datatype Outcome = NotIntercepted | Responded(response: Option<Response>)

  predicate IsCorePath(path: string) {
    StartsWith(path, "/icons/") || path in CoreAssets
  }

  /** `/\.(jpg|jpeg|png)$/i`: the `i` flag only folds ASCII letters here. */
  predicate IsImagePath(path: string) {
    var p := Lower(path);
    EndsWith(p, ".jpg") || EndsWith(p, ".jpeg") || EndsWith(p, ".png")
  }

  /** The routing of the fetch listener: the core rule is tested first. */
  function Route(path: string): (r: Policy)
    ensures r == CacheFirst <==> IsCorePath(path)
  {
    if IsCorePath(path) then CacheFirst
    else if IsImagePath(path) then StaleWhileRevalidate
    else PassThrough
  }

  /** Every path under /icons/ and every core asset is cache-first, images among them included;
      another image path is stale-while-revalidate; anything else passes through. */
  lemma RouteSpec(path: string)
    ensures StartsWith(path, "/icons/") ==> Route(path) == CacheFirst
    ensures path in CoreAssets ==> Route(path) == CacheFirst
    ensures !IsCorePath(path) ==> (Route(path) == StaleWhileRevalidate <==> IsImagePath(path))
    ensures Route(path) == PassThrough <==> !IsCorePath(path) && !IsImagePath(path)
  {
  }

  /** The icons are images, yet the core rule wins. */
  lemma ExampleIconIsCacheFirst()
    ensures IsImagePath("/icons/icon-192.png")
    ensures Route("/icons/icon-192.png") == CacheFirst
  {
    IconIsImage();
    IconIsCore();
  }

  lemma IconIsImage()
    ensures IsImagePath("/icons/icon-192.png")
  {
    EndsWithLowered("/icons/icon-192.png", ".png");
  }

  lemma IconIsCore()
    ensures IsCorePath("/icons/icon-192.png")
  {
    assert "/icons/icon-192.png"[..7] == "/icons/";
  }

  lemma ExampleUpperCaseImage()
    ensures Route("/cams/A.JPG") == StaleWhileRevalidate
  {
    var p := "/cams/A.JPG";
    assert !StartsWith(p, "/icons/") by {
      assert p[..7][1] != "/icons/"[1];
    }
    assert p !in CoreAssets by {
      assert |p| == 11;
    }
    EndsWithLowered(p, ".jpg");
  }

  lemma ExampleDataPassesThrough()
    ensures Route("/data.json") == PassThrough
  {
    DataIsNotCore();
    DataIsNotImage();
  }

  lemma DataIsNotCore()
    ensures !IsCorePath("/data.json")
  {
    var p := "/data.json";
    assert !StartsWith(p, "/icons/") by {
      assert p[..7][1] != "/icons/"[1];
    }
    assert p !in CoreAssets by {
      assert |p| == 10;
    }
  }

  lemma DataIsNotImage()
    ensures !IsImagePath("/data.json")
  {
    var p := "/data.json";
    var r := Lower(p);
    assert r[9] == LowerChar(p[9]) == 'n';
  }

  /** `s.toLowerCase()` ends with `t` when the last characters of `s` lower-case to it. */
  lemma EndsWithLowered(s: string, t: string)
    requires |t| <= |s|
    requires forall j :: 0 <= j < |t| ==> LowerChar(s[|s| - |t| + j]) == t[j]
    ensures EndsWith(Lower(s), t)
  {
    var r := Lower(s);
    var k := |s| - |t|;
    assert |r[k..]| == |t|;
    forall j | 0 <= j < |t| ensures r[k..][j] == t[j] {
      assert r[k..][j] == r[k + j];
      assert r[k + j] == LowerChar(s[k + j]);
    }
    assert r[k..] == t;
  }

  /** cache.put rejects a partial (206) response; any other response is stored, even one that
      is not ok. */
  predicate Storable(r: Response) {
    r.status != 206
  }

  /** The check cache.addAll makes of each fetched response. */
  predicate Acceptable(r: Option<Response>) {
    r.Some? && 200 <= r.value.status <= 299 && r.value.status != 206
  }

  /** `caches.match(request)`: the first cache, in creation order, holding the key. */
  function MatchIn(names: seq<string>, entries: map<string, map<string, Response>>, key: string)
    : (r: Option<Response>)
    requires forall n :: n in names ==> n in entries
    ensures r.Some? ==> exists n :: n in names && key in entries[n] && entries[n][key] == r.value
  {
    if names == [] then None
    else if key in entries[names[0]] then Some(entries[names[0]][key])
    else MatchIn(names[1..], entries, key)
  }

  /** A lookup misses exactly when no cache holds the key, and a hit comes from the first cache
      that does. */
  lemma {:induction false} MatchInSpec(names: seq<string>, entries: map<string, map<string, Response>>, key: string)
    requires forall n :: n in names ==> n in entries
    ensures MatchIn(names, entries, key).None? <==> forall n :: n in names ==> key !in entries[n]
    ensures MatchIn(names, entries, key).Some? ==>
      exists i :: 0 <= i < |names| && key in entries[names[i]]
        && MatchIn(names, entries, key) == Some(entries[names[i]][key])
        && forall j :: 0 <= j < i ==> key !in entries[names[j]]
  {
    if names != [] && key !in entries[names[0]] {
      MatchInSpec(names[1..], entries, key);
      if MatchIn(names, entries, key).Some? {
        var i :| 0 <= i < |names[1..]| && key in entries[names[1..][i]]
          && MatchIn(names[1..], entries, key) == Some(entries[names[1..][i]][key])
          && forall j :: 0 <= j < i ==> key !in entries[names[1..][j]];
        assert names[i + 1] == names[1..][i];
        forall j | 0 <= j < i + 1 ensures key !in entries[names[j]] {
          if j > 0 { assert names[j] == names[1..][j - 1]; }
        }
      }
    } else if names != [] {
      assert key in entries[names[0]];
    }
  }

  /** The cache-first response: the cached one, else the network's. */
  function CacheFirstResponse(cached: Option<Response>, net: Option<Response>): Option<Response> {
    if cached.Some? then cached else net
  }

  /** Stale-while-revalidate on the image cache: the response given to the page and the cache
      once the background put has settled. */
  function SwrStep(cache: map<string, Response>, key: string, net: Option<Response>)
    : (r: (Option<Response>, map<string, Response>))
    ensures r.0.None? <==> key !in cache && net.None?
    ensures forall k :: k != key ==> (k in r.1 <==> k in cache) && (k in r.1 ==> r.1[k] == cache[k])
  {
    var cached := if key in cache then Some(cache[key]) else None;
    var stored := if net.Some? && Storable(net.value) then cache[key := net.value] else cache;
    (if cached.Some? then cached else net, stored)
  }

  /** A hit answers from the cache, a miss from the network, and a miss with a failed fetch
      gives no response. A response that arrives is stored under the key, except a 206; no other
      key changes. */
  lemma SwrStepSpec(cache: map<string, Response>, key: string, net: Option<Response>)
    ensures var (resp, after) := SwrStep(cache, key, net);
      && (key in cache ==> resp == Some(cache[key]))
      && (key !in cache ==> resp == net)
      && (key !in cache && net.None? ==> resp.None?)
      && (net.Some? && Storable(net.value) ==> key in after && after[key] == net.value)
      && (net.None? ==> after == cache)
      && (forall k :: k != key ==> (k in after <==> k in cache) && (k in after ==> after[k] == cache[k]))
  {
  }

  /** Revalidation: after a fetched response is stored, the next request for the key is
      answered from the cache with it, whatever the network does then. */
  lemma SwrServesRevalidated(cache: map<string, Response>, key: string, r: Response, later: Option<Response>)
    requires Storable(r)
    ensures SwrStep(SwrStep(cache, key, Some(r)).1, key, later).0 == Some(r)
  {
  }

  /** The batch cache.addAll stores: every key with its response, or nothing when one fetch
      fails or is not acceptable. */
  function AddAllBatch(paths: seq<string>, origin: string, network: string -> Option<Response>)
    : (r: Option<map<string, Response>>)
    ensures r.Some? ==> forall k :: k in r.value ==> Acceptable(network(k)) && r.value[k] == network(k).value
  {
    if paths == [] then Some(map[])
    else
      match AddAllBatch(paths[..|paths| - 1], origin, network)
      case None => None
      case Some(m) =>
        var key := origin + paths[|paths| - 1];
        if Acceptable(network(key)) then Some(m[key := network(key).value]) else None
  }

  lemma {:induction false} AddAllBatchSpec(paths: seq<string>, origin: string, network: string -> Option<Response>)
    ensures AddAllBatch(paths, origin, network).Some? <==>
      forall i :: 0 <= i < |paths| ==> Acceptable(network(origin + paths[i]))
    ensures AddAllBatch(paths, origin, network).Some? ==>
      var m := AddAllBatch(paths, origin, network).value;
      && (forall i :: 0 <= i < |paths| ==> origin + paths[i] in m && m[origin + paths[i]] == network(origin + paths[i]).value)
      && (forall k :: k in m ==> exists i :: 0 <= i < |paths| && k == origin + paths[i])
  {
    if paths != [] {
      var init := paths[..|paths| - 1];
      AddAllBatchSpec(init, origin, network);
      forall i | 0 <= i < |init| ensures init[i] == paths[i] { }
    }
  }

  /** The names of the caches after `caches.open(name)`, which creates a missing cache. */
  function OpenedNames(names: seq<string>, name: string): seq<string> {
    if name in names then names else names + [name]
  }

  function OpenedEntries(entries: map<string, map<string, Response>>, name: string): (r: map<string, map<string, Response>>)
    ensures name in r && r.Keys == entries.Keys + {name}
    ensures forall n :: n in entries ==> r[n] == entries[n]
    ensures name !in entries ==> r[name] == map[]
  {
    if name in entries then entries else entries[name := map[]]
  }

  predicate IsCurrent(name: string) {
    name == StaticCache || name == ImgCache
  }

  function Other(name: string): string -> bool {
    n => n != name
  }

  /** The cache names in creation order, and each cache's entries by request URL. */
  class CacheStorage {
    var names: seq<string>
    var entries: map<string, map<string, Response>>

    ghost predicate Valid()
      reads this
    {
      NoDuplicates(names) && forall n :: n in names <==> n in entries
    }

    constructor()
      ensures Valid() && names == [] && entries == map[]
    {
      names := [];
      entries := map[];
    }

    function Match(key: string): Option<Response>
      requires Valid()
      reads this
    {
      MatchIn(names, entries, key)
    }

    method Open(name: string)
      requires Valid()
      modifies this
      ensures Valid()
      ensures names == OpenedNames(old(names), name)
      ensures entries == OpenedEntries(old(entries), name)
    {
      if name !in names {
        names := names + [name];
        entries := entries[name := map[]];
      }
    }

    /** cache.put: a 206 response is refused and nothing changes. */
    method Put(name: string, key: string, r: Response) returns (stored: bool)
      requires Valid() && name in entries
      modifies this`entries
      ensures Valid()
      ensures stored == Storable(r)
      ensures entries == if stored then old(entries)[name := old(entries)[name][key := r]] else old(entries)
    {
      stored := Storable(r);
      if stored {
        entries := entries[name := entries[name][key := r]];
      }
    }

    /** The batch write that ends a successful cache.addAll. */
    method PutAll(name: string, batch: map<string, Response>)
      requires Valid() && name in entries
      modifies this`entries
      ensures Valid()
      ensures entries == old(entries)[name := old(entries)[name] + batch]
    {
      entries := entries[name := entries[name] + batch];
    }

    method Delete(name: string) returns (deleted: bool)
      requires Valid()
      modifies this
      ensures Valid()
      ensures deleted == (name in old(names))
      ensures names == Filter(old(names), Other(name))
      ensures entries == old(entries) - {name}
    {
      deleted := name in names;
      FilterMembershipAll(names, Other(name));
      FilterNoDuplicates(names, Other(name));
      names := Filter(names, Other(name));
      entries := entries - {name};
    }
  }

  /** The install handler: open static-v1, then cache.addAll(CORE_ASSETS), which fetches every
      asset and stores all of them or none. Keys are the asset paths resolved against `origin`. */
  method Install(caches: CacheStorage, origin: string, network: string -> Option<Response>) returns (ok: bool)
    requires caches.Valid()
    modifies caches
    ensures caches.Valid()
    ensures ok <==> AddAllBatch(CoreAssets, origin, network).Some?
    ensures caches.names == OpenedNames(old(caches.names), StaticCache)
    ensures var withCache := OpenedEntries(old(caches.entries), StaticCache);
      caches.entries == if ok then withCache[StaticCache := withCache[StaticCache] + AddAllBatch(CoreAssets, origin, network).value]
                        else withCache
  {
    caches.Open(StaticCache);
    var batch: map<string, Response> := map[];
    var failed := false;
    for i := 0 to |CoreAssets|
      invariant failed <==> AddAllBatch(CoreAssets[..i], origin, network).None?
      invariant !failed ==> AddAllBatch(CoreAssets[..i], origin, network) == Some(batch)
    {
      assert CoreAssets[..i + 1][..i] == CoreAssets[..i];
      if !failed {
        var key := origin + CoreAssets[i];
        var r := network(key);
        if Acceptable(r) {
          batch := batch[key := r.value];
        } else {
          failed := true;
        }
      }
    }
    assert CoreAssets[..|CoreAssets|] == CoreAssets;
    ok := !failed;
    if ok {
      caches.PutAll(StaticCache, batch);
    }
  }

  /** After a successful install every core asset is in static-v1, and so a cache-first request
      for it is answered from the cache. */
  lemma InstalledAssetsHit(names: seq<string>, entries: map<string, map<string, Response>>,
                           origin: string, network: string -> Option<Response>, p: string)
    requires forall n :: n in names ==> n in entries
    requires StaticCache in names && AddAllBatch(CoreAssets, origin, network).Some?
    requires forall k :: k in AddAllBatch(CoreAssets, origin, network).value ==> k in entries[StaticCache]
    requires p in CoreAssets
    ensures MatchIn(names, entries, origin + p).Some?
  {
    AddAllBatchSpec(CoreAssets, origin, network);
    var i :| 0 <= i < |CoreAssets| && CoreAssets[i] == p;
    assert origin + p in entries[StaticCache];
    MatchInSpec(names, entries, origin + p);
  }

  /** The names that survive activate while the names in `rest` are still to be handled: the
      current ones, and every name not handled yet. */
  function Survives(rest: seq<string>): string -> bool {
    n => IsCurrent(n) || n in rest
  }

  /** The activate handler: delete every cache whose name is neither static-v1 nor img-v1. */
  method Activate(caches: CacheStorage)
    requires caches.Valid()
    modifies caches
    ensures caches.Valid()
    ensures caches.names == Filter(old(caches.names), IsCurrent)
    ensures caches.entries == Restrict(old(caches.entries), IsCurrent)
  {
    var keys := caches.names;
    ghost var before := caches.entries;
    FilterKeepsAll(keys, Survives(keys));
    assert caches.entries == Restrict(before, Survives(keys[0..]));
    for i := 0 to |keys|
      invariant caches.Valid()
      invariant caches.names == Filter(keys, Survives(keys[i..]))
      invariant caches.entries == Restrict(before, Survives(keys[i..]))
    {
      ActivateOne(caches, keys, i, before);
    }
    SameFilter(keys, Survives(keys[|keys|..]), IsCurrent);
    RestrictSame(before, Survives(keys[|keys|..]), IsCurrent);
  }

  /** One turn of the activate loop: `keys[i]` is deleted unless it is current. */
  method ActivateOne(caches: CacheStorage, keys: seq<string>, i: nat, ghost before: map<string, map<string, Response>>)
    requires caches.Valid() && NoDuplicates(keys) && i < |keys|
    requires caches.names == Filter(keys, Survives(keys[i..]))
    requires caches.entries == Restrict(before, Survives(keys[i..]))
    modifies caches
    ensures caches.Valid()
    ensures caches.names == Filter(keys, Survives(keys[i + 1..]))
    ensures caches.entries == Restrict(before, Survives(keys[i + 1..]))
  {
    ActivateStep(keys, i, before);
    if !IsCurrent(keys[i]) {
      var _ := caches.Delete(keys[i]);
    }
  }

  /** The entries of the caches whose names satisfy `keep`. */
  function Restrict(entries: map<string, map<string, Response>>, keep: string -> bool)
    : (r: map<string, map<string, Response>>)
    ensures forall n :: n in r <==> n in entries && keep(n)
    ensures forall n :: n in r ==> r[n] == entries[n]
  {
    map n | n in entries && keep(n) :: entries[n]
  }

  /** One turn of the activate loop: deleting `keys[i]` when it is not current takes the
      survivors of `keys[i..]` to those of `keys[i + 1..]`; keeping it changes nothing. */
  lemma ActivateStep(keys: seq<string>, i: nat, before: map<string, map<string, Response>>)
    requires NoDuplicates(keys) && i < |keys|
    ensures !IsCurrent(keys[i]) ==>
      && Filter(Filter(keys, Survives(keys[i..])), Other(keys[i])) == Filter(keys, Survives(keys[i + 1..]))
      && Restrict(before, Survives(keys[i..])) - {keys[i]} == Restrict(before, Survives(keys[i + 1..]))
    ensures IsCurrent(keys[i]) ==>
      && Filter(keys, Survives(keys[i..])) == Filter(keys, Survives(keys[i + 1..]))
      && Restrict(before, Survives(keys[i..])) == Restrict(before, Survives(keys[i + 1..]))
  {
    var k, p, q := keys[i], Survives(keys[i..]), Survives(keys[i + 1..]);
    SurvivorsStep(keys, i);
    if !IsCurrent(k) {
      FilterFilter(keys, p, Other(k), q);
      RestrictRemove(before, p, q, k);
    } else {
      SameFilter(keys, p, q);
      RestrictSame(before, p, q);
    }
  }

  lemma RestrictRemove(m: map<string, map<string, Response>>, p: string -> bool, q: string -> bool, k: string)
    requires forall x :: q(x) == (p(x) && x != k)
    ensures Restrict(m, p) - {k} == Restrict(m, q)
  {
  }

  lemma RestrictSame(m: map<string, map<string, Response>>, p: string -> bool, q: string -> bool)
    requires forall x :: q(x) == p(x)
    ensures Restrict(m, p) == Restrict(m, q)
  {
  }

  /** Handling `keys[i]` removes exactly that name from the survivors, unless it is current. */
  lemma SurvivorsStep(keys: seq<string>, i: nat)
    requires NoDuplicates(keys) && i < |keys|
    ensures forall x :: Survives(keys[i + 1..])(x) == (Survives(keys[i..])(x) && (IsCurrent(keys[i]) || x != keys[i]))
  {
    NotLater(keys, i);
    assert keys[i..] == [keys[i]] + keys[i + 1..];
  }

  /** In a sequence without duplicates, an element does not occur again later. */
  lemma NotLater<T>(s: seq<T>, i: nat)
    requires NoDuplicates(s) && i < |s|
    ensures s[i] !in s[i + 1..]
  {
  }

  /** Activate keeps static-v1 and img-v1 when they exist and deletes every other name. */
  lemma ActivateSpec(names: seq<string>)
    ensures forall n :: n in Filter(names, IsCurrent) <==> n in names && (n == StaticCache || n == ImgCache)
    ensures IsSubsequence(Filter(names, IsCurrent), names)
  {
    FilterMembershipAll(names, IsCurrent);
    FilterIsSubsequence(names, IsCurrent);
  }

  /** The fetch handler. `fetched` says whether the network was asked. */
  method HandleFetch(caches: CacheStorage, req: Request, network: string -> Option<Response>)
    returns (outcome: Outcome, fetched: bool)
    requires caches.Valid()
    modifies caches
    ensures caches.Valid()
    ensures Route(req.path) == PassThrough ==>
      outcome == NotIntercepted && !fetched && caches.names == old(caches.names) && caches.entries == old(caches.entries)
    ensures Route(req.path) == CacheFirst ==>
      && outcome == Responded(CacheFirstResponse(MatchIn(old(caches.names), old(caches.entries), req.url), network(req.url)))
      && fetched == MatchIn(old(caches.names), old(caches.entries), req.url).None?
      && caches.names == old(caches.names) && caches.entries == old(caches.entries)
    ensures Route(req.path) == StaleWhileRevalidate ==>
      var withCache := OpenedEntries(old(caches.entries), ImgCache);
      var (resp, after) := SwrStep(withCache[ImgCache], req.url, network(req.url));
      && outcome == Responded(resp) && fetched
      && caches.names == OpenedNames(old(caches.names), ImgCache)
      && caches.entries == withCache[ImgCache := after]
  {
    match Route(req.path)
    case PassThrough =>
      outcome, fetched := NotIntercepted, false;
    case CacheFirst =>
      var hit := caches.Match(req.url);
      if hit.Some? {
        outcome, fetched := Responded(hit), false;
      } else {
        outcome, fetched := Responded(network(req.url)), true;
      }
    case StaleWhileRevalidate =>
      caches.Open(ImgCache);
      var cache := caches.entries[ImgCache];
      var cached := if req.url in cache then Some(cache[req.url]) else None;
      var net := network(req.url);
      fetched := true;
      if net.Some? {
        var _ := caches.Put(ImgCache, req.url, net.value);
      }
      outcome := Responded(if cached.Some? then cached else net);
  }
}
