# Auckland traffic cameras: a verified model of the catalog and the offline cache

The app is a single page that lists live Auckland traffic cameras. Its script (`app.js`)
fetches a nationwide camera feed and unwraps the payload envelope. It normalises each record
(`norm`), keeps the records that have an image URL and lie in Auckland (`insideAuckland`), and
sorts them by name. It derives a motorway code from each name (`motorwayOf`) and builds the
motorway select (`buildMotorwayOptions`). It renders the entries that match the search text,
the selected motorway and the favourites-only switch (`render`), and it toggles favourites. Its
service worker (`sw.js`) fills the `static-v1` cache on install and deletes every cache other
than `static-v1` and `img-v1` on activate. On fetch it routes each request to cache-first,
stale-while-revalidate on `img-v1`, or no interception.

The model has these modules:

- `Js` (js.dfy): the slice of JavaScript value semantics the script relies on. It covers
  parsed JSON values, `undefined` as `None`, truthiness, `||`, `??`, property access,
  `String()` and `Number()`, and `toLowerCase`, `includes`, `startsWith` and `endsWith`.
  Number formatting and parsing come from a `Host` parameter.
- `Seqs` (seqs.dfy): order-preserving filters, a stable sort by an abstract total preorder,
  and duplicate-free sequences.
- `Motorway` (motorway.dfy): the regular expression `\b(SH\s?\d{1,2}[A-B]?)\b/i`. It is
  written twice. `MatchesAt` is the declarative reading; `MatchEnd` and `FirstMatch` form the
  deterministic search. The two are proved to agree on the leftmost match.
- `Cameras` (cameras.dfy): `norm` and `insideAuckland`, with the bounding box constants.
- `Catalog` (catalog.dfy): the load pipeline of `fetchCameras`, the display query of
  `render`, the favourites toggle and the motorway option list.
- `App` (app.dfy): the page state as a class `Page`. Its fields are `allCams`, `favourites`,
  the favourites-only switch, the select's options and value, the rendered grid and the status
  line. Its methods are the handlers that update them. `Page.Valid` is the invariant that the
  catalog holds only records with an image inside Auckland, sorted by name.
- `ServiceWorker` (sw.dfy): the routing rule, `caches.match`, the two response policies, and a
  class `CacheStorage`. That class holds the cache names in creation order and each cache's
  entries by request URL. `Install`, `Activate` and `HandleFetch` change it in place.

The outcome of `fetch` plus `r.json()` is a parameter (`App.Reply`). So is the network as
the service worker sees it (a function from URL to an optional response, where `None` is a
network error). `crypto.randomUUID()` is a parameter: a fresh id per list position. The stored
favourites, the stored switch and the stored motorway filter are passed in, and so is the
text of the search box. `localeCompare` is an abstract total preorder (`nameOrder` for names,
`codeOrder` for codes under numeric collation).

Some consequences of the code that are easy to miss:

- Stale-while-revalidate stores every network response except a 206, including 4xx and 5xx
  ones: of the responses modelled, `cache.put` rejects only a 206, and the handler stores
  whatever arrives.
- `insideAuckland` is called on the normalised record. `norm` resolves
  `region ?? regionName`, while `insideAuckland` reads `region || regionName`. So a feed
  record with `region: ""` and `regionName: "Auckland"` and no coordinates is dropped, although
  `insideAuckland` accepts the raw record (`Cameras.EmptyRegionHidesRegionName`).
- A record whose url is truthy but not a string (a number, say) passes the load, but
  `render` throws when it builds that card. `fetchCameras` then ends with the new catalog and
  options, the cards before that record, and the failure status (`App.Page.ShowCatalog`).
- An envelope whose `cameras` is an empty array fails the load, even when `items` holds
  cameras. An empty array is truthy, so `||` stops there (`Catalog.EmptyCamerasShadowsItems`).

## Model

| member | source | states |
|---|---|---|
| Js.Coalesce | app.js:36-41 | a `??` chain yields one of its candidates, and a defined last candidate makes it defined |
| Js.CoalescePicksFirst | app.js:36-41 | a `??` chain picks the first candidate that is neither null nor undefined, or the last one when all are |
| Js.Or | app.js:20 | definition: `a || b` is `a` when it is truthy and `b` otherwise; RegionLabelPicksTruthy and UnwrapEnvelope state what the chains built from it yield |
| Js.Field | app.js:22 | definition: `o?.k` is the field when `o` is an object holding `k`, and undefined otherwise; NormPicksFirst states what the reads yield |
| Js.IncludesSpec | app.js:21 | `s.includes(t)` holds iff `t` occurs in `s` at some index |
| Js.IncludesEmpty | app.js:79 | every name includes the empty query |
| Js.Truthy | app.js:20 | definition: ECMAScript truthiness of a JSON value or undefined (false for undefined, null, false, 0, ""; true for arrays and objects) |
| Js.JsString | app.js:37 | definition: `String(v)` for JSON values, with arrays joined by "," and number text from the engine |
| Js.ToFiniteNumber | app.js:22-24 | definition: `Number(v)` followed by `Number.isFinite`, with string parsing from the engine |
| Js.Lower | app.js:20 | definition: `toLowerCase` on ASCII letters, character by character |
| Cameras.Norm | app.js:35-44 | norm throws exactly on `null`; the id and region are never null; `mw` is `motorwayOf(name)` |
| Cameras.NormPicksFirst | app.js:36-43 | id, name, region, lat, lon and url are each the first defined candidate in the listed order; the fallbacks are the fresh id, `"Camera " + id` and `""`; name is `String()` of the chosen value |
| Cameras.NormWithoutIdUsesFreshId | app.js:36 | a record without any id field takes the fresh id, so distinct fresh values give distinct ids |
| Cameras.FreshIdFallback | app.js:36 | with every id candidate null or undefined, the id is the fresh id |
| Cameras.CoalesceFallback | app.js:36-38 | when every field candidate is null or undefined, `??` yields the literal fallback |
| Cameras.RegionLabel | app.js:20 | the region text is truthy or the empty string |
| Cameras.Coordinate | app.js:22-24 | the coordinate is `Number()` of the first candidate field that is neither null nor undefined, kept only when finite; with no such candidate it is not finite |
| Cameras.InBounds | app.js:25 | definition: both coordinates finite and inside the inclusive box of app.js:4 |
| Cameras.InsideAuckland | app.js:19-28 | the test throws a TypeError exactly when the region text (region, else regionName, else the empty string) is not a string |
| Cameras.InsideAucklandSpec | app.js:19-27 | a region text containing "auckland" in any case gives true whatever the coordinates; otherwise the answer is the inclusive box test on two finite coordinates, and false without them |
| Cameras.RegionLabelPicksTruthy | app.js:20 | the region text is `region` when it is truthy, `regionName` when only that one is truthy, and "" when neither is |
| Cameras.RegionMatchIgnoresCoordinates | app.js:20-21 | two objects with the same Auckland region text get true, whatever their coordinates |
| Cameras.CornerIsInside | app.js:25 | the bounds are inclusive: a point on the south-west corner is inside |
| Cameras.InsideAucklandOfRecord | app.js:55 | on a normalised record only `region`, `lat` and `lon` take part in the test |
| Cameras.RegionNameAuckland | app.js:20-21 | a raw record with `region: ""` and `regionName: "Auckland"` is inside Auckland |
| Cameras.NormKeepsEmptyRegion | app.js:38-39 | norm keeps a `""` region, because `??` only skips null and undefined, and leaves lat undefined when no candidate exists |
| Cameras.EmptyRegionHidesRegionName | app.js:38 | such a record passes insideAuckland raw, but fails it once normalised |
| Cameras.AbsentPathsReadUndefined | app.js:22-23 | when no candidate key is present, the coordinate chain is undefined |
| Motorway.MatchEnd | app.js:31 | the deterministic search returns an end after the start and within the name |
| Motorway.MatchEndSound | app.js:31 | an end the search returns is a whole-word match of the pattern |
| Motorway.MatchEndComplete | app.js:31 | every whole-word match starting at an index is the one the search returns there |
| Motorway.FirstMatch | app.js:31 | the match found lies at or after the start position |
| Motorway.FirstMatchSpec | app.js:31 | no match is found iff none exists; a found match is a match and no match starts earlier |
| Motorway.RemoveSpaces | app.js:32 | `replace(/\s+/g, '')` leaves no white space; SpacesOfCode pins the result exactly on every code the regex matches |
| Motorway.Upper | app.js:32 | `toUpperCase` maps each ASCII letter and keeps the length |
| Motorway.CanonicalOfCode | app.js:32 | the canonical form of a matched code is "SH", one or two digits and an optional A or B |
| Motorway.NoSpacesUnchanged | app.js:32 | removing white space from text without any leaves it unchanged |
| Motorway.MotorwayOf | app.js:30-33 | motorwayOf returns "" or an upper-case code without white space: "SH", one or two digits and an optional A or B |
| Motorway.MotorwayOfSpec | app.js:30-33 | the result is "" iff the pattern matches nowhere; otherwise it is the canonical form of the leftmost match |
| Motorway.SkipWithoutSh | app.js:31 | the search skips every position where "SH" does not start |
| Motorway.NoShNoCode | app.js:31 | a name without "SH" in any case has no code |
| Motorway.ExampleRampSuffix | app.js:30-33 | "sh16a ramp" gives "SH16A" |
| Motorway.ExampleHighwayInText | app.js:30-33 | "State Highway SH1 closure" gives "SH1": "Highway" contains no whole-word match |
| Motorway.ExampleNoCode | app.js:30-33 | "Queen Street" gives "" |
| Seqs.Filter | app.js:54-55 | a filter never lengthens the list |
| Seqs.FilterMembership | app.js:79-81 | an element survives a filter iff it was in the list and satisfies the predicate |
| Seqs.FilterIsSubsequence | app.js:79-81 | a filter keeps the survivors in their original order |
| Seqs.FilterFilter | app.js:54-55 | two filters in a row are one filter by the conjunction |
| Seqs.SortBy | app.js:55 | sorting is a permutation of its input |
| Seqs.SortBySorted | app.js:55 | under a total preorder the result is sorted |
| Seqs.NoDuplicatesByMultiset | app.js:67-69 | a list is duplicate-free iff no element occurs twice in its multiset, so a permutation of the option set keeps it duplicate-free |
| Catalog.Unwrap | app.js:52-53 | a bare array is used directly, and an empty one throws; `null` throws a TypeError; a list that comes out is non-empty |
| Catalog.UnwrapEnvelope | app.js:52-53 | an envelope is read through the first truthy one of cameras, items and results, in that order, and fails when none is truthy; the list comes from one of those fields |
| Catalog.EmptyCamerasShadowsItems | app.js:52-53 | `{ cameras: [], items: [x] }` fails the load |
| Catalog.NormAll | app.js:54 | `list.map(norm)` fails iff the list holds `null`; otherwise it is norm at each position |
| Catalog.Load | app.js:52-55 | an unwrap error is the load's error; a catalog comes only from a non-empty list without null, and is no longer than it |
| Catalog.Select | app.js:54-55 | the filter-and-sort step fails only with a TypeError, and keeps at most the records it is given |
| Catalog.NameLeqTotal | app.js:55 | comparing records by name is a total preorder when the name collation is |
| Catalog.LoadSpec | app.js:52-55 | a loaded catalog holds exactly the normalised records with a truthy url inside Auckland, each as often as in the feed, sorted by name |
| Catalog.SelectSpec | app.js:54-55 | the filter-and-sort step keeps exactly the records with an image inside Auckland, as a permutation of the filtered list, sorted by name |
| Catalog.LoadFails | app.js:52-55 | the load fails iff the payload has no non-empty list, a list element is null, or a record with an image has a non-string region text |
| Catalog.SelectFails | app.js:54-55 | the filter-and-sort step fails iff insideAuckland throws on a record with an image |
| Catalog.Visible | app.js:77-81 | the shown list is never longer than the catalog |
| Catalog.VisibleSpec | app.js:77-81 | the shown list is the catalog filtered by all active filters, in catalog order; an entry is shown iff its lower-cased name contains the lower-cased query, its code equals a selected motorway and its id is a favourite when favourites-only is on |
| Catalog.VisibleWithoutFilters | app.js:79-81 | an empty query with no motorway selected filters nothing out: the whole catalog is shown, or its favourites when only favourites are shown |
| Catalog.CardsBeforeThrow | app.js:84-94 | the number of cards render appends is the index of the first shown record whose url is truthy but not a string, or all of them when there is none |
| Catalog.Toggled | app.js:101 | a toggle adds the id when it is absent and removes it when present, and no other id changes |
| Catalog.ToggleTwice | app.js:101 | toggling the same id twice restores the set |
| Catalog.OptionLeqTotal | app.js:69-71 | the option order is a total preorder when the code collation is |
| Catalog.SentinelSortsFirst | app.js:70 | the "" option sorts first whatever the collation does with the codes |
| Catalog.MotorwayOptions | app.js:66-72 | the options hold "" first, then each code of the catalog once and nothing else, sorted by the option order |
| Catalog.SelectedMotorway | app.js:73 | the select takes the stored filter when it is one of the options, and otherwise reads back as "" |
| App.Payload | app.js:49-51 | a payload is obtained iff the fetch resolved, the status is in 200-299 and the body is JSON; another status is an HTTP error |
| App.Fetched | app.js:49-55 | a catalog is obtained only from a payload |
| App.FetchedCatalog | app.js:52-55 | a fetched catalog holds only records with an image inside Auckland, sorted by name |
| App.DecimalText | app.js:59 | the count is written as a non-empty string of decimal digits whose value is the count, with no leading zero except for 0 itself |
| App.Page.constructor | app.js:13-15 | the page starts with an empty catalog and with the stored favourites and switch |
| App.Page.Render | app.js:76-107 | the grid holds the visible entries of the catalog in order, up to the first card whose url is truthy but not a string, where building the card throws; render completes exactly when no visible card throws |
| App.Page.FetchCameras | app.js:46-64 | when the fetch or the load fails, the catalog, options, selection and grid are unchanged and the status reports the failure; otherwise the catalog is the fetched one and the page shows it, with the count, or with a partial grid and the failure when render throws; the invariant is kept |
| App.Page.ShowCatalog | app.js:55-62 | the catalog is replaced, the options are rebuilt and the stored filter is restored; the grid is rendered up to the first card that throws; the status is the count when render completed and the failure otherwise; the invariant is kept |
| App.Page.ToggleFavourite | app.js:100-101 | the favourites set is the old one with the id toggled |
| App.Page.ToggleShowFavourites | app.js:122-126 | the switch flips and the grid is rendered again, up to the first card that throws, which the result reports |
| App.Page.ChangeMotorway | app.js:115 | the select takes the chosen option and the grid is rendered again, up to the first card that throws, which the result reports |
| ServiceWorker.Route | sw.js:17-32 | a request is cache-first exactly when its path is under /icons/ or a core asset |
| ServiceWorker.RouteSpec | sw.js:19-23 | the core rule is tested first; another image path (.jpg, .jpeg, .png in any case) is stale-while-revalidate; everything else passes through |
| ServiceWorker.ExampleIconIsCacheFirst | sw.js:19 | /icons/icon-192.png is an image path, yet it is cache-first |
| ServiceWorker.ExampleUpperCaseImage | sw.js:23 | /cams/A.JPG is stale-while-revalidate |
| ServiceWorker.ExampleDataPassesThrough | sw.js:17-32 | /data.json is not intercepted |
| ServiceWorker.MatchIn | sw.js:20 | a hit comes from some cache holding the key |
| ServiceWorker.MatchInSpec | sw.js:20 | `caches.match` misses iff no cache holds the key; a hit comes from the first cache, in creation order, that does |
| ServiceWorker.CacheFirstResponse | sw.js:20 | definition: the cached response when there is one, and the network's otherwise; MatchInSpec and HandleFetch state where the cached one comes from |
| ServiceWorker.SwrStep | sw.js:25-28 | there is no response only on a miss with a failed fetch; no key other than the request's changes |
| ServiceWorker.SwrStepSpec | sw.js:25-28 | a hit answers from the cache, a miss from the network, and a miss with a failed fetch gives no response; an arriving response other than a 206 is stored under the key; no other key changes |
| ServiceWorker.SwrServesRevalidated | sw.js:26-28 | after a response is stored, the next request for the key is answered with it |
| ServiceWorker.AddAllBatch | sw.js:6 | every key in a batch maps to an acceptable fetched response for that key |
| ServiceWorker.AddAllBatchSpec | sw.js:6 | addAll yields a batch iff every asset's fetch is acceptable; the batch maps exactly the asset URLs to their responses |
| ServiceWorker.OpenedEntries | sw.js:25 | `caches.open` makes the named cache exist, adds no other, keeps every existing cache as it was, and creates a missing one empty |
| ServiceWorker.CacheStorage.Open | sw.js:25 | a missing cache is created at the end of the creation order, with no entries |
| ServiceWorker.CacheStorage.Put | sw.js:27 | a 206 is refused and nothing changes; any other response is stored under the key |
| ServiceWorker.CacheStorage.PutAll | sw.js:6 | a batch is written into the named cache |
| ServiceWorker.CacheStorage.Delete | sw.js:12 | the named cache disappears from the names and the entries, and the result says whether it existed |
| ServiceWorker.Install | sw.js:5-7 | static-v1 is opened; it receives every core asset when all fetches are acceptable, and nothing otherwise; the result says which |
| ServiceWorker.InstalledAssetsHit | sw.js:6 | once static-v1 holds the batch of a successful install, whatever else it holds, every core asset is found by `caches.match` |
| ServiceWorker.Activate | sw.js:9-15 | the names are the old ones that are static-v1 or img-v1, in order, and the entries are restricted to them |
| ServiceWorker.ActivateOne | sw.js:12 | one deletion step removes the name in hand unless it is current |
| ServiceWorker.ActivateStep | sw.js:12 | the survivors after handling a name are those before it, minus that name unless it is current |
| ServiceWorker.ActivateSpec | sw.js:12 | activate keeps exactly static-v1 and img-v1 when present, in their original order |
| ServiceWorker.HandleFetch | sw.js:17-32 | a pass-through changes nothing and asks no network; cache-first answers from the caches or the network and writes nothing; stale-while-revalidate opens img-v1, answers the cached or the network response and stores the latter |

## Left out

- DOM work is not modelled. This covers element lookups, template cloning, `innerHTML`,
  `classList`, titles and event wiring (app.js:6-11, 83-127). Each card's text, image source
  with its `Date.now()` cache-buster, and map link (app.js:85-105) are not modelled either. The
  grid is the sequence of records it shows. The one card step that can throw is kept: a url
  that is truthy but not a string has no `replace` (app.js:94).
- The refresh-all button (app.js:116-121) and `syncFavToggleUI` (app.js:109-112) only touch
  the DOM. They are not modelled.
- The network (`fetch`, `r.json()`) is an input. The page receives an `App.Reply`; the
  service worker receives a function from URL to an optional response.
- localStorage writes (app.js:102, 115, 124) are not modelled. The stored values are
  parameters. Recovery from unparsable stored JSON (app.js:14-15) is not modelled either.
- Async ordering is not modelled. This covers the background `cache.put` racing the response,
  two overlapping `fetchCameras` calls, and the `waitUntil` and `respondWith` promises. Each
  handler is modelled as one step ending in its final state.
- `skipWaiting` and `clients.claim` (sw.js:6, 13) have no stateable effect and are left out.
- Number-to-string formatting and string-to-number parsing belong to the engine. They are the
  `Host` parameter, and "finite" means the parse gives a value.
- Case mapping (`toLowerCase`, `toUpperCase`, the `i` flag) is modelled on ASCII letters only.
- `localeCompare` is an abstract total preorder. The model sorts with one stable insertion
  sort.
- Cameras.Norm: a present non-string name is converted with `String()` when it is stored.
  The source keeps the original value, and `name.toLowerCase()` or `localeCompare` would then
  throw later.
- Catalog.IsFavourite: `Set.has` compares object ids by reference. The model compares them
  structurally; feed ids are strings or numbers, where the two agree.
- Requests are GET requests keyed by URL. Vary headers, opaque responses, `resp.clone()`
  and request methods that `cache.put` rejects are not modelled. `new URL(...)` parsing is
  replaced by a request that carries its URL and its pathname.
- A JSON number literal beyond the range of a double, which `JSON.parse` turns into an
  infinity, is kept as an exact real, so the model treats such a coordinate as finite.
- `console.error` and the status text `HTTP <status>` of the thrown error are not modelled.
  The model records only which kind of error ended the load.
