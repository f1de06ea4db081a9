/** The catalog pipeline of fetchCameras (unwrap the payload, normalise, keep records with an
    image url inside Auckland, sort by name), the display query of render, the favourites toggle
    and the motorway option list. */
module Catalog {
  import opened Js
  import opened Seqs
  import opened Cameras

  /** `Array.isArray(data) ? data : (data.cameras || data.items || data.results || [])`, then
      the check that the list is a non-empty array. Reading a field of `null` throws. */
  function Unwrap(data: Json): (r: Result<seq<Json>>)
    ensures r.Ok? ==> |r.value| > 0
    ensures data.Arr? ==> r == (if data.items == [] then Err(ShapeError) else Ok(data.items))
    ensures data == Null ==> r == Err(TypeError)
  {
    if data.Arr? then
      if data.items == [] then Err(ShapeError) else Ok(data.items)
    else if data == Null then Err(TypeError)
    else
      var d := Some(data);
      var list := Or(Or(Or(Field(d, "cameras"), Field(d, "items")), Field(d, "results")), Some(Arr([]))).value;
      if list.Arr? && list.items != [] then Ok(list.items) else Err(ShapeError)
  }

  /** The verdict on a candidate list: a non-empty array is used, anything else throws. */
  function ListVerdict(list: Json): Result<seq<Json>> {
    if list.Arr? && list.items != [] then Ok(list.items) else Err(ShapeError)
  }

  /** An envelope is read through the first truthy one of cameras, items and results, in that
      order: an empty array is truthy, so a later non-empty candidate is never reached. */
  lemma UnwrapEnvelope(fields: map<string, Json>)
    ensures var r := Unwrap(Obj(fields));
      && (TruthyField(fields, "cameras") ==> r == ListVerdict(fields["cameras"]))
      && (!TruthyField(fields, "cameras") && TruthyField(fields, "items") ==> r == ListVerdict(fields["items"]))
      && (!TruthyField(fields, "cameras") && !TruthyField(fields, "items") && TruthyField(fields, "results") ==>
            r == ListVerdict(fields["results"]))
      && (!TruthyField(fields, "cameras") && !TruthyField(fields, "items") && !TruthyField(fields, "results") ==>
            r == Err(ShapeError))
      && (r.Ok? ==> exists k :: k in fields && k in {"cameras", "items", "results"} && fields[k] == Arr(r.value))
  {
  }

  /** `{ cameras: [], items: [x] }` fails although items holds a camera. */
  lemma EmptyCamerasShadowsItems(x: Json)
    ensures Unwrap(Obj(map["cameras" := Arr([]), "items" := Arr([x])])) == Err(ShapeError)
  {
    var fields := map["cameras" := Arr([]), "items" := Arr([x])];
    UnwrapEnvelope(fields);
  }

  /** `list.map(norm)`: the element at position `i` may use the fresh id `freshId(i)`. A `null`
      element makes norm throw. */
  function NormAll(list: seq<Json>, freshId: nat -> string, host: Host): (r: Result<seq<Camera>>)
    ensures r.Err? <==> Null in list
    ensures r.Ok? ==> |r.value| == |list|
    ensures r.Ok? ==> forall i :: 0 <= i < |list| ==> Norm(list[i], freshId(i), host) == Ok(r.value[i])
  {
    if Null in list then Err(TypeError)
    else Ok(seq(|list|, i requires 0 <= i < |list| => Norm(list[i], freshId(i), host).value))
  }

  predicate HasImage(c: Camera) {
    Truthy(c.url)
  }

  /** insideAuckland applied to the normalised record, which is how the pipeline calls it. */
  function RecordInside(c: Camera, host: Host): Result<bool> {
    InsideAuckland(AsObject(c), host)
  }

  /** The filter callback `insideAuckland`, on a record it does not throw for. */
  function IsInside(host: Host): Camera -> bool {
    (c: Camera) => RecordInside(c, host) == Ok(true)
  }

  /** `a.name.localeCompare(b.name) <= 0`, for an abstract collation `nameOrder`. */
  function NameLeq(nameOrder: (string, string) -> bool): (Camera, Camera) -> bool {
    (a: Camera, b: Camera) => nameOrder(a.name, b.name)
  }

  lemma NameLeqTotal(nameOrder: (string, string) -> bool)
    requires TotalPreorder(nameOrder)
    ensures TotalPreorder(NameLeq(nameOrder))
  {
    var leq := NameLeq(nameOrder);
    forall a: Camera, b: Camera ensures leq(a, b) || leq(b, a) {
      assert nameOrder(a.name, b.name) || nameOrder(b.name, a.name);
    }
    forall a: Camera, b: Camera, c: Camera | leq(a, b) && leq(b, c) ensures leq(a, c) {
      assert nameOrder(a.name, b.name) && nameOrder(b.name, c.name);
    }
  }

  /** Lines 52-55 of fetchCameras: the catalog a payload produces, or the error that leaves the
      previous catalog in place. The region test throws (and so does the whole load) on a record
      whose region is truthy but not a string. */
  function Load(data: Json, freshId: nat -> string, host: Host, nameOrder: (string, string) -> bool)
    : (r: Result<seq<Camera>>)
    ensures Unwrap(data).Err? ==> r == Err(Unwrap(data).error)
    ensures r.Ok? ==> Unwrap(data).Ok? && Null !in Unwrap(data).value
    ensures r.Ok? ==> |r.value| <= |Unwrap(data).value|
  {
    match Unwrap(data)
    case Err(e) => Err(e)
    case Ok(list) =>
      match NormAll(list, freshId, host)
      case Err(e) => Err(e)
      case Ok(mapped) => Select(mapped, host, nameOrder)
  }

  /** `mapped.filter(c => c.url).filter(insideAuckland).sort(...)`. */
  function Select(mapped: seq<Camera>, host: Host, nameOrder: (string, string) -> bool)
    : (r: Result<seq<Camera>>)
    ensures r.Err? ==> r.error == TypeError
    ensures r.Ok? ==> |r.value| <= |mapped|
  {
    var withImage := Filter(mapped, HasImage);
    if exists c :: c in withImage && RecordInside(c, host).Err? then Err(TypeError)
    else Ok(SortBy(Filter(withImage, IsInside(host)), NameLeq(nameOrder)))
  }

  /** The records a load keeps: a truthy url, and inside Auckland. */
  function Kept(host: Host): Camera -> bool {
    (c: Camera) => HasImage(c) && RecordInside(c, host) == Ok(true)
  }

  /** The catalog invariant: every entry is one a load keeps. */
  predicate CatalogEntries(cams: seq<Camera>, host: Host) {
    forall c :: c in cams ==> Kept(host)(c)
  }

  /** A successful load holds exactly the normalised records with a truthy url that lie inside
      Auckland, each as often as in the feed, sorted by name. */
  lemma LoadSpec(data: Json, freshId: nat -> string, host: Host, nameOrder: (string, string) -> bool)
    requires Load(data, freshId, host, nameOrder).Ok?
    ensures var cams := Load(data, freshId, host, nameOrder).value;
      var mapped := NormAll(Unwrap(data).value, freshId, host).value;
      && CatalogEntries(cams, host)
      && (forall c :: c in cams <==> c in mapped && HasImage(c) && RecordInside(c, host) == Ok(true))
      && multiset(cams) == multiset(Filter(mapped, Kept(host)))
      && (TotalPreorder(nameOrder) ==> SortedBy(cams, NameLeq(nameOrder)))
  {
    var mapped := NormAll(Unwrap(data).value, freshId, host).value;
    assert Load(data, freshId, host, nameOrder) == Select(mapped, host, nameOrder);
    SelectSpec(mapped, host, nameOrder);
  }

  lemma SelectSpec(mapped: seq<Camera>, host: Host, nameOrder: (string, string) -> bool)
    requires Select(mapped, host, nameOrder).Ok?
    ensures var cams := Select(mapped, host, nameOrder).value;
      && CatalogEntries(cams, host)
      && (forall c :: c in cams <==> c in mapped && HasImage(c) && RecordInside(c, host) == Ok(true))
      && multiset(cams) == multiset(Filter(mapped, Kept(host)))
      && (TotalPreorder(nameOrder) ==> SortedBy(cams, NameLeq(nameOrder)))
  {
    var cams := Select(mapped, host, nameOrder).value;
    var kept := Filter(mapped, Kept(host));
    assert cams == SortBy(kept, NameLeq(nameOrder)) by {
      FilterFilter(mapped, HasImage, IsInside(host), Kept(host));
    }
    forall c ensures c in cams <==> c in mapped && Kept(host)(c) {
      assert c in cams <==> c in multiset(kept);
      FilterMembership(mapped, Kept(host), c);
    }
    if TotalPreorder(nameOrder) {
      NameLeqTotal(nameOrder);
      SortBySorted(kept, NameLeq(nameOrder));
    }
  }

  /** The load fails exactly when the payload has no non-empty list, a list element is null, or
      a kept record has a truthy region that is not a string. */
  lemma LoadFails(data: Json, freshId: nat -> string, host: Host, nameOrder: (string, string) -> bool)
    ensures Load(data, freshId, host, nameOrder).Err? <==>
      || Unwrap(data).Err?
      || Null in Unwrap(data).value
      || exists c :: c in NormAll(Unwrap(data).value, freshId, host).value && HasImage(c)
                     && RecordInside(c, host).Err?
  {
    if Unwrap(data).Ok? && Null !in Unwrap(data).value {
      var mapped := NormAll(Unwrap(data).value, freshId, host).value;
      assert Load(data, freshId, host, nameOrder) == Select(mapped, host, nameOrder);
      SelectFails(mapped, host, nameOrder);
    }
  }

  lemma SelectFails(mapped: seq<Camera>, host: Host, nameOrder: (string, string) -> bool)
    ensures Select(mapped, host, nameOrder).Err? <==>
      exists c :: c in mapped && HasImage(c) && RecordInside(c, host).Err?
  {
    FilterMembershipAll(mapped, HasImage);
  }

  /** The filters of render: the lower-cased name contains the lower-cased query; the record's
      code equals the selected motorway when one is selected; its id is a favourite when only
      favourites are shown. */
  function Visible(cams: seq<Camera>, query: string, motorway: string, favourites: set<Json>, favouritesOnly: bool)
    : (r: seq<Camera>)
    ensures |r| <= |cams|
  {
    var byName := Filter(cams, NameHas(Lower(query)));
    var byMotorway := if motorway != "" then Filter(byName, OnMotorway(motorway)) else byName;
    if favouritesOnly then Filter(byMotorway, IsFavourite(favourites)) else byMotorway
  }

  function NameHas(q: string): Camera -> bool {
    (c: Camera) => Includes(Lower(c.name), q)
  }

  function OnMotorway(motorway: string): Camera -> bool {
    (c: Camera) => c.mw == motorway
  }

  function IsFavourite(favourites: set<Json>): Camera -> bool {
    (c: Camera) => c.id in favourites
  }

  predicate Matches(c: Camera, query: string, motorway: string, favourites: set<Json>, favouritesOnly: bool) {
    && Includes(Lower(c.name), Lower(query))
    && (motorway != "" ==> c.mw == motorway)
    && (favouritesOnly ==> c.id in favourites)
  }

  function Shown(query: string, motorway: string, favourites: set<Json>, favouritesOnly: bool): Camera -> bool {
    (c: Camera) => Matches(c, query, motorway, favourites, favouritesOnly)
  }

  /** The shown cards are exactly the catalog entries meeting every active filter, in catalog
      order. */
  lemma VisibleSpec(cams: seq<Camera>, query: string, motorway: string, favourites: set<Json>, favouritesOnly: bool)
    ensures var r := Visible(cams, query, motorway, favourites, favouritesOnly);
      && r == Filter(cams, Shown(query, motorway, favourites, favouritesOnly))
      && IsSubsequence(r, cams)
      && (forall c :: c in r <==> c in cams && Matches(c, query, motorway, favourites, favouritesOnly))
  {
    var byName := NameHas(Lower(query));
    var byMotorway := OnMotorway(motorway);
    var byFavourite := IsFavourite(favourites);
    var shown := Shown(query, motorway, favourites, favouritesOnly);
    if motorway != "" && favouritesOnly {
      var both := (c: Camera) => byName(c) && byMotorway(c);
      FilterFilter(cams, byName, byMotorway, both);
      FilterFilter(cams, both, byFavourite, shown);
    } else if motorway != "" {
      FilterFilter(cams, byName, byMotorway, shown);
    } else if favouritesOnly {
      FilterFilter(cams, byName, byFavourite, shown);
    } else {
      SameFilter(cams, byName, shown);
    }
    var r := Visible(cams, query, motorway, favourites, favouritesOnly);
    FilterIsSubsequence(cams, shown);
    forall c ensures c in r <==> c in cams && shown(c) {
      FilterMembership(cams, shown, c);
    }
  }

  /** An empty query and no selected motorway filter out nothing: what is shown is the whole
      catalog, or its favourites when only favourites are shown. */
  lemma VisibleWithoutFilters(cams: seq<Camera>, favourites: set<Json>, favouritesOnly: bool)
    ensures Visible(cams, "", "", favourites, favouritesOnly)
            == (if favouritesOnly then Filter(cams, IsFavourite(favourites)) else cams)
  {
    forall c: Camera ensures NameHas(Lower(""))(c) {
      IncludesEmpty(Lower(c.name));
    }
    FilterKeepsAll(cams, NameHas(Lower("")));
  }

  /** Building a card evaluates `(c.url||'').replace(...)`, which throws a TypeError when the
      url is truthy but not a string: a number, `true`, an array or an object has no `replace`. */
  predicate CardThrows(c: Camera) {
    Truthy(c.url) && !c.url.value.Str?
  }

  /** How many cards render appends before the first card that throws: all of them when none
      does. */
  function CardsBeforeThrow(shown: seq<Camera>): (r: nat)
    ensures r <= |shown|
    ensures forall i :: 0 <= i < r ==> !CardThrows(shown[i])
    ensures r < |shown| ==> CardThrows(shown[r])
  {
    if shown == [] || CardThrows(shown[0]) then 0
    else
      var r := 1 + CardsBeforeThrow(shown[1..]);
      assert forall i :: 1 <= i < r ==> shown[i] == shown[1..][i - 1];
      r
  }

  /** `favourites.has(id) ? favourites.delete(id) : favourites.add(id)`. */
  function Toggled(favourites: set<Json>, id: Json): (r: set<Json>)
    ensures id in r <==> id !in favourites
    ensures forall other :: other != id ==> (other in r <==> other in favourites)
  {
    if id in favourites then favourites - {id} else favourites + {id}
  }

  /** Toggling the same id twice restores the set. */
  lemma ToggleTwice(favourites: set<Json>, id: Json)
    ensures Toggled(Toggled(favourites, id), id) == favourites
  {
  }

  /** The option order of buildMotorwayOptions: the empty "all" sentinel before every code,
      codes by the collation `codeOrder` (localeCompare with numeric ordering, <= 0). */
  function OptionLeq(codeOrder: (string, string) -> bool): (string, string) -> bool {
    (a: string, b: string) => a == "" || (b != "" && codeOrder(a, b))
  }

  lemma OptionLeqTotal(codeOrder: (string, string) -> bool)
    requires TotalPreorder(codeOrder)
    ensures TotalPreorder(OptionLeq(codeOrder))
  {
  }

  /** Sorting puts the sentinel first whatever the collation does with the codes. */
  lemma {:induction false} SentinelSortsFirst(s: seq<string>, codeOrder: (string, string) -> bool)
    requires "" in s
    ensures SortBy(s, OptionLeq(codeOrder))[0] == ""
  {
    if s[0] != "" {
      SentinelSortsFirst(s[1..], codeOrder);
      assert SortBy(s[1..], OptionLeq(codeOrder)) != [];
    }
  }

  /** The codes occurring in a catalog. */
  ghost predicate IsCodeOf(cams: seq<Camera>, code: string) {
    code != "" && exists c :: c in cams && c.mw == code
  }

  /** buildMotorwayOptions: the set `{''} ∪ {c.mw | c.mw truthy}` filled in a loop, then sorted.
      The result holds each option once, the sentinel first, and the codes in order. */
  method MotorwayOptions(cams: seq<Camera>, codeOrder: (string, string) -> bool) returns (options: seq<string>)
    ensures |options| > 0 && options[0] == ""
    ensures NoDuplicates(options)
    ensures forall v :: v in options <==> v == "" || IsCodeOf(cams, v)
    ensures TotalPreorder(codeOrder) ==> SortedBy(options, OptionLeq(codeOrder))
  {
    var uniq := [""];
    for i := 0 to |cams|
      invariant NoDuplicates(uniq) && "" in uniq
      invariant forall v :: v in uniq <==> v == "" || IsCodeOf(cams[..i], v)
    {
      var mw := cams[i].mw;
      assert cams[..i + 1] == cams[..i] + [cams[i]];
      if mw != "" && mw !in uniq {
        uniq := uniq + [mw];
      }
    }
    assert cams[..|cams|] == cams;
    options := SortBy(uniq, OptionLeq(codeOrder));
    SentinelSortsFirst(uniq, codeOrder);
    NoDuplicatesByMultiset(uniq);
    NoDuplicatesByMultiset(options);
    forall v ensures v in options <==> v in uniq {
      assert v in options <==> v in multiset(options);
    }
    if TotalPreorder(codeOrder) {
      OptionLeqTotal(codeOrder);
      SortBySorted(uniq, OptionLeq(codeOrder));
    }
  }

  /** `$motorway.value = stored || ''`: a value that is not one of the options selects nothing,
      and the select then reads back as "". */
  function SelectedMotorway(options: seq<string>, stored: Option<string>): (r: string)
    ensures r in options || r == ""
    ensures stored.Some? && stored.value in options ==> r == stored.value
    ensures !(stored.Some? && stored.value in options) ==> r == ""
  {
    var v := if stored.Some? then stored.value else "";
    if v in options then v else ""
  }
}
