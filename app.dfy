/** The page state of app.js: the catalog `allCams`, the favourites set, the favourites-only
    switch, the motorway select and the rendered grid, with the handlers that update them. */
module App {
  import opened Js
  import opened Seqs
  import opened Cameras
  import opened Catalog

  /** What `fetch(ENDPOINT)` and `r.json()` deliver: a rejected fetch, or a response with its
      status and its body parsed as JSON (`None` when the body is not JSON). */
  datatype Reply = Unreachable | Reply(status: int, body: Option<Json>)

  /** `r.ok`: the status is in the range 200-299. */
  predicate IsOk(status: int) {
    200 <= status <= 299
  }

  /** The payload a reply yields, or the error thrown while getting it. */
  function Payload(reply: Reply): (r: Result<Json>)
    ensures r.Ok? <==> reply.Reply? && IsOk(reply.status) && reply.body.Some?
    ensures reply.Reply? && !IsOk(reply.status) ==> r == Err(HttpError)
  {
    match reply
    case Unreachable => Err(TypeError)
    case Reply(status, body) =>
      if !IsOk(status) then Err(HttpError)
      else if body.None? then Err(SyntaxError)
      else Ok(body.value)
  }

  /** The outcome of the try block of fetchCameras up to the assignment of allCams. */
  function Fetched(reply: Reply, freshId: nat -> string, host: Host, nameOrder: (string, string) -> bool)
    : (r: Result<seq<Camera>>)
    ensures r.Ok? ==> Payload(reply).Ok?
  {
    match Payload(reply)
    case Err(e) => Err(e)
    case Ok(data) => Load(data, freshId, host, nameOrder)
  }

  /** A fetched catalog keeps the catalog invariant. */
  lemma FetchedCatalog(reply: Reply, freshId: nat -> string, host: Host, nameOrder: (string, string) -> bool)
    requires TotalPreorder(nameOrder) && Fetched(reply, freshId, host, nameOrder).Ok?
    ensures CatalogEntries(Fetched(reply, freshId, host, nameOrder).value, host)
    ensures SortedBy(Fetched(reply, freshId, host, nameOrder).value, NameLeq(nameOrder))
  {
    LoadSpec(Payload(reply).value, freshId, host, nameOrder);
  }

  /** `String(n)` for a non-negative integer. */
  function DecimalText(n: nat): (r: string)
    ensures |r| > 0
    ensures forall i :: 0 <= i < |r| ==> '0' <= r[i] <= '9'
    ensures DigitsValue(r) == n
    ensures r[0] != '0' || r == "0"
  {
    if n < 10 then [('0' as int + n) as char]
    else
      var r := DecimalText(n / 10) + [('0' as int + n % 10) as char];
      assert r[..|r| - 1] == DecimalText(n / 10);
      r
  }

  /** The number a string of decimal digits denotes. */
  function DigitsValue(s: string): int {
    if s == [] then 0 else 10 * DigitsValue(s[..|s| - 1]) + (s[|s| - 1] as int - '0' as int)
  }

  const LoadFailedText: string := "Could not load cameras. Try again later."

  function LoadedText(count: nat): string {
    DecimalText(count) + " cameras · Auckland"
  }

  class Page {
    const host: Host
    /** `a.localeCompare(b) <= 0` for camera names, and with numeric collation for codes. */
    const nameOrder: (string, string) -> bool
    const codeOrder: (string, string) -> bool

    var allCams: seq<Camera>
    var favourites: set<Json>
    var showFavouritesOnly: bool
    /** The option values of the motorway select, in display order, and its current value. */
    var motorwayOptions: seq<string>
    var motorway: string
    /** The cards of the grid, one per record, in display order. */
    var grid: seq<Camera>
    var status: string

    /** The catalog holds only records with an image inside Auckland, sorted by name, and the
        select's value is one of its options or "". */
    ghost predicate Valid()
      reads this`allCams, this`motorwayOptions, this`motorway
    {
      && TotalPreorder(nameOrder)
      && CatalogEntries(allCams, host)
      && SortedBy(allCams, NameLeq(nameOrder))
      && (motorway in motorwayOptions || motorway == "")
    }

    /** The script's start-up: an empty catalog, and the favourites and the favourites-only
        switch as stored. */
    constructor(host: Host, nameOrder: (string, string) -> bool, codeOrder: (string, string) -> bool,
                storedFavourites: set<Json>, storedShowFavourites: bool)
      requires TotalPreorder(nameOrder)
      ensures Valid()
      ensures this.host == host && this.nameOrder == nameOrder && this.codeOrder == codeOrder
      ensures allCams == [] && grid == [] && motorwayOptions == [] && motorway == "" && status == ""
      ensures favourites == storedFavourites && showFavouritesOnly == storedShowFavourites
    {
      this.host := host;
      this.nameOrder := nameOrder;
      this.codeOrder := codeOrder;
      allCams := [];
      favourites := storedFavourites;
      showFavouritesOnly := storedShowFavourites;
      motorwayOptions := [];
      motorway := "";
      grid := [];
      status := "";
    }

    /** render: narrow the catalog filter by filter, clear the grid, then append one card per
        record. Building a card whose url is truthy but not a string throws a TypeError, which
        leaves the cards appended before it; `completed` is false exactly then. */
    method Render(query: string) returns (completed: bool)
      modifies this`grid
      ensures var shown := Visible(allCams, query, motorway, favourites, showFavouritesOnly);
        && grid == shown[..CardsBeforeThrow(shown)]
        && (completed <==> forall i :: 0 <= i < |shown| ==> !CardThrows(shown[i]))
    {
      var cams := Filter(allCams, NameHas(Lower(query)));
      if motorway != "" {
        cams := Filter(cams, OnMotorway(motorway));
      }
      if showFavouritesOnly {
        cams := Filter(cams, IsFavourite(favourites));
      }
      grid := [];
      var i := 0;
      while i < |cams| && !CardThrows(cams[i])
        invariant 0 <= i <= |cams|
        invariant grid == cams[..i]
        invariant forall j :: 0 <= j < i ==> !CardThrows(cams[j])
      {
        grid := grid + [cams[i]];
        i := i + 1;
      }
      completed := i == |cams|;
    }

    /** The page after a successful load of `cams`: the catalog replaced, the options rebuilt
        (the "" option first, each motorway code once, in code order), the stored filter selected
        when it is one of them, and the grid rendered. The count is reported when every card was
        built; when a card threw, the grid holds the cards before it and the failure is
        reported. */
    ghost predicate Showing(cams: seq<Camera>, storedFilter: Option<string>, query: string)
      reads this
    {
      && allCams == cams
      && |motorwayOptions| > 0 && motorwayOptions[0] == "" && NoDuplicates(motorwayOptions)
      && (forall v :: v in motorwayOptions <==> v == "" || IsCodeOf(allCams, v))
      && (TotalPreorder(codeOrder) ==> SortedBy(motorwayOptions, OptionLeq(codeOrder)))
      && motorway == SelectedMotorway(motorwayOptions, storedFilter)
      && var shown := Visible(allCams, query, motorway, favourites, showFavouritesOnly);
         && grid == shown[..CardsBeforeThrow(shown)]
         && status == (if CardsBeforeThrow(shown) == |shown| then LoadedText(|allCams|) else LoadFailedText)
    }

    /** fetchCameras. When the fetch or the load fails, the catalog, the options and the grid
        stay as they were and only the status changes; otherwise the page shows the fetched
        catalog, as far as render gets. */
    method FetchCameras(reply: Reply, freshId: nat -> string, storedFilter: Option<string>, query: string)
      returns (loaded: Result<seq<Camera>>)
      requires Valid()
      modifies this`allCams, this`motorwayOptions, this`motorway, this`grid, this`status
      ensures Valid()
      ensures loaded == Fetched(reply, freshId, host, nameOrder)
      ensures loaded.Err? ==>
        && allCams == old(allCams) && motorwayOptions == old(motorwayOptions)
        && motorway == old(motorway) && grid == old(grid)
        && status == LoadFailedText
      ensures loaded.Ok? ==> Showing(loaded.value, storedFilter, query)
    {
      status := "Loading cameras…";
      loaded := Fetched(reply, freshId, host, nameOrder);
      if loaded.Err? {
        status := LoadFailedText;
      } else {
        FetchedCatalog(reply, freshId, host, nameOrder);
        ShowCatalog(loaded.value, storedFilter, query);
      }
    }

    /** The success path of fetchCameras: assign allCams, rebuild the options, restore the stored
        filter, render, and report the count, or the failure when render throws. */
    method ShowCatalog(cams: seq<Camera>, storedFilter: Option<string>, query: string)
      requires Valid()
      requires CatalogEntries(cams, host) && SortedBy(cams, NameLeq(nameOrder))
      modifies this`allCams, this`motorwayOptions, this`motorway, this`grid, this`status
      ensures Valid()
      ensures Showing(cams, storedFilter, query)
    {
      allCams := cams;
      motorwayOptions := MotorwayOptions(allCams, codeOrder);
      motorway := SelectedMotorway(motorwayOptions, storedFilter);
      var completed := Render(query);
      if completed {
        status := LoadedText(|allCams|);
      } else {
        status := LoadFailedText;
      }
    }

    /** The favourite button of a card: the id leaves the set if it was in it and joins it
        otherwise. The grid is not re-rendered. */
    method ToggleFavourite(id: Json)
      requires Valid()
      modifies this`favourites
      ensures Valid()
      ensures favourites == Toggled(old(favourites), id)
    {
      favourites := Toggled(favourites, id);
    }

    /** The favourites-only switch: flip it and render again. `completed` is false when render
        threw, which leaves the switch flipped and the grid partial. */
    method ToggleShowFavourites(query: string) returns (completed: bool)
      requires Valid()
      modifies this`showFavouritesOnly, this`grid
      ensures Valid()
      ensures showFavouritesOnly == !old(showFavouritesOnly)
      ensures var shown := Visible(allCams, query, motorway, favourites, showFavouritesOnly);
        && grid == shown[..CardsBeforeThrow(shown)]
        && (completed <==> forall i :: 0 <= i < |shown| ==> !CardThrows(shown[i]))
    {
      showFavouritesOnly := !showFavouritesOnly;
      completed := Render(query);
    }

    /** A change of the motorway select to one of its options, then a render; `completed` is
        false when render threw. */
    method ChangeMotorway(value: string, query: string) returns (completed: bool)
      requires Valid() && value in motorwayOptions
      modifies this`motorway, this`grid
      ensures Valid()
      ensures motorway == value
      ensures var shown := Visible(allCams, query, motorway, favourites, showFavouritesOnly);
        && grid == shown[..CardsBeforeThrow(shown)]
        && (completed <==> forall i :: 0 <= i < |shown| ==> !CardThrows(shown[i]))
    {
      motorway := value;
      completed := Render(query);
    }
  }
}
