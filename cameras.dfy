/** The record normaliser (norm) and the region test (insideAuckland). */
module Cameras {
  import opened Js
  import Motorway

  /** AUCKLAND_BOUNDS: an inclusive latitude/longitude box. */
  const MinLat: real := -37.55
  const MaxLat: real := -36.2
  const MinLon: real := 174.0
  const MaxLon: real := 175.8

  /** A candidate field: `cam.k`, or `cam.outer?.inner`. */
  datatype Path = Key(k: string) | Nested(outer: string, inner: string)

  function Read(cam: Value, p: Path): Value {
    match p
    case Key(k) => Field(cam, k)
    case Nested(outer, inner) => Field(Field(cam, outer), inner)
  }

  function ReadAll(cam: Value, paths: seq<Path>): (r: seq<Value>)
    ensures |r| == |paths|
    ensures forall j :: 0 <= j < |paths| ==> r[j] == Read(cam, paths[j])
  {
    if paths == [] then [] else [Read(cam, paths[0])] + ReadAll(cam, paths[1..])
  }

  /** The candidate fields of each attribute, in the order they are tried. */
  const IdPaths: seq<Path> := [Key("id"), Key("cameraId"), Key("camera_id"), Key("siteId")]
  const NamePaths: seq<Path> := [Key("name"), Key("displayName"), Key("description"), Key("location")]
  const RegionPaths: seq<Path> := [Key("region"), Key("regionName"), Key("territorialAuthority")]
  const LatPaths: seq<Path> := [Key("lat"), Key("latitude"), Nested("position", "lat"), Key("y")]
  const LonPaths: seq<Path> := [Key("lon"), Key("lng"), Key("longitude"), Nested("position", "lng"), Key("x")]
  const UrlPaths: seq<Path> :=
    [Key("imageUrl"), Key("imageURI"), Key("imageUri"), Key("url"), Key("image"), Key("image_url")]

  /** The canonical record. `lat`, `lon` and `url` may be undefined (or null). */
  datatype Camera = Camera(id: Json, name: string, region: Json, lat: Value, lon: Value, url: Value, mw: string)

  /** The candidate list of each attribute, fallback last. */
  function IdCandidates(cam: Json, freshId: string): seq<Value> {
    ReadAll(Some(cam), IdPaths) + [Some(Str(freshId))]
  }

  function NameCandidates(cam: Json, id: Json, host: Host): seq<Value> {
    ReadAll(Some(cam), NamePaths) + [Some(Str("Camera " + JsString(id, host)))]
  }

  function RegionCandidates(cam: Json): seq<Value> {
    ReadAll(Some(cam), RegionPaths) + [Some(Str(""))]
  }

  /** norm(cam). Reading a field of `null` throws; `freshId` stands for crypto.randomUUID(). */
  function Norm(cam: Json, freshId: string, host: Host): (r: Result<Camera>)
    ensures r.Err? <==> cam == Null
    ensures r.Ok? ==> r.value.id != Null && r.value.region != Null
    ensures r.Ok? ==> r.value.mw == Motorway.MotorwayOf(r.value.name)
  {
    if cam == Null then Err(TypeError)
    else
      var id := IdOf(cam, freshId);
      var name := NameOf(cam, id, host);
      Ok(Camera(id, name, RegionOf(cam), Coalesce(ReadAll(Some(cam), LatPaths)),
                Coalesce(ReadAll(Some(cam), LonPaths)), Coalesce(ReadAll(Some(cam), UrlPaths)),
                Motorway.MotorwayOf(name)))
  }

  function IdOf(cam: Json, freshId: string): (r: Json)
    ensures r != Null
  {
    Coalesce(IdCandidates(cam, freshId)).value
  }

  /** `name` is String() of the chosen value: see the notes on non-string names. */
  function NameOf(cam: Json, id: Json, host: Host): string {
    JsString(Coalesce(NameCandidates(cam, id, host)).value, host)
  }

  function RegionOf(cam: Json): (r: Json)
    ensures r != Null
  {
    Coalesce(RegionCandidates(cam)).value
  }

  /** Each field of the record is the first candidate that is neither null nor undefined, in
      the listed order; id, name and region fall back to a fresh id, "Camera <id>" and "". */
  lemma NormPicksFirst(cam: Json, freshId: string, host: Host)
    requires cam != Null
    ensures var c := Norm(cam, freshId, host).value;
      && PicksFirstDefined(IdCandidates(cam, freshId), Some(c.id))
      && (exists v :: PicksFirstDefined(NameCandidates(cam, c.id, host), Some(v))
                      && c.name == JsString(v, host))
      && PicksFirstDefined(RegionCandidates(cam), Some(c.region))
      && PicksFirstDefined(ReadAll(Some(cam), LatPaths), c.lat)
      && PicksFirstDefined(ReadAll(Some(cam), LonPaths), c.lon)
      && PicksFirstDefined(ReadAll(Some(cam), UrlPaths), c.url)
  {
    var c := Norm(cam, freshId, host).value;
    CoalescePicksFirst(IdCandidates(cam, freshId));
    CoalescePicksFirst(NameCandidates(cam, c.id, host));
    CoalescePicksFirst(RegionCandidates(cam));
    CoalescePicksFirst(ReadAll(Some(cam), LatPaths));
    CoalescePicksFirst(ReadAll(Some(cam), LonPaths));
    CoalescePicksFirst(ReadAll(Some(cam), UrlPaths));
  }

  /** A raw record with no id field gets the caller's fresh id, so two normalisations with
      different fresh values give different ids. */
  lemma NormWithoutIdUsesFreshId(cam: Json, u1: string, u2: string, host: Host)
    requires cam != Null
    requires forall p :: p in IdPaths ==> Nullish(Read(Some(cam), p))
    ensures Norm(cam, u1, host).value.id == Str(u1)
    ensures u1 != u2 ==> Norm(cam, u1, host).value.id != Norm(cam, u2, host).value.id
  {
    FreshIdFallback(cam, u1);
    FreshIdFallback(cam, u2);
  }

  lemma FreshIdFallback(cam: Json, u: string)
    requires forall p :: p in IdPaths ==> Nullish(Read(Some(cam), p))
    ensures IdOf(cam, u) == Str(u)
  {
    var vs := ReadAll(Some(cam), IdPaths);
    forall j | 0 <= j < |vs| ensures Nullish(vs[j]) {
      assert IdPaths[j] in IdPaths;
    }
    CoalesceFallback(vs, Some(Str(u)));
  }

  /** When every candidate before the fallback is null or undefined, `??` yields the fallback. */
  lemma {:induction false} CoalesceFallback(vs: seq<Value>, last: Value)
    requires forall j :: 0 <= j < |vs| ==> Nullish(vs[j])
    ensures Coalesce(vs + [last]) == last
  {
    if vs != [] {
      assert (vs + [last])[1..] == vs[1..] + [last];
      CoalesceFallback(vs[1..], last);
    }
  }

  /** `cam.region || cam.regionName || ''`. */
  function RegionLabel(cam: map<string, Json>): (r: Json)
    ensures Truthy(Some(r)) || r == Str("")
  {
    var obj := Some(Obj(cam));
    Or(Or(Field(obj, "region"), Field(obj, "regionName")), Some(Str(""))).value
  }

  /** `Number(<first defined candidate> ?? NaN)` and Number.isFinite. */
  function Coordinate(cam: map<string, Json>, paths: seq<Path>, host: Host): (r: Option<real>)
    requires |paths| > 0
    ensures (forall j :: 0 <= j < |paths| ==> Nullish(Read(Some(Obj(cam)), paths[j]))) ==> r.None?
    ensures exists v :: PicksFirstDefined(ReadAll(Some(Obj(cam)), paths), v)
                        && r == (if Nullish(v) then None else ToFiniteNumber(v, host))
  {
    CoalescePicksFirst(ReadAll(Some(Obj(cam)), paths));
    var v := Coalesce(ReadAll(Some(Obj(cam)), paths));
    if Nullish(v) then None else ToFiniteNumber(v, host)
  }

  predicate InBounds(lat: Option<real>, lon: Option<real>) {
    && lat.Some? && lon.Some?
    && MinLat <= lat.value <= MaxLat
    && MinLon <= lon.value <= MaxLon
  }

  /** insideAuckland(cam). `toLowerCase` on a text that is not a string throws. */
  function InsideAuckland(cam: map<string, Json>, host: Host): (r: Result<bool>)
    ensures r.Err? <==> !RegionLabel(cam).Str?
    ensures r.Err? ==> r.error == TypeError
  {
    var text := RegionLabel(cam);
    if !text.Str? then Err(TypeError)
    else if Includes(Lower(text.s), "auckland") then Ok(true)
    else Ok(InBounds(Coordinate(cam, LatPaths, host), Coordinate(cam, LonPaths, host)))
  }

  ghost predicate MentionsAuckland(cam: map<string, Json>) {
    RegionLabel(cam).Str? && exists i :: OccursAt(Lower(RegionLabel(cam).s), "auckland", i)
  }

  /** A region text containing "auckland" in any case wins, whatever the coordinates are;
      without one, the answer is the inclusive box test on finite coordinates. */
  lemma InsideAucklandSpec(cam: map<string, Json>, host: Host)
    requires RegionLabel(cam).Str?
    ensures MentionsAuckland(cam) ==> InsideAuckland(cam, host) == Ok(true)
    ensures !MentionsAuckland(cam) ==>
      InsideAuckland(cam, host) == Ok(InBounds(Coordinate(cam, LatPaths, host), Coordinate(cam, LonPaths, host)))
  {
    IncludesSpec(Lower(RegionLabel(cam).s), "auckland");
  }

  /** The region text is `region` when that is truthy; the regionName fallback applies only when
      region is falsy (missing, null, "", 0, false); "" when both are falsy. */
  lemma RegionLabelPicksTruthy(cam: map<string, Json>)
    ensures TruthyField(cam, "region") ==> RegionLabel(cam) == cam["region"]
    ensures !TruthyField(cam, "region") && TruthyField(cam, "regionName") ==> RegionLabel(cam) == cam["regionName"]
    ensures !TruthyField(cam, "region") && !TruthyField(cam, "regionName") ==> RegionLabel(cam) == Str("")
  {
  }

  /** Two objects that differ only in their coordinates get the same answer when the region
      text names Auckland. */
  lemma RegionMatchIgnoresCoordinates(a: map<string, Json>, b: map<string, Json>, host: Host)
    requires RegionLabel(a) == RegionLabel(b) && MentionsAuckland(a)
    ensures InsideAuckland(a, host) == InsideAuckland(b, host) == Ok(true)
  {
    InsideAucklandSpec(a, host);
    InsideAucklandSpec(b, host);
  }

  /** The record as the object `{ id, name, region, lat, lon, url, mw }` that the pipeline
      hands to insideAuckland; an undefined field reads as a missing key. */
  function AsObject(c: Camera): map<string, Json> {
    var m := map["id" := c.id, "name" := Str(c.name), "region" := c.region, "mw" := Str(c.mw)];
    var m1 := if c.lat.Some? then m["lat" := c.lat.value] else m;
    var m2 := if c.lon.Some? then m1["lon" := c.lon.value] else m1;
    if c.url.Some? then m2["url" := c.url.value] else m2
  }

  /** On a normalised record only `region`, `lat` and `lon` can take part: the record has no
      regionName, latitude, position, y, lng, longitude or x. */
  lemma InsideAucklandOfRecord(c: Camera, host: Host)
    ensures RegionLabel(AsObject(c)) == (if Truthy(Some(c.region)) then c.region else Str(""))
    ensures Coordinate(AsObject(c), LatPaths, host) == (if Nullish(c.lat) then None else ToFiniteNumber(c.lat, host))
    ensures Coordinate(AsObject(c), LonPaths, host) == (if Nullish(c.lon) then None else ToFiniteNumber(c.lon, host))
  {
    RecordKeys(c);
    RecordLatitude(c, host);
    RecordLongitude(c, host);
  }

  lemma RecordKeys(c: Camera)
    ensures AsObject(c).Keys <= {"id", "name", "region", "mw", "lat", "lon", "url"}
    ensures "region" in AsObject(c) && AsObject(c)["region"] == c.region
    ensures Field(Some(Obj(AsObject(c))), "lat") == c.lat
    ensures Field(Some(Obj(AsObject(c))), "lon") == c.lon
  {
  }

  lemma RecordLatitude(c: Camera, host: Host)
    ensures Coordinate(AsObject(c), LatPaths, host) == (if Nullish(c.lat) then None else ToFiniteNumber(c.lat, host))
  {
    RecordKeys(c);
    FirstPathOnly(AsObject(c), LatPaths);
  }

  lemma RecordLongitude(c: Camera, host: Host)
    ensures Coordinate(AsObject(c), LonPaths, host) == (if Nullish(c.lon) then None else ToFiniteNumber(c.lon, host))
  {
    RecordKeys(c);
    FirstPathOnly(AsObject(c), LonPaths);
  }

  /** Bounds are inclusive: a camera exactly on the south-west corner is inside. */
  lemma CornerIsInside(cam: map<string, Json>, host: Host)
    requires RegionLabel(cam) == Str("")
    requires Coordinate(cam, LatPaths, host) == Some(MinLat)
    requires Coordinate(cam, LonPaths, host) == Some(MinLon)
    ensures InsideAuckland(cam, host) == Ok(true)
  {
    assert Lower("") == "";
  }

  /** norm resolves `region ?? regionName`, insideAuckland `region || regionName`: a feed record
      whose region is "" keeps "" in the record, so a regionName of "Auckland" no longer counts
      for a record without coordinates, although insideAuckland on the raw record says yes. */
  lemma EmptyRegionHidesRegionName(raw: map<string, Json>, freshId: string, host: Host)
    requires "region" in raw && raw["region"] == Str("")
    requires "regionName" in raw && raw["regionName"] == Str("Auckland")
    requires "lat" !in raw && "latitude" !in raw && "position" !in raw && "y" !in raw
    ensures InsideAuckland(raw, host) == Ok(true)
    ensures InsideAuckland(AsObject(Norm(Obj(raw), freshId, host).value), host) == Ok(false)
  {
    RegionNameAuckland(raw, host);
    var c := Norm(Obj(raw), freshId, host).value;
    NormKeepsEmptyRegion(raw, freshId, host);
    InsideAucklandOfRecord(c, host);
    assert Lower("") == "";
    assert !Includes("", "auckland");
  }

  lemma RegionNameAuckland(raw: map<string, Json>, host: Host)
    requires "region" in raw && raw["region"] == Str("")
    requires "regionName" in raw && raw["regionName"] == Str("Auckland")
    ensures InsideAuckland(raw, host) == Ok(true)
  {
    assert RegionLabel(raw) == Str("Auckland");
    LowerIs("Auckland", "auckland");
    IncludesSelf("auckland");
  }

  lemma NormKeepsEmptyRegion(raw: map<string, Json>, freshId: string, host: Host)
    requires "region" in raw && raw["region"] == Str("")
    requires "lat" !in raw && "latitude" !in raw && "position" !in raw && "y" !in raw
    ensures Norm(Obj(raw), freshId, host).value.region == Str("")
    ensures Norm(Obj(raw), freshId, host).value.lat == None
  {
    assert RegionCandidates(Obj(raw))[0] == Some(Str(""));
    AbsentPathsReadUndefined(raw, LatPaths);
  }

  /** The outermost key a path reads. */
  function Head(p: Path): string {
    match p
    case Key(k) => k
    case Nested(outer, _) => outer
  }

  /** When no candidate's outermost key is present, every candidate is undefined and so is the
      `??` chain over them. */
  lemma {:induction false} AbsentPathsReadUndefined(m: map<string, Json>, paths: seq<Path>)
    requires |paths| > 0
    requires forall j :: 0 <= j < |paths| ==> Head(paths[j]) !in m
    ensures Coalesce(ReadAll(Some(Obj(m)), paths)) == None
  {
    if |paths| > 1 {
      AbsentPathsReadUndefined(m, paths[1..]);
      assert ReadAll(Some(Obj(m)), paths)[1..] == ReadAll(Some(Obj(m)), paths[1..]);
    }
  }

  /** When only the first candidate's outermost key can be present, the `??` chain is that
      candidate unless it is null or undefined. */
  lemma FirstPathOnly(m: map<string, Json>, paths: seq<Path>)
    requires |paths| > 1
    requires forall j :: 1 <= j < |paths| ==> Head(paths[j]) !in m
    ensures var v := Read(Some(Obj(m)), paths[0]);
      Coalesce(ReadAll(Some(Obj(m)), paths)) == if Nullish(v) then None else v
  {
    AbsentPathsReadUndefined(m, paths[1..]);
    assert ReadAll(Some(Obj(m)), paths)[1..] == ReadAll(Some(Obj(m)), paths[1..]);
  }
}
