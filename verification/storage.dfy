/** The in-memory repository (`MemStorage`): a hurricane map keyed by name slug,
    and append-only lists of weather, ocean and NHC snapshots and of forecasts.
    Record ids come from a counter standing for `randomUUID`; `now` stands for `new Date()`. */
module Storage {
  import opened Wrappers
  import opened Schema
  import Text
  import Records

  /** A JavaScript `Map<string, Hurricane>`: the entries, and the keys in insertion order. */
  datatype HurricaneTable = HurricaneTable(byId: map<string, Hurricane>, order: seq<string>)

  datatype Store = Store(
    hurricanes: HurricaneTable,
    weather: seq<WeatherData>,
    ocean: seq<OceanData>,
    nhc: seq<NhcData>,
    predictions: seq<Prediction>,
    nextId: nat)

  function Empty(): Store {
    Store(HurricaneTable(map[], []), [], [], [], [], 0)
  }

  /** The map invariant: every key is listed once in `order`, and `order` lists only keys. */
  predicate TableValid(t: HurricaneTable) {
    && (forall i, j :: 0 <= i < j < |t.order| ==> t.order[i] != t.order[j])
    && (forall k :: k in t.byId ==> k in t.order)
    && (forall k :: k in t.order ==> k in t.byId)
  }

  /** Every snapshot and forecast id was drawn from the counter before `nextId`. */
  predicate IdsBelow(s: Store) {
    && (forall d :: d in s.weather ==> d.id < s.nextId)
    && (forall d :: d in s.ocean ==> d.id < s.nextId)
    && (forall d :: d in s.nhc ==> d.id < s.nextId)
    && (forall p :: p in s.predictions ==> p.id < s.nextId)
  }

  predicate Valid(s: Store) {
    TableValid(s.hurricanes) && IdsBelow(s)
  }

  lemma EmptyValid()
    ensures Valid(Empty())
  {
  }

  /** `Map.prototype.set`: a new key goes to the end of the order, an existing key keeps its place. */
  function Put(t: HurricaneTable, key: string, h: Hurricane): (r: HurricaneTable)
    ensures r.byId == t.byId[key := h]
    ensures key in t.byId ==> r.order == t.order
    ensures key !in t.byId ==> r.order == t.order + [key]
    ensures TableValid(t) ==> TableValid(r)
  {
    if key in t.byId then HurricaneTable(t.byId[key := h], t.order)
    else HurricaneTable(t.byId[key := h], t.order + [key])
  }

  /** `Array.from(map.values())`. */
  function Values(m: map<string, Hurricane>, order: seq<string>): (r: seq<Hurricane>)
    ensures forall h :: h in r ==> h in m.Values
    ensures forall k :: k in order && k in m ==> m[k] in r
    ensures (forall k :: k in order ==> k in m) ==>
              |r| == |order| && forall i :: 0 <= i < |r| ==> r[i] == m[order[i]]
  {
    if order == [] then []
    else (if order[0] in m then [m[order[0]]] else []) + Values(m, order[1..])
  }

  /** `getHurricanes`: the stored hurricanes, one per key, in the order their keys were
      first inserted. */
  function GetHurricanes(s: Store): (r: seq<Hurricane>)
    ensures forall h :: h in r ==> h in s.hurricanes.byId.Values
    ensures TableValid(s.hurricanes) ==>
              && |r| == |s.hurricanes.order| && |r| == |s.hurricanes.byId|
              && forall i :: 0 <= i < |r| ==> r[i] == s.hurricanes.byId[s.hurricanes.order[i]]
  {
    OrderCountsKeys(s.hurricanes);
    Values(s.hurricanes.byId, s.hurricanes.order)
  }

  /** Under the map invariant there are as many keys in the order as in the map. */
  lemma OrderCountsKeys(t: HurricaneTable)
    ensures TableValid(t) ==> |t.order| == |t.byId|
  {
    if TableValid(t) {
      DistinctCard(t.order);
      assert (set k | k in t.order) == t.byId.Keys;
    }
  }

  lemma {:induction false} DistinctCard(o: seq<string>)
    requires forall i, j :: 0 <= i < j < |o| ==> o[i] != o[j]
    ensures |set k | k in o| == |o|
  {
    if o != [] {
      DistinctCard(o[1..]);
      assert (set k | k in o) == (set k | k in o[1..]) + {o[0]};
      assert o[0] !in o[1..];
    }
  }

  predicate IsActive(h: Hurricane) {
    h.isActive == Some(true)
  }

  /** `getActiveHurricanes`: the stored hurricanes whose `isActive` is truthy. */
  function GetActiveHurricanes(s: Store): (r: seq<Hurricane>)
    ensures forall h :: h in r ==> IsActive(h) && h in s.hurricanes.byId.Values
    ensures TableValid(s.hurricanes) ==>
              forall h :: h in s.hurricanes.byId.Values && IsActive(h) ==> h in r
  {
    var all := GetHurricanes(s);
    assert TableValid(s.hurricanes) ==> forall h :: h in s.hurricanes.byId.Values ==> h in all;
    Filter(all)
  }

  function Filter(hs: seq<Hurricane>): (r: seq<Hurricane>)
    ensures forall h :: h in r <==> h in hs && IsActive(h)
  {
    if hs == [] then []
    else (if IsActive(hs[0]) then [hs[0]] else []) + Filter(hs[1..])
  }

  /** `getHurricane(id)`: the hurricane stored under `id`, or nothing when no hurricane has
      that key (`GetHurricaneListed`: it is one of those listed). */
  function GetHurricane(s: Store, id: string): (r: Option<Hurricane>)
    ensures r.Some? <==> id in s.hurricanes.byId
    ensures r.Some? ==> r.value in s.hurricanes.byId.Values
  {
    if id in s.hurricanes.byId then Some(s.hurricanes.byId[id]) else None
  }

  /** Under the table invariant a key finds a hurricane exactly when it is in the iteration
      order, and the hurricane found is one of those `getHurricanes` lists. */
  lemma GetHurricaneListed(s: Store, id: string)
    requires TableValid(s.hurricanes)
    ensures GetHurricane(s, id).Some? <==> exists i :: 0 <= i < |s.hurricanes.order| && s.hurricanes.order[i] == id
    ensures GetHurricane(s, id).Some? ==> GetHurricane(s, id).value in GetHurricanes(s)
  {
  }

  /** `isActive !== undefined ? isActive : true`: only an undefined flag defaults to
      active; an explicit null is kept and reads as inactive. */
  function ActiveFlag(a: ActiveInput): (r: Option<bool>)
    ensures a.Undefined? ==> r == Some(true)
    ensures a.Null? ==> r == None
    ensures a.Flag? ==> r == Some(a.b)
  {
    match a
    case Undefined => Some(true)
    case Null => None
    case Flag(b) => Some(b)
  }

  /** `createHurricane`: the record is keyed by the slug of its name and replaces any
      record under that key outright; nothing else in the store changes. */
  function CreateHurricane(s: Store, h: NewHurricane): (r: (Hurricane, Store))
    ensures r.0.id == Text.Slug(h.name)
    ensures r.0.name == h.name && r.0.category == h.category && r.0.windSpeed == h.windSpeed
    ensures r.0.pressure == h.pressure && r.0.latitude == h.latitude && r.0.longitude == h.longitude
    ensures r.0.movement == h.movement && r.0.lastUpdate == h.lastUpdate
    ensures r.0.nextUpdate == h.nextUpdate && r.0.forecastTrack == h.forecastTrack
    ensures r.0.isActive == ActiveFlag(h.isActive)
    ensures GetHurricane(r.1, r.0.id) == Some(r.0)
    ensures forall k :: k != r.0.id ==> GetHurricane(r.1, k) == GetHurricane(s, k)
    ensures |r.1.hurricanes.order| <= |s.hurricanes.order| + 1
    ensures Valid(s) ==> Valid(r.1)
    ensures r.1.weather == s.weather && r.1.ocean == s.ocean && r.1.nhc == s.nhc
    ensures r.1.predictions == s.predictions && r.1.nextId == s.nextId
  {
    var id := Text.Slug(h.name);
    var rec := Hurricane(id, h.name, h.category, h.windSpeed, h.pressure, h.latitude, h.longitude,
                         h.movement, h.lastUpdate, h.nextUpdate, h.forecastTrack, ActiveFlag(h.isActive));
    (rec, s.(hurricanes := Put(s.hurricanes, id, rec)))
  }

  /** Creation does not merge: the stored record depends on the input alone. */
  lemma CreateIgnoresExisting(s1: Store, s2: Store, h: NewHurricane)
    ensures CreateHurricane(s1, h).0 == CreateHurricane(s2, h).0
    ensures GetHurricane(CreateHurricane(s1, h).1, Text.Slug(h.name)) ==
            GetHurricane(CreateHurricane(s2, h).1, Text.Slug(h.name))
  {
  }

  /** `u` is `e` under the update `p`: every field `p` carries has `p`'s value in `u`, and
      every other field has `e`'s. */
  predicate Patched(u: Hurricane, e: Hurricane, p: HurricanePatch) {
    && (p.id.Some? ==> u.id == p.id.value) && (p.id.None? ==> u.id == e.id)
    && (p.name.Some? ==> u.name == p.name.value) && (p.name.None? ==> u.name == e.name)
    && (p.category.Some? ==> u.category == p.category.value) && (p.category.None? ==> u.category == e.category)
    && (p.windSpeed.Some? ==> u.windSpeed == p.windSpeed.value) && (p.windSpeed.None? ==> u.windSpeed == e.windSpeed)
    && (p.pressure.Some? ==> u.pressure == p.pressure.value) && (p.pressure.None? ==> u.pressure == e.pressure)
    && (p.latitude.Some? ==> u.latitude == p.latitude.value) && (p.latitude.None? ==> u.latitude == e.latitude)
    && (p.longitude.Some? ==> u.longitude == p.longitude.value) && (p.longitude.None? ==> u.longitude == e.longitude)
    && (p.movement.Some? ==> u.movement == p.movement.value) && (p.movement.None? ==> u.movement == e.movement)
    && (p.lastUpdate.Some? ==> u.lastUpdate == p.lastUpdate.value) && (p.lastUpdate.None? ==> u.lastUpdate == e.lastUpdate)
    && (p.nextUpdate.Some? ==> u.nextUpdate == p.nextUpdate.value) && (p.nextUpdate.None? ==> u.nextUpdate == e.nextUpdate)
    && (p.forecastTrack.Some? ==> u.forecastTrack == p.forecastTrack.value)
    && (p.forecastTrack.None? ==> u.forecastTrack == e.forecastTrack)
    && (p.isActive.Some? ==> u.isActive == p.isActive.value) && (p.isActive.None? ==> u.isActive == e.isActive)
  }

  /** The update object with no fields, `{}`. */
  const NoFields: HurricanePatch :=
    HurricanePatch(None, None, None, None, None, None, None, None, None, None, None, None)

  /** `{ ...existing, ...updates }`: the update's fields win, the rest are kept, so `{}`
      changes nothing. */
  function Merge(e: Hurricane, p: HurricanePatch): (r: Hurricane)
    ensures Patched(r, e, p)
    ensures p == NoFields ==> r == e
  {
    Hurricane(
      p.id.GetOr(e.id), p.name.GetOr(e.name), p.category.GetOr(e.category),
      p.windSpeed.GetOr(e.windSpeed), p.pressure.GetOr(e.pressure),
      p.latitude.GetOr(e.latitude), p.longitude.GetOr(e.longitude),
      p.movement.GetOr(e.movement), p.lastUpdate.GetOr(e.lastUpdate),
      p.nextUpdate.GetOr(e.nextUpdate), p.forecastTrack.GetOr(e.forecastTrack),
      p.isActive.GetOr(e.isActive))
  }

  /** The spread is determined field by field: any hurricane patched from `e` by `p` is the
      merge, so applying the same update twice is applying it once. */
  lemma MergeUnique(u: Hurricane, e: Hurricane, p: HurricanePatch)
    requires Patched(u, e, p)
    ensures u == Merge(e, p)
    ensures Merge(u, p) == u
  {
  }

  /** `updateHurricane`: an unknown id leaves the store alone and yields nothing; otherwise
      every field the update carries wins, every other field keeps its value, and the
      result is stored back under the same key (even when the update rewrites `id`). */
  function UpdateHurricane(s: Store, id: string, p: HurricanePatch): (r: (Option<Hurricane>, Store))
    ensures id !in s.hurricanes.byId ==> r.0.None? && r.1 == s
    ensures id in s.hurricanes.byId ==> r.0.Some? && GetHurricane(r.1, id) == r.0
    ensures id in s.hurricanes.byId ==>
              var e, u := s.hurricanes.byId[id], r.0.value;
              && (p.id.Some? ==> u.id == p.id.value) && (p.id.None? ==> u.id == e.id)
              && (p.name.Some? ==> u.name == p.name.value) && (p.name.None? ==> u.name == e.name)
              && (p.category.Some? ==> u.category == p.category.value) && (p.category.None? ==> u.category == e.category)
              && (p.windSpeed.Some? ==> u.windSpeed == p.windSpeed.value) && (p.windSpeed.None? ==> u.windSpeed == e.windSpeed)
              && (p.pressure.Some? ==> u.pressure == p.pressure.value) && (p.pressure.None? ==> u.pressure == e.pressure)
              && (p.latitude.Some? ==> u.latitude == p.latitude.value) && (p.latitude.None? ==> u.latitude == e.latitude)
              && (p.longitude.Some? ==> u.longitude == p.longitude.value) && (p.longitude.None? ==> u.longitude == e.longitude)
              && (p.movement.Some? ==> u.movement == p.movement.value) && (p.movement.None? ==> u.movement == e.movement)
              && (p.lastUpdate.Some? ==> u.lastUpdate == p.lastUpdate.value) && (p.lastUpdate.None? ==> u.lastUpdate == e.lastUpdate)
              && (p.nextUpdate.Some? ==> u.nextUpdate == p.nextUpdate.value) && (p.nextUpdate.None? ==> u.nextUpdate == e.nextUpdate)
              && (p.forecastTrack.Some? ==> u.forecastTrack == p.forecastTrack.value) && (p.forecastTrack.None? ==> u.forecastTrack == e.forecastTrack)
              && (p.isActive.Some? ==> u.isActive == p.isActive.value) && (p.isActive.None? ==> u.isActive == e.isActive)
    ensures forall k :: k != id ==> GetHurricane(r.1, k) == GetHurricane(s, k)
    ensures r.1.hurricanes.order == s.hurricanes.order
    ensures r.1.weather == s.weather && r.1.ocean == s.ocean && r.1.nhc == s.nhc
    ensures r.1.predictions == s.predictions && r.1.nextId == s.nextId
  {
    if id !in s.hurricanes.byId then (None, s)
    else
      var u := Merge(s.hurricanes.byId[id], p);
      (Some(u), s.(hurricanes := Put(s.hurricanes, id, u)))
  }

  // ---------------------------------------------------------------------------
  // Weather snapshots
  // ---------------------------------------------------------------------------

  /** `getWeatherData(dataType?, timestamp?)`: the records passing both optional filters,
      and only those, newest first. */
  function GetWeatherData(s: Store, dataType: Option<string>, time: Option<int>): (r: seq<WeatherData>)
    ensures forall d :: d in r <==> (d in s.weather
                                     && (TruthyString(dataType) ==> d.dataType == dataType.value)
                                     && (time.Some? ==> d.timestamp == time.value))
    ensures multiset(r) <= multiset(s.weather)
    ensures forall i, j :: 0 <= i < j < |r| ==> r[i].timestamp >= r[j].timestamp
  {
    Records.Listing(s.weather, WeatherKind, WeatherStamp, dataType, time)
  }

  /** `getLatestWeatherData(t)`: nothing iff no record has kind `t`; otherwise a record of
      kind `t` no other one postdates, the first inserted among equals. */
  function GetLatestWeatherData(s: Store, t: string): (r: Option<WeatherData>)
    ensures r.None? <==> forall i :: 0 <= i < |s.weather| ==> s.weather[i].dataType != t
    ensures r.Some? ==> exists k :: Records.LatestAt(s.weather, WeatherKind, t, WeatherStamp, k) && s.weather[k] == r.value
  {
    Records.LatestSpec(s.weather, WeatherKind, t, WeatherStamp);
    Records.Latest(s.weather, WeatherKind, t, WeatherStamp)
  }

  /** `createWeatherData`: appends exactly one record under a fresh id; empty URLs are stored as null. */
  function CreateWeatherData(s: Store, d: NewWeatherData, now: int): (r: (WeatherData, Store))
    ensures r.1.weather == s.weather + [r.0]
    ensures r.0.id == s.nextId && r.1.nextId == s.nextId + 1 && r.0.createdAt == now
    ensures r.0.timestamp == d.timestamp && r.0.dataType == d.dataType && r.0.bounds == d.bounds
    ensures r.0.metadata == d.metadata
    ensures r.0.gribUrl == NullIfEmpty(d.gribUrl) && r.0.cogUrl == NullIfEmpty(d.cogUrl)
    ensures r.0.tileUrl == NullIfEmpty(d.tileUrl)
    ensures IdsBelow(s) ==> IdsBelow(r.1) && forall e :: e in s.weather ==> e.id != r.0.id
    ensures r.1.hurricanes == s.hurricanes && r.1.ocean == s.ocean && r.1.nhc == s.nhc
    ensures r.1.predictions == s.predictions
  {
    var rec := WeatherData(s.nextId, d.timestamp, d.dataType, d.bounds, NullIfEmpty(d.gribUrl),
                           NullIfEmpty(d.cogUrl), NullIfEmpty(d.tileUrl), d.metadata, now);
    (rec, s.(weather := s.weather + [rec], nextId := s.nextId + 1))
  }

  // ---------------------------------------------------------------------------
  // Ocean snapshots
  // ---------------------------------------------------------------------------

  /** `getOceanData(dataType?, timestamp?)`. */
  function GetOceanData(s: Store, dataType: Option<string>, time: Option<int>): (r: seq<OceanData>)
    ensures forall d :: d in r <==> (d in s.ocean
                                     && (TruthyString(dataType) ==> d.dataType == dataType.value)
                                     && (time.Some? ==> d.timestamp == time.value))
    ensures multiset(r) <= multiset(s.ocean)
    ensures forall i, j :: 0 <= i < j < |r| ==> r[i].timestamp >= r[j].timestamp
  {
    Records.Listing(s.ocean, OceanKind, OceanStamp, dataType, time)
  }

  /** `getLatestOceanData(t)`. */
  function GetLatestOceanData(s: Store, t: string): (r: Option<OceanData>)
    ensures r.None? <==> forall i :: 0 <= i < |s.ocean| ==> s.ocean[i].dataType != t
    ensures r.Some? ==> exists k :: Records.LatestAt(s.ocean, OceanKind, t, OceanStamp, k) && s.ocean[k] == r.value
  {
    Records.LatestSpec(s.ocean, OceanKind, t, OceanStamp);
    Records.Latest(s.ocean, OceanKind, t, OceanStamp)
  }

  /** `createOceanData`: appends exactly one record under a fresh id; empty URLs are stored as null. */
  function CreateOceanData(s: Store, d: NewOceanData, now: int): (r: (OceanData, Store))
    ensures r.1.ocean == s.ocean + [r.0]
    ensures r.0.id == s.nextId && r.1.nextId == s.nextId + 1 && r.0.createdAt == now
    ensures r.0.timestamp == d.timestamp && r.0.dataType == d.dataType && r.0.bounds == d.bounds
    ensures r.0.metadata == d.metadata
    ensures r.0.netcdfUrl == NullIfEmpty(d.netcdfUrl) && r.0.cogUrl == NullIfEmpty(d.cogUrl)
    ensures r.0.tileUrl == NullIfEmpty(d.tileUrl)
    ensures IdsBelow(s) ==> IdsBelow(r.1) && forall e :: e in s.ocean ==> e.id != r.0.id
    ensures r.1.hurricanes == s.hurricanes && r.1.weather == s.weather && r.1.nhc == s.nhc
    ensures r.1.predictions == s.predictions
  {
    var rec := OceanData(s.nextId, d.timestamp, d.dataType, d.bounds, NullIfEmpty(d.netcdfUrl),
                         NullIfEmpty(d.cogUrl), NullIfEmpty(d.tileUrl), d.metadata, now);
    (rec, s.(ocean := s.ocean + [rec], nextId := s.nextId + 1))
  }

  // ---------------------------------------------------------------------------
  // NHC snapshots
  // ---------------------------------------------------------------------------

  /** `getNhcData(dataType?, timestamp?)`. */
  function GetNhcData(s: Store, dataType: Option<string>, time: Option<int>): (r: seq<NhcData>)
    ensures forall d :: d in r <==> (d in s.nhc
                                     && (TruthyString(dataType) ==> d.dataType == dataType.value)
                                     && (time.Some? ==> d.timestamp == time.value))
    ensures multiset(r) <= multiset(s.nhc)
    ensures forall i, j :: 0 <= i < j < |r| ==> r[i].timestamp >= r[j].timestamp
  {
    Records.Listing(s.nhc, NhcKind, NhcStamp, dataType, time)
  }

  /** `getLatestNhcData(t)`. */
  function GetLatestNhcData(s: Store, t: string): (r: Option<NhcData>)
    ensures r.None? <==> forall i :: 0 <= i < |s.nhc| ==> s.nhc[i].dataType != t
    ensures r.Some? ==> exists k :: Records.LatestAt(s.nhc, NhcKind, t, NhcStamp, k) && s.nhc[k] == r.value
  {
    Records.LatestSpec(s.nhc, NhcKind, t, NhcStamp);
    Records.Latest(s.nhc, NhcKind, t, NhcStamp)
  }

  /** `createNhcData`: appends exactly one record under a fresh id; an empty storm id is stored as null. */
  function CreateNhcData(s: Store, d: NewNhcData, now: int): (r: (NhcData, Store))
    ensures r.1.nhc == s.nhc + [r.0]
    ensures r.0.id == s.nextId && r.1.nextId == s.nextId + 1 && r.0.createdAt == now
    ensures r.0.timestamp == d.timestamp && r.0.dataType == d.dataType
    ensures r.0.geoJsonData == d.geoJsonData && r.0.stormId == NullIfEmpty(d.stormId)
    ensures IdsBelow(s) ==> IdsBelow(r.1) && forall e :: e in s.nhc ==> e.id != r.0.id
    ensures r.1.hurricanes == s.hurricanes && r.1.weather == s.weather && r.1.ocean == s.ocean
    ensures r.1.predictions == s.predictions
  {
    var rec := NhcData(s.nextId, d.timestamp, d.dataType, d.geoJsonData, NullIfEmpty(d.stormId), now);
    (rec, s.(nhc := s.nhc + [rec], nextId := s.nextId + 1))
  }

  // ---------------------------------------------------------------------------
  // Forecasts
  // ---------------------------------------------------------------------------

  /** Whether a forecast is in scope of a query for `hurricaneId`: an empty id selects every forecast. */
  predicate InScope(hurricaneId: string, p: Prediction) {
    hurricaneId == "" || p.hurricaneId == hurricaneId
  }

  /** The owner key a scoped query compares: every forecast has the empty owner key. */
  function AnyOwner(p: Prediction): string { "" }

  function Scope(hurricaneId: string): Prediction -> string {
    if hurricaneId == "" then AnyOwner else PredictionOwner
  }

  /** `getHurricanePredictions(hurricaneId?)`: the forecasts of that hurricane in insertion
      order, or all of them when the id is absent or empty. */
  function GetHurricanePredictions(s: Store, hurricaneId: Option<string>): (r: seq<Prediction>)
    ensures forall p :: p in r <==> p in s.predictions && (TruthyString(hurricaneId) ==> p.hurricaneId == hurricaneId.value)
    ensures !TruthyString(hurricaneId) ==> r == s.predictions
  {
    if TruthyString(hurricaneId) then Records.Where(s.predictions, PredictionOwner, hurricaneId.value)
    else s.predictions
  }

  /** `getLatestPrediction(hurricaneId)`: nothing iff no forecast is in scope; otherwise an
      in-scope forecast no other in-scope one postdates, the first inserted among equals. */
  function GetLatestPrediction(s: Store, hurricaneId: string): (r: Option<Prediction>)
    ensures r.None? <==> forall i :: 0 <= i < |s.predictions| ==> !InScope(hurricaneId, s.predictions[i])
    ensures r.Some? ==> exists k :: Records.LatestAt(s.predictions, Scope(hurricaneId), hurricaneId, PredictionCreated, k)
                                  && s.predictions[k] == r.value
  {
    var sorted := Records.SortDesc(GetHurricanePredictions(s, Some(hurricaneId)), PredictionCreated);
    ScopedListing(s, hurricaneId);
    Records.LatestSpec(s.predictions, Scope(hurricaneId), hurricaneId, PredictionCreated);
    if sorted == [] then None else Some(sorted[0])
  }

  /** The scoped listing is the kind filter under the scope's owner key. */
  lemma ScopedListing(s: Store, hurricaneId: string)
    ensures GetHurricanePredictions(s, Some(hurricaneId)) ==
            Records.Where(s.predictions, Scope(hurricaneId), hurricaneId)
  {
    if hurricaneId == "" {
      Records.WhereAll(s.predictions, AnyOwner, "");
    }
  }

  /** The owner key of a scoped query matches exactly the forecasts in scope. */
  lemma ScopeMatches(hurricaneId: string, p: Prediction)
    ensures Scope(hurricaneId)(p) == hurricaneId <==> InScope(hurricaneId, p)
  {
  }

  /** `createHurricanePrediction`: appends exactly one forecast under a fresh id; a falsy
      landfall probability (0 included) and empty strings are stored as null. */
  function CreateHurricanePrediction(s: Store, p: NewPrediction, now: int): (r: (Prediction, Store))
    ensures r.1.predictions == s.predictions + [r.0]
    ensures r.0.id == s.nextId && r.1.nextId == s.nextId + 1 && r.0.createdAt == now
    ensures r.0.hurricaneId == p.hurricaneId && r.0.predictionData == p.predictionData
    ensures r.0.confidence == p.confidence
    ensures r.0.landfallProbability.Some? <==> TruthyNumber(p.landfallProbability)
    ensures r.0.landfallProbability.Some? ==> r.0.landfallProbability == p.landfallProbability
    ensures r.0.landfallLocation == NullIfEmpty(p.landfallLocation)
    ensures r.0.landfallTime == NullIfEmpty(p.landfallTime)
    ensures r.0.analysis == NullIfEmpty(p.analysis)
    ensures r.0.pathCoordinates == p.pathCoordinates && r.0.intensityForecast == p.intensityForecast
    ensures IdsBelow(s) ==> IdsBelow(r.1) && forall e :: e in s.predictions ==> e.id != r.0.id
    ensures r.1.hurricanes == s.hurricanes && r.1.weather == s.weather && r.1.ocean == s.ocean
    ensures r.1.nhc == s.nhc
  {
    var rec := Prediction(s.nextId, p.hurricaneId, p.predictionData, p.confidence,
                          if TruthyNumber(p.landfallProbability) then p.landfallProbability else None,
                          NullIfEmpty(p.landfallLocation), NullIfEmpty(p.landfallTime), NullIfEmpty(p.analysis),
                          p.pathCoordinates, p.intensityForecast, now);
    (rec, s.(predictions := s.predictions + [rec], nextId := s.nextId + 1))
  }
}
