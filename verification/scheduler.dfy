/** The ingestion scheduler (`DataScheduler`): the periodic sweep over every source, the
    refresh that turns NHC cone features into hurricanes, and the live KML import. Each
    operation is a function from the store (and the settled network replies) to the store. */
module DataScheduler {
  import opened Wrappers
  import opened Schema
  import Text
  import Storage
  import SaffirSimpson
  import KmlParser
  import NhcService
  import GfsService
  import CmemsService
  import Calendar
  import Records

  /** Thirty minutes between sweeps. */
  const UpdateInterval: int := 30 * 60 * 1000
  const SixHours: int := 6 * 60 * 60 * 1000

  /** `determineCategory`: the Saffir-Simpson band as an if-chain from the strongest band
      down; a missing wind speed compares false everywhere and gives the weakest band. */
  function DetermineCategory(w: Option<real>): (r: string)
    ensures w.Some? ==> r == SaffirSimpson.Category(w.value)
    ensures w.None? ==> r == SaffirSimpson.Names[0]
  {
    if w.None? then "Tropical Depression"
    else
      var v := w.value;
      SaffirSimpson.BandValue(v);
      if v >= 157.0 then "Category 5 Hurricane"
      else if v >= 130.0 then "Category 4 Hurricane"
      else if v >= 111.0 then "Category 3 Hurricane"
      else if v >= 96.0 then "Category 2 Hurricane"
      else if v >= 74.0 then "Category 1 Hurricane"
      else if v >= 39.0 then "Tropical Storm"
      else "Tropical Depression"
  }

  /** A stronger wind never gets a weaker category, and the cone refresh and the KML import
      agree on every wind speed. */
  lemma DetermineCategoryMonotone(v: real, w: real)
    requires v <= w
    ensures SaffirSimpson.Rank(DetermineCategory(Some(v))) <= SaffirSimpson.Rank(DetermineCategory(Some(w)))
    ensures DetermineCategory(Some(v)) == KmlParser.CategorizeByWind(v)
  {
    SaffirSimpson.CategoryMonotone(v, w);
  }

  // ---------------------------------------------------------------------------
  // Upserting a batch of hurricanes
  // ---------------------------------------------------------------------------

  /** The hurricane `createHurricane` stores for an insert, whatever the store holds. */
  function Record(h: NewHurricane): Hurricane {
    Hurricane(Text.Slug(h.name), h.name, h.category, h.windSpeed, h.pressure, h.latitude, h.longitude,
              h.movement, h.lastUpdate, h.nextUpdate, h.forecastTrack, Storage.ActiveFlag(h.isActive))
  }

  /** The key an insert is stored under. */
  function KeyOf(h: NewHurricane): string {
    Text.Slug(h.name)
  }

  /** The position of the last element of `xs` whose key is `k`. */
  function LastWith<T>(xs: seq<T>, key: T -> string, k: string): (r: Option<nat>)
    ensures r.Some? ==> r.value < |xs| && key(xs[r.value]) == k
                        && forall j :: r.value < j < |xs| ==> key(xs[j]) != k
    ensures r.None? ==> forall j :: 0 <= j < |xs| ==> key(xs[j]) != k
  {
    if xs == [] then None
    else if key(xs[|xs| - 1]) == k then Some(|xs| - 1)
    else
      var init := xs[..|xs| - 1];
      assert forall j :: 0 <= j < |init| ==> init[j] == xs[j];
      LastWith(init, key, k)
  }

  /** The position of the last insert of a batch whose name slugs to `k`. */
  function LastNamed(hs: seq<NewHurricane>, k: string): (r: Option<nat>)
    ensures r.Some? ==> r.value < |hs| && Text.Slug(hs[r.value].name) == k
                        && forall j :: r.value < j < |hs| ==> Text.Slug(hs[j].name) != k
    ensures r.None? ==> forall j :: 0 <= j < |hs| ==> Text.Slug(hs[j].name) != k
  {
    var r := LastWith(hs, KeyOf, k);
    assert forall j :: 0 <= j < |hs| ==> KeyOf(hs[j]) == Text.Slug(hs[j].name);
    r
  }

  /** `for (const h of hs) await storage.createHurricane(h)`. */
  function UpsertAll(s: Storage.Store, hs: seq<NewHurricane>): (r: Storage.Store)
    ensures Storage.Valid(s) ==> Storage.Valid(r)
    ensures r.weather == s.weather && r.ocean == s.ocean && r.nhc == s.nhc
    ensures r.predictions == s.predictions && r.nextId == s.nextId
  {
    if hs == [] then s
    else Storage.CreateHurricane(UpsertAll(s, hs[..|hs| - 1]), hs[|hs| - 1]).1
  }

  /** After a batch, a key holds the record of the last insert named for it, and a key no
      insert names keeps what it held: later inserts overwrite earlier ones, nothing merges. */
  lemma {:induction false} UpsertLastWins(s: Storage.Store, hs: seq<NewHurricane>, k: string)
    ensures Storage.GetHurricane(UpsertAll(s, hs), k) ==
              match LastNamed(hs, k)
              case None => Storage.GetHurricane(s, k)
              case Some(j) => Some(Record(hs[j]))
  {
    if hs != [] {
      UpsertLastWins(s, hs[..|hs| - 1], k);
      var prev := UpsertAll(s, hs[..|hs| - 1]);
      var last := hs[|hs| - 1];
      assert Storage.CreateHurricane(prev, last).0 == Record(last);
      if Text.Slug(last.name) != k {
        assert forall j :: 0 <= j < |hs| - 1 ==> hs[..|hs| - 1][j] == hs[j];
      }
    }
  }

  /** A batch never removes a hurricane. */
  lemma {:induction false} UpsertKeeps(s: Storage.Store, hs: seq<NewHurricane>, k: string)
    requires Storage.GetHurricane(s, k).Some?
    ensures Storage.GetHurricane(UpsertAll(s, hs), k).Some?
  {
    UpsertLastWins(s, hs, k);
  }

  // ---------------------------------------------------------------------------
  // Cone features
  // ---------------------------------------------------------------------------

  /** A template-literal rendering of an optional property: a missing one prints `undefined`. */
  function Show(o: Option<string>): string {
    if o.Some? then o.value else "undefined"
  }

  /** `${TCDIRECTION} at ${TCSPEED} mph`: the direction's text first, the speed's text
      before the closing " mph". */
  function Movement(p: StormProps): (r: string)
    ensures |r| >= |Show(p.tcDirection)| + 4 + |Show(p.tcSpeed)| + 4
    ensures r[..|Show(p.tcDirection)|] == Show(p.tcDirection)
    ensures r[|r| - 4 - |Show(p.tcSpeed)|..|r| - 4] == Show(p.tcSpeed)
    ensures r[|r| - 4..] == " mph"
  {
    var d, v := Show(p.tcDirection), Show(p.tcSpeed);
    var r := d + " at " + v + " mph";
    assert r == d + (" at " + v + " mph");
    assert r == (d + " at ") + v + " mph";
    r
  }

  /** The movement text is a template literal, so it is never empty and the `|| "Unknown"`
      fallback behind it is never taken. */
  lemma MovementNeverUnknown(p: StormProps)
    ensures Movement(p) != "" && Movement(p) != "Unknown"
    ensures Movement(p)[|Movement(p)| - 4..] == " mph"
  {
    var m := Movement(p);
    assert m[|m| - 4..] == " mph";
    assert m[|m| - 1] == 'h';
  }

  /** `feature.geometry?.coordinates?.[i] || 0`. */
  function Coordinate(c: Option<seq<real>>, i: nat): (r: real)
    ensures c.Some? && i < |c.value| ==> r == c.value[i]
    ensures c.None? || i >= |c.value| ==> r == 0.0
  {
    if c.Some? && i < |c.value| then c.value[i] else 0.0
  }

  /** A feature the refresh turns into a hurricane: it has properties with a non-empty name. */
  predicate Named(f: Feature) {
    f.properties.Some? && TruthyString(f.properties.value.stormName)
  }

  /** The insert for a named cone feature. */
  function ConeHurricane(f: Feature, now: int): (h: NewHurricane)
    requires Named(f)
    ensures var p := f.properties.value;
            && h.name == p.stormName.value
            && h.category == DetermineCategory(p.maxWind)
            && h.windSpeed == NumberOr(p.maxWind, 0.0) && h.pressure == NumberOr(p.mslp, 0.0)
            && h.latitude == Coordinate(f.coordinates, 1) && h.longitude == Coordinate(f.coordinates, 0)
            && h.movement == Movement(p)
            && h.lastUpdate == (if p.synoptic.Some? && p.synoptic.value != 0 then p.synoptic.value else now)
            && h.nextUpdate == Some(now + SixHours)
            && h.forecastTrack == Some(f) && h.isActive == Flag(true)
  {
    var p := f.properties.value;
    NewHurricane(p.stormName.value, DetermineCategory(p.maxWind), NumberOr(p.maxWind, 0.0),
                 NumberOr(p.mslp, 0.0), Coordinate(f.coordinates, 1), Coordinate(f.coordinates, 0),
                 Movement(p), if p.synoptic.Some? && p.synoptic.value != 0 then p.synoptic.value else now,
                 Some(now + SixHours), Some(f), Flag(true))
  }

  /** The inserts of a feature list: one per named feature, in order. */
  function ConeRecords(fs: seq<Feature>, now: int): (r: seq<NewHurricane>)
    ensures |r| <= |fs|
    ensures forall h :: h in r <==> exists j :: 0 <= j < |fs| && Named(fs[j]) && h == ConeHurricane(fs[j], now)
  {
    if fs == [] then []
    else
      var rest := ConeRecords(fs[1..], now);
      assert forall j :: 0 <= j < |fs| - 1 ==> fs[1..][j] == fs[j + 1];
      (if Named(fs[0]) then [ConeHurricane(fs[0], now)] else []) + rest
  }

  /** `processNHCData`: every named cone feature is upserted as an active hurricane; a body
      without `features` changes nothing; the track data is not read. */
  function ProcessNhcData(s: Storage.Store, cones: GeoPayload, now: int): (r: Storage.Store)
    ensures cones.features.None? ==> r == s
    ensures Storage.Valid(s) ==> Storage.Valid(r)
    ensures r.weather == s.weather && r.ocean == s.ocean && r.nhc == s.nhc
    ensures r.predictions == s.predictions && r.nextId == s.nextId
  {
    if cones.features.None? then s else UpsertAll(s, ConeRecords(cones.features.value, now))
  }

  /** After the refresh, every named feature's hurricane is stored, active, and every key no
      feature names is untouched. */
  lemma ProcessNhcDataStores(s: Storage.Store, fs: seq<Feature>, now: int, k: string)
    ensures forall j :: 0 <= j < |fs| && Named(fs[j]) && Text.Slug(fs[j].properties.value.stormName.value) == k ==>
              var h := Storage.GetHurricane(ProcessNhcData(s, GeoPayload(Some(fs)), now), k);
              h.Some? && h.value.isActive == Some(true) && h.value.nextUpdate == Some(now + SixHours)
    ensures (forall j :: 0 <= j < |fs| && Named(fs[j]) ==> Text.Slug(fs[j].properties.value.stormName.value) != k) ==>
              Storage.GetHurricane(ProcessNhcData(s, GeoPayload(Some(fs)), now), k) == Storage.GetHurricane(s, k)
  {
    var hs := ConeRecords(fs, now);
    UpsertLastWins(s, hs, k);
    match LastNamed(hs, k)
    case None =>
      forall j | 0 <= j < |fs| && Named(fs[j])
        ensures Text.Slug(fs[j].properties.value.stormName.value) != k
      {
        assert ConeHurricane(fs[j], now) in hs;
      }
    case Some(i) =>
      assert hs[i] in hs;
  }

  // ---------------------------------------------------------------------------
  // The refresh and the periodic sweep
  // ---------------------------------------------------------------------------

  predicate SomeConeEndpointAnswers(net: NhcService.Network) {
    exists j :: 0 <= j < |NhcService.ConeEndpoints| && net(NhcService.ConeEndpoints[j]).Ok?
  }

  /** `fetchLatestHurricaneData`: cones, then tracks, then the cone refresh. It succeeds iff
      some cone endpoint and the track endpoint answer; on failure no hurricane changes,
      though a cone snapshot fetched before the track failure stays stored. */
  function FetchLatestHurricaneData(s: Storage.Store, net: NhcService.Network, now: int)
    : (r: (Result<()>, Storage.Store))
    ensures r.0.Success? <==> SomeConeEndpointAnswers(net) && net(NhcService.TracksUrl).Ok?
    ensures Storage.Valid(s) ==> Storage.Valid(r.1)
    ensures r.0.Failure? ==> r.1.hurricanes == s.hurricanes && |s.nhc| <= |r.1.nhc| <= |s.nhc| + 1
    ensures r.0.Success? ==>
              && |r.1.nhc| == |s.nhc| + 2 && r.1.nhc[..|s.nhc|] == s.nhc
              && r.1.nhc[|s.nhc|].dataType == "cones" && r.1.nhc[|s.nhc| + 1].dataType == "tracks"
              && r.1.hurricanes == ProcessNhcData(s, r.1.nhc[|s.nhc|].geoJsonData, now).hurricanes
    ensures r.1.weather == s.weather && r.1.ocean == s.ocean && r.1.predictions == s.predictions
  {
    var (cones, s1) := NhcService.FetchStormCones(s, net, now);
    if cones.Failure? then (Failure(cones.error), s1)
    else
      var (tracks, s2) := NhcService.FetchStormTracks(s1, net, now);
      if tracks.Failure? then (Failure(tracks.error), s2)
      else
        var s3 := ProcessNhcData(s2, cones.value, now);
        assert s2.nhc[..|s.nhc|] == s1.nhc[..|s.nhc|];
        assert s2.nhc[|s.nhc|] == s1.nhc[|s.nhc|];
        ProcessSameHurricanes(s, s2, cones.value, now);
        (Success(()), s3)
  }

  /** The refresh reads only the hurricane table of the store it runs on. */
  lemma ProcessSameHurricanes(s: Storage.Store, t: Storage.Store, cones: GeoPayload, now: int)
    requires s.hurricanes == t.hurricanes
    ensures ProcessNhcData(s, cones, now).hurricanes == ProcessNhcData(t, cones, now).hurricanes
  {
    if cones.features.Some? {
      UpsertSameHurricanes(s, t, ConeRecords(cones.features.value, now));
    }
  }

  lemma {:induction false} UpsertSameHurricanes(s: Storage.Store, t: Storage.Store, hs: seq<NewHurricane>)
    requires s.hurricanes == t.hurricanes
    ensures UpsertAll(s, hs).hurricanes == UpsertAll(t, hs).hurricanes
  {
    if hs != [] {
      UpsertSameHurricanes(s, t, hs[..|hs| - 1]);
    }
  }

  /** The insert for a storm read from the live KML feed: a point feature at the storm's
      centre carrying its name, ATCF id and category, marked as authentic live data. */
  function KmlHurricane(k: KmlParser.KmlStorm): (h: NewHurricane)
    ensures h.name == k.name && h.category == k.category
    ensures h.windSpeed == k.windSpeed as real && h.pressure == k.pressure as real
    ensures h.latitude == k.latitude && h.longitude == k.longitude && h.movement == k.movement
    ensures h.lastUpdate == k.lastUpdate && h.nextUpdate == Some(k.nextUpdate)
    ensures h.isActive == Flag(k.isActive)
    ensures h.forecastTrack.Some? && h.forecastTrack.value.coordinates == Some([k.longitude, k.latitude])
    ensures h.forecastTrack.value.properties.Some?
    ensures var p := h.forecastTrack.value.properties.value;
            p.stormName == Some(k.name) && p.atcfId == k.atcfId && p.intensity == Some(k.category)
            && p.authenticData == Some(true) && p.source == Some("NHC_KML_LIVE")
  {
    var props := StormProps(Some(k.name), None, None, None, None, None, k.atcfId, Some(k.category),
                            Some(true), Some("NHC_KML_LIVE"));
    NewHurricane(k.name, k.category, k.windSpeed as real, k.pressure as real, k.latitude, k.longitude,
                 k.movement, k.lastUpdate, Some(k.nextUpdate), Some(Feature(Some(props), Some([k.longitude, k.latitude]))),
                 Flag(k.isActive))
  }

  function KmlRecords(storms: seq<KmlParser.KmlStorm>): (r: seq<NewHurricane>)
    ensures |r| == |storms| && forall i :: 0 <= i < |storms| ==> r[i] == KmlHurricane(storms[i])
  {
    seq(|storms|, i requires 0 <= i < |storms| => KmlHurricane(storms[i]))
  }

  /** `createCurrentHurricaneErin`: the live feed, split into its `<Folder>` bodies, is parsed
      and every storm is upserted; a failed fetch is logged and changes nothing. Only the
      hurricane table can change. */
  function CreateCurrentHurricaneErin(s: Storage.Store, feed: Outcome<seq<string>>, env: KmlParser.Env)
    : (r: Storage.Store)
    ensures feed.Fail? ==> r == s
    ensures Storage.Valid(s) ==> Storage.Valid(r)
    ensures r.weather == s.weather && r.ocean == s.ocean && r.nhc == s.nhc
    ensures r.predictions == s.predictions && r.nextId == s.nextId
  {
    match feed
    case Fail => s
    case Ok(folders) => UpsertAll(s, KmlRecords(KmlParser.ParseNhcActiveData(folders, env)))
  }

  /** Every storm the live import stores is active and categorised by its wind. */
  lemma ErinStoresActive(s: Storage.Store, folders: seq<string>, env: KmlParser.Env, k: string)
    ensures var h := Storage.GetHurricane(CreateCurrentHurricaneErin(s, Ok(folders), env), k);
            h != Storage.GetHurricane(s, k) ==>
              h.Some? && h.value.isActive == Some(true)
              && h.value.category == SaffirSimpson.Category(h.value.windSpeed)
  {
    var storms := KmlParser.ParseNhcActiveData(folders, env);
    var hs := KmlRecords(storms);
    UpsertLastWins(s, hs, k);
    if LastNamed(hs, k).Some? {
      var j := LastNamed(hs, k).value;
      assert storms[j] in storms;
    }
  }

  /** `r` is `s` with at most `n` NHC records appended and nothing else changed. */
  predicate NhcGrown(s: Storage.Store, r: Storage.Store, n: nat) {
    && (Storage.Valid(s) ==> Storage.Valid(r))
    && |s.nhc| <= |r.nhc| <= |s.nhc| + n && r.nhc[..|s.nhc|] == s.nhc
    && r.hurricanes == s.hurricanes && r.weather == s.weather && r.ocean == s.ocean
    && r.predictions == s.predictions
  }

  predicate NhcSettled(s: Storage.Store, r: Storage.Store) {
    NhcGrown(s, r, 1)
  }

  lemma NhcGrownTrans(a: Storage.Store, b: Storage.Store, c: Storage.Store, n: nat, m: nat)
    requires NhcGrown(a, b, n) && NhcGrown(b, c, m)
    ensures NhcGrown(a, c, n + m)
  {
    assert c.nhc[..|a.nhc|] == c.nhc[..|b.nhc|][..|a.nhc|];
  }

  /** One settled NHC fetch inside a sweep: at most one snapshot appended, nothing else touched. */
  function ConesStep(s: Storage.Store, net: NhcService.Network, now: int): (r: Storage.Store)
    ensures NhcSettled(s, r)
  {
    NhcService.FetchStormCones(s, net, now).1
  }

  function TracksStep(s: Storage.Store, net: NhcService.Network, now: int): (r: Storage.Store)
    ensures NhcSettled(s, r)
  {
    NhcService.FetchStormTracks(s, net, now).1
  }

  function WarningsStep(s: Storage.Store, net: NhcService.Network, now: int): (r: Storage.Store)
    ensures NhcSettled(s, r)
  {
    NhcService.FetchWarnings(s, net, now).1
  }

  /** The NHC part of a sweep: cones, tracks and warnings, each failure swallowed. */
  function NhcSweep(s: Storage.Store, net: NhcService.Network, now: int): (r: Storage.Store)
    ensures NhcGrown(s, r, 3)
  {
    var s1 := ConesStep(s, net, now);
    var s2 := TracksStep(s1, net, now);
    var s3 := WarningsStep(s2, net, now);
    NhcGrownTrans(s, s1, s2, 1, 1);
    NhcGrownTrans(s, s2, s3, 2, 1);
    s3
  }

  /** The GFS layers a sweep fetches, in order. */
  const GfsLayers: seq<string> := ["temperature", "pressure", "wind"]

  /** The CMEMS layers a sweep fetches, in order. */
  const CmemsLayers: seq<string> := ["currents", "waves"]

  /** `r` is `s` with one weather record per listed layer appended, in order, and nothing
      else changed. */
  predicate WeatherGrown(s: Storage.Store, r: Storage.Store, layers: seq<string>) {
    && (Storage.Valid(s) ==> Storage.Valid(r))
    && Records.Appended(s.weather, r.weather, WeatherKind, layers)
    && r.hurricanes == s.hurricanes && r.ocean == s.ocean && r.nhc == s.nhc
    && r.predictions == s.predictions
  }

  lemma WeatherGrownTrans(a: Storage.Store, b: Storage.Store, c: Storage.Store, k1: seq<string>, k2: seq<string>)
    requires WeatherGrown(a, b, k1) && WeatherGrown(b, c, k2)
    ensures WeatherGrown(a, c, k1 + k2)
  {
    Records.AppendedTrans(a.weather, b.weather, c.weather, WeatherKind, k1, k2);
  }

  lemma WeatherGrownCons(a: Storage.Store, b: Storage.Store, c: Storage.Store, layers: seq<string>)
    requires layers != [] && WeatherGrown(a, b, [layers[0]]) && WeatherGrown(b, c, layers[1..])
    ensures WeatherGrown(a, c, layers)
  {
    WeatherGrownTrans(a, b, c, [layers[0]], layers[1..]);
    assert [layers[0]] + layers[1..] == layers;
  }

  /** `r` is `s` with one ocean record per listed product appended, in order, and nothing
      else changed. */
  predicate OceanGrown(s: Storage.Store, r: Storage.Store, kinds: seq<string>) {
    && (Storage.Valid(s) ==> Storage.Valid(r))
    && Records.Appended(s.ocean, r.ocean, OceanKind, kinds)
    && r.hurricanes == s.hurricanes && r.weather == s.weather && r.nhc == s.nhc
    && r.predictions == s.predictions
  }

  /** One GFS layer inside a sweep: exactly one weather record of that layer appended. */
  function GfsStep(s: Storage.Store, dataType: string, now: Calendar.TimeValue, tilerSetting: Option<string>)
    : (r: Storage.Store)
    ensures WeatherGrown(s, r, [dataType])
  {
    var (d, r) := GfsService.FetchGfsData(s, dataType, None, now, tilerSetting);
    Records.AppendedOne(s.weather, d, WeatherKind);
    r
  }

  /** The GFS layers fetched in turn, each at the clock's instant. */
  function GfsFold(s: Storage.Store, layers: seq<string>, now: Calendar.TimeValue, tilerSetting: Option<string>)
    : (r: Storage.Store)
    ensures WeatherGrown(s, r, layers)
    decreases |layers|
  {
    if layers == [] then
      Records.AppendedNone(s.weather, WeatherKind);
      s
    else
      var s1 := GfsStep(s, layers[0], now, tilerSetting);
      var r := GfsFold(s1, layers[1..], now, tilerSetting);
      WeatherGrownCons(s, s1, r, layers);
      r
  }

  /** The GFS part of a sweep: temperature, pressure and wind. */
  function GfsSweep(s: Storage.Store, now: Calendar.TimeValue, tilerSetting: Option<string>): (r: Storage.Store)
    ensures WeatherGrown(s, r, GfsLayers)
  {
    GfsFold(s, GfsLayers, now, tilerSetting)
  }

  /** One CMEMS layer inside a sweep: exactly one ocean record of that layer appended. */
  function CmemsStep(s: Storage.Store, product: CmemsService.Product, now: int): (r: Storage.Store)
    ensures OceanGrown(s, r, [product.DataType()])
  {
    var (d, r) := CmemsService.FetchProduct(s, product, None, None, now);
    Records.AppendedOne(s.ocean, d, OceanKind);
    r
  }

  /** The CMEMS part of a sweep: currents, then waves. */
  function CmemsSweep(s: Storage.Store, now: int): (r: Storage.Store)
    ensures OceanGrown(s, r, CmemsLayers)
  {
    var s1 := CmemsStep(s, CmemsService.Currents, now);
    var s2 := CmemsStep(s1, CmemsService.Waves, now);
    Records.AppendedTrans(s.ocean, s1.ocean, s2.ocean, OceanKind, ["currents"], ["waves"]);
    s2
  }

  /** The raster part of a sweep: the three GFS layers, then the two CMEMS layers. */
  function RasterSweep(s: Storage.Store, now: Calendar.TimeValue, tilerSetting: Option<string>): (r: Storage.Store)
    ensures RasterGrown(s, r)
  {
    CmemsSweep(GfsSweep(s, now, tilerSetting), now)
  }

  /** `r` is `s` with one weather record per GFS layer and one ocean record per CMEMS
      layer appended, in sweep order, and nothing else changed. */
  predicate RasterGrown(s: Storage.Store, r: Storage.Store) {
    && (Storage.Valid(s) ==> Storage.Valid(r))
    && Records.Appended(s.weather, r.weather, WeatherKind, GfsLayers)
    && Records.Appended(s.ocean, r.ocean, OceanKind, CmemsLayers)
    && r.hurricanes == s.hurricanes && r.nhc == s.nhc && r.predictions == s.predictions
  }

  /** What a whole sweep does to the store: validity kept, at most three NHC records and
      exactly one record per raster layer appended, forecasts untouched. */
  predicate Swept(s: Storage.Store, r: Storage.Store) {
    && (Storage.Valid(s) ==> Storage.Valid(r))
    && |s.nhc| <= |r.nhc| <= |s.nhc| + 3 && r.nhc[..|s.nhc|] == s.nhc
    && Records.Appended(s.weather, r.weather, WeatherKind, GfsLayers)
    && Records.Appended(s.ocean, r.ocean, OceanKind, CmemsLayers)
    && r.predictions == s.predictions
  }

  lemma SweptParts(s: Storage.Store, s3: Storage.Store, s4: Storage.Store, r: Storage.Store)
    requires NhcGrown(s, s3, 3)
    requires Storage.Valid(s3) ==> Storage.Valid(s4)
    requires s4.weather == s3.weather && s4.ocean == s3.ocean && s4.nhc == s3.nhc
    requires s4.predictions == s3.predictions
    requires RasterGrown(s4, r)
    ensures Swept(s, r)
  {
  }

  /** `fetchAllData`: the three NHC layers (each failure swallowed), the live KML import,
      the three GFS layers and the two CMEMS layers, in that order. It never fails and never
      removes a hurricane (`FetchAllDataKeeps`); it adds exactly one record per GFS and CMEMS
      layer, and at most one per NHC layer. */
  function FetchAllData(s: Storage.Store, net: NhcService.Network, feed: Outcome<seq<string>>,
                        env: KmlParser.Env, now: Calendar.TimeValue, tilerSetting: Option<string>)
    : (r: Storage.Store)
    ensures Swept(s, r)
  {
    var s3 := NhcSweep(s, net, now);
    var s4 := CreateCurrentHurricaneErin(s3, feed, env);
    var r := RasterSweep(s4, now, tilerSetting);
    SweptParts(s, s3, s4, r);
    r
  }

  /** A sweep never removes a hurricane. */
  lemma FetchAllDataKeeps(s: Storage.Store, net: NhcService.Network, feed: Outcome<seq<string>>,
                          env: KmlParser.Env, now: Calendar.TimeValue, tilerSetting: Option<string>, k: string)
    requires Storage.GetHurricane(s, k).Some?
    ensures Storage.GetHurricane(FetchAllData(s, net, feed, env, now, tilerSetting), k).Some?
  {
    var s3 := NhcSweep(s, net, now);
    assert s3.hurricanes == s.hurricanes;
    var s4 := CreateCurrentHurricaneErin(s3, feed, env);
    ErinKeeps(s3, feed, env, k);
    var r := RasterSweep(s4, now, tilerSetting);
    assert r.hurricanes == s4.hurricanes;
  }

  /** The live import never removes a hurricane. */
  lemma ErinKeeps(s: Storage.Store, feed: Outcome<seq<string>>, env: KmlParser.Env, k: string)
    requires Storage.GetHurricane(s, k).Some?
    ensures Storage.GetHurricane(CreateCurrentHurricaneErin(s, feed, env), k).Some?
  {
    if feed.Ok? {
      UpsertKeeps(s, KmlRecords(KmlParser.ParseNhcActiveData(feed.payload, env)), k);
    }
  }
}
