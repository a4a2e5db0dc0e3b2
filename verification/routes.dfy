/** The HTTP API (`registerRoutes`): each handler is a function from the store (and, for
    the handlers that may fetch, the settled network replies and the clock) to a reply and
    the store afterwards. A reply is a JSON body or an error status with its message. */
module Routes {
  import opened Wrappers
  import opened Schema
  import Storage
  import NhcService
  import GfsService
  import CmemsService
  import DataScheduler
  import Calendar
  import Records

  datatype Reply<+T> = Json(body: T) | Error(status: nat, message: string)

  /** `GET /api/hurricanes`: the active hurricanes. */
  function ListHurricanes(s: Storage.Store): (r: Reply<seq<Hurricane>>)
    ensures r.Json? && forall h :: h in r.body ==> Storage.IsActive(h) && h in s.hurricanes.byId.Values
    ensures Storage.TableValid(s.hurricanes) ==>
              forall h :: h in s.hurricanes.byId.Values && Storage.IsActive(h) ==> h in r.body
  {
    Json(Storage.GetActiveHurricanes(s))
  }

  /** `GET /api/hurricanes/:id`: the hurricane stored under the key, or 404. */
  function GetHurricane(s: Storage.Store, id: string): (r: Reply<Hurricane>)
    ensures r.Json? <==> id in s.hurricanes.byId
    ensures r.Json? ==> r.body == s.hurricanes.byId[id]
    ensures r.Error? ==> r == Error(404, "Hurricane not found")
  {
    match Storage.GetHurricane(s, id)
    case None => Error(404, "Hurricane not found")
    case Some(h) => Json(h)
  }

  // ---------------------------------------------------------------------------
  // NHC layers: serve the latest snapshot, or fetch once when there is none
  // ---------------------------------------------------------------------------

  datatype NhcLayer = Cones | Tracks | Warnings {
    function Kind(): string {
      match this
      case Cones => "cones"
      case Tracks => "tracks"
      case Warnings => "warnings"
    }

    function FailureMessage(): string {
      match this
      case Cones => "Failed to fetch cone data"
      case Tracks => "Failed to fetch track data"
      case Warnings => "Failed to fetch warning data"
    }
  }

  function FetchLayer(s: Storage.Store, layer: NhcLayer, net: NhcService.Network, now: int)
    : (r: (Result<GeoPayload>, Storage.Store))
    ensures r.0.Failure? ==> r.1 == s
    ensures r.0.Success? ==> NhcService.StoredOnce(s, r.1, layer.Kind(), r.0.value, now)
  {
    match layer
    case Cones => NhcService.FetchStormCones(s, net, now)
    case Tracks => NhcService.FetchStormTracks(s, net, now)
    case Warnings => NhcService.FetchWarnings(s, net, now)
  }

  /** `GET /api/nhc/{cones,tracks,warnings}`: the body of the latest snapshot of the layer;
      when there is none, one fetch is made and its body is served, and a failed fetch is a
      500 that leaves the store as it was. */
  function GetNhcLayer(s: Storage.Store, layer: NhcLayer, net: NhcService.Network, now: int)
    : (r: (Reply<GeoPayload>, Storage.Store))
    ensures var latest := Storage.GetLatestNhcData(s, layer.Kind());
            latest.Some? ==> r == (Json(latest.value.geoJsonData), s)
    ensures var latest := Storage.GetLatestNhcData(s, layer.Kind());
            var fetched := FetchLayer(s, layer, net, now);
            latest.None? ==>
              && (fetched.0.Success? ==> r == (Json(fetched.0.value), fetched.1))
              && (fetched.0.Failure? ==> r == (Error(500, layer.FailureMessage()), s))
  {
    match Storage.GetLatestNhcData(s, layer.Kind())
    case Some(d) => (Json(d.geoJsonData), s)
    case None =>
      var fetched := FetchLayer(s, layer, net, now);
      if fetched.0.Failure? then (Error(500, layer.FailureMessage()), fetched.1)
      else
        FreshIsFetched(s, fetched.1, layer.Kind(), fetched.0.value, now);
        var stored := Storage.GetLatestNhcData(fetched.1, layer.Kind());
        (Json(if stored.Some? then stored.value.geoJsonData else EmptyObject), fetched.1)
  }

  /** When no snapshot of a kind existed, the latest one after a fetch is the fetched one. */
  lemma FreshIsFetched(s: Storage.Store, s': Storage.Store, kind: string, body: GeoPayload, now: int)
    requires Storage.GetLatestNhcData(s, kind).None?
    requires NhcService.StoredOnce(s, s', kind, body, now)
    ensures Storage.GetLatestNhcData(s', kind) == Some(s'.nhc[|s.nhc|])
  {
    var r := Storage.GetLatestNhcData(s', kind);
    var k :| 0 <= k < |s'.nhc| && Records.LatestAt(s'.nhc, NhcKind, kind, NhcStamp, k) && s'.nhc[k] == r.value;
  }

  // ---------------------------------------------------------------------------
  // Raster layers: serve the latest record, or fetch once for a known layer
  // ---------------------------------------------------------------------------

  /** `GET /api/weather/:dataType`: the latest record of the layer; when there is none and
      the layer is one of the three GFS layers, it is fetched and the new record served;
      an unknown layer with no record gets `{}` (here `None`) and fetches nothing. */
  function GetWeather(s: Storage.Store, dataType: string, now: Calendar.TimeValue, tilerSetting: Option<string>)
    : (r: (Reply<Option<WeatherData>>, Storage.Store))
    ensures r.0.Json?
    ensures var latest := Storage.GetLatestWeatherData(s, dataType);
            latest.Some? ==> r == (Json(latest), s)
    ensures var latest := Storage.GetLatestWeatherData(s, dataType);
            latest.None? && dataType in {"temperature", "pressure", "wind"} ==>
              var fetched := GfsService.FetchGfsData(s, dataType, None, now, tilerSetting);
              r == (Json(Some(fetched.0)), fetched.1)
    ensures var latest := Storage.GetLatestWeatherData(s, dataType);
            latest.None? && dataType !in {"temperature", "pressure", "wind"} ==> r == (Json(None), s)
  {
    match Storage.GetLatestWeatherData(s, dataType)
    case Some(d) => (Json(Some(d)), s)
    case None =>
      if dataType in {"temperature", "pressure", "wind"} then
        var fetched := GfsService.FetchGfsData(s, dataType, None, now, tilerSetting);
        FreshWeather(s, fetched.1, dataType, fetched.0);
        (Json(Storage.GetLatestWeatherData(fetched.1, dataType)), fetched.1)
      else (Json(None), s)
  }

  lemma FreshWeather(s: Storage.Store, s': Storage.Store, dataType: string, d: WeatherData)
    requires Storage.GetLatestWeatherData(s, dataType).None?
    requires s'.weather == s.weather + [d] && d.dataType == dataType
    ensures Storage.GetLatestWeatherData(s', dataType) == Some(d)
  {
    var r := Storage.GetLatestWeatherData(s', dataType);
    var k :| 0 <= k < |s'.weather| && Records.LatestAt(s'.weather, WeatherKind, dataType, WeatherStamp, k)
             && s'.weather[k] == r.value;
  }

  /** `GET /api/ocean/:dataType`: as for weather, with the two CMEMS layers. */
  function GetOcean(s: Storage.Store, dataType: string, now: int): (r: (Reply<Option<OceanData>>, Storage.Store))
    ensures r.0.Json?
    ensures var latest := Storage.GetLatestOceanData(s, dataType);
            latest.Some? ==> r == (Json(latest), s)
    ensures var latest := Storage.GetLatestOceanData(s, dataType);
            latest.None? && (dataType == "currents" || dataType == "waves") ==>
              var fetched := CmemsService.FetchProduct(s, if dataType == "currents" then CmemsService.Currents
                                                          else CmemsService.Waves, None, None, now);
              r == (Json(Some(fetched.0)), fetched.1)
    ensures var latest := Storage.GetLatestOceanData(s, dataType);
            latest.None? && dataType != "currents" && dataType != "waves" ==> r == (Json(None), s)
  {
    match Storage.GetLatestOceanData(s, dataType)
    case Some(d) => (Json(Some(d)), s)
    case None =>
      if dataType == "currents" || dataType == "waves" then
        var product := if dataType == "currents" then CmemsService.Currents else CmemsService.Waves;
        var fetched := CmemsService.FetchProduct(s, product, None, None, now);
        FreshOcean(s, fetched.1, dataType, fetched.0);
        (Json(Storage.GetLatestOceanData(fetched.1, dataType)), fetched.1)
      else (Json(None), s)
  }

  lemma FreshOcean(s: Storage.Store, s': Storage.Store, dataType: string, d: OceanData)
    requires Storage.GetLatestOceanData(s, dataType).None?
    requires s'.ocean == s.ocean + [d] && d.dataType == dataType
    ensures Storage.GetLatestOceanData(s', dataType) == Some(d)
  {
    var r := Storage.GetLatestOceanData(s', dataType);
    var k :| 0 <= k < |s'.ocean| && Records.LatestAt(s'.ocean, OceanKind, dataType, OceanStamp, k)
             && s'.ocean[k] == r.value;
  }

  // ---------------------------------------------------------------------------
  // Refresh and status
  // ---------------------------------------------------------------------------

  const RefreshMessage: string := "Data refresh initiated"

  /** `POST /api/refresh`: succeeds iff the hurricane refresh does. */
  function Refresh(s: Storage.Store, net: NhcService.Network, now: int): (r: (Reply<string>, Storage.Store))
    ensures r.1 == DataScheduler.FetchLatestHurricaneData(s, net, now).1
    ensures r.0.Json? <==> DataScheduler.SomeConeEndpointAnswers(net) && net(NhcService.TracksUrl).Ok?
    ensures r.0.Json? ==> r.0.body == RefreshMessage
    ensures r.0.Error? ==> r.0 == Error(500, "Failed to refresh data")
  {
    var refreshed := DataScheduler.FetchLatestHurricaneData(s, net, now);
    if refreshed.0.Success? then (Json(RefreshMessage), refreshed.1)
    else (Error(500, "Failed to refresh data"), refreshed.1)
  }

  datatype SourceStatus = SourceStatus(status: string, message: string, lastUpdate: Option<int>)

  datatype StatusBody = StatusBody(
    activeStorms: nat,
    lastNhcUpdate: Option<int>,
    lastWeatherUpdate: Option<int>,
    lastOceanUpdate: Option<int>,
    status: string,
    nhc: SourceStatus,
    gfs: SourceStatus,
    cmems: SourceStatus,
    message: string)

  const Restricted: string := "External API access restricted in demo environment"

  function NhcStampOf(d: Option<NhcData>): Option<int> {
    if d.Some? then Some(d.value.timestamp) else None
  }

  function WeatherStampOf(d: Option<WeatherData>): Option<int> {
    if d.Some? then Some(d.value.timestamp) else None
  }

  function OceanStampOf(d: Option<OceanData>): Option<int> {
    if d.Some? then Some(d.value.timestamp) else None
  }

  /** `GET /api/status`: the active storm count, the stamps of the latest cone, pressure and
      currents records, and fixed demo-mode source states; CMEMS reads as configured iff a
      user name is set. It reads the store and changes nothing. */
  function Status(s: Storage.Store, cmemsUsername: Option<string>): (r: StatusBody)
    ensures r.activeStorms == |Storage.GetActiveHurricanes(s)|
    ensures r.lastNhcUpdate == NhcStampOf(Storage.GetLatestNhcData(s, "cones"))
    ensures r.lastWeatherUpdate == WeatherStampOf(Storage.GetLatestWeatherData(s, "pressure"))
    ensures r.lastOceanUpdate == OceanStampOf(Storage.GetLatestOceanData(s, "currents"))
    ensures r.status == "demo_mode"
    ensures r.nhc.lastUpdate == r.lastNhcUpdate && r.gfs.lastUpdate == r.lastWeatherUpdate
    ensures r.cmems.lastUpdate == r.lastOceanUpdate
    ensures r.nhc.status == "unavailable" && r.gfs.status == "unavailable"
    ensures r.cmems.status == "configured" <==> TruthyString(cmemsUsername)
    ensures r.cmems.status == "needs_credentials" <==> !TruthyString(cmemsUsername)
  {
    var nhc := NhcStampOf(Storage.GetLatestNhcData(s, "cones"));
    var gfs := WeatherStampOf(Storage.GetLatestWeatherData(s, "pressure"));
    var ocean := OceanStampOf(Storage.GetLatestOceanData(s, "currents"));
    var configured := TruthyString(cmemsUsername);
    StatusBody(
      |Storage.GetActiveHurricanes(s)|, nhc, gfs, ocean, "demo_mode",
      SourceStatus("unavailable", Restricted, nhc),
      SourceStatus("unavailable", Restricted, gfs),
      SourceStatus(if configured then "configured" else "needs_credentials",
                   if configured then "Credentials configured - external access restricted in demo"
                   else "CMEMS credentials required", ocean),
      "Hurricane tracker ready - external data sources restricted in demo environment")
  }

  /** The status check looks at the user name alone: with a user name and no password it
      reports CMEMS as configured although the adapter's own check refuses the credentials. */
  lemma StatusIgnoresPassword(s: Storage.Store, user: string)
    requires user != ""
    ensures Status(s, Some(user)).cmems.status == "configured"
    ensures !CmemsService.Authenticate(CmemsService.ReadCredentials(Some(user), None))
  {
  }
}
