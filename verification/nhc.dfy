/** The National Hurricane Center adapter (`NHCService`): each fetch reads one or more
    endpoints and appends what it got to the NHC snapshot list. The network is a
    function from URL to the settled outcome of fetching and parsing that URL. */
module NhcService {
  import opened Wrappers
  import opened Schema
  import Storage

  const BaseUrl: string :=
    "https://idpgis.ncep.noaa.gov/arcgis/rest/services/NWS_Forecasts_Guidance_Warnings/NHC_Atl_trop_cyclones/MapServer"
  const AltUrl: string :=
    "https://www.nhc.noaa.gov/gis/rest/services/nhc_at_public_layers/hurricanes/MapServer"
  const KmlUrl: string := "https://www.nhc.noaa.gov/gis/kml/nhc_active.kml"

  /** The cone endpoints, in the order they are tried. */
  const ConeEndpoints: seq<string> := [
    BaseUrl + "/query?where=1=1&outFields=*&f=json",
    AltUrl + "/0/query?where=1=1&outFields=*&f=json",
    "https://www.nhc.noaa.gov/gis/forecast/archive/al052025_5day_007.zip",
    KmlUrl]

  const TracksUrl: string := BaseUrl + "/1/query?where=1=1&outFields=*&f=json"
  const WarningsUrl: string := BaseUrl + "/2/query?where=1=1&outFields=*&f=json"

  const AllFailed: string := "All NHC endpoints failed - network connectivity issues"
  const ApiError: string := "NHC API error"

  /** Fetching and parsing one URL: a parsed body, or a non-ok status / thrown error / bad body. */
  type Network = string -> Outcome<GeoPayload>

  /** The first of `urls` (from position `i` on) whose fetch succeeds, with its body. */
  function FirstSuccess(urls: seq<string>, net: Network, i: nat): (r: Option<(nat, GeoPayload)>)
    requires i <= |urls|
    ensures r.None? <==> forall j :: i <= j < |urls| ==> net(urls[j]).Fail?
    ensures r.Some? ==> var (k, body) := r.value;
              i <= k < |urls| && net(urls[k]) == Ok(body)
              && forall j :: i <= j < k ==> net(urls[j]).Fail?
    decreases |urls| - i
  {
    if i == |urls| then None
    else match net(urls[i])
      case Ok(body) => Some((i, body))
      case Fail => FirstSuccess(urls, net, i + 1)
  }

  /** The NHC record a successful fetch stores: stamped now, no storm id. */
  function Snapshot(dataType: string, body: GeoPayload, now: int): NewNhcData {
    NewNhcData(now, dataType, body, None)
  }

  /** `s'` is `s` with exactly one NHC record appended: of kind `dataType`, holding `body`,
      stamped `now`, with no storm id; the other collections are untouched. */
  predicate StoredOnce(s: Storage.Store, s': Storage.Store, dataType: string, body: GeoPayload, now: int) {
    && |s'.nhc| == |s.nhc| + 1 && s'.nhc[..|s.nhc|] == s.nhc
    && s'.nhc[|s.nhc|].dataType == dataType && s'.nhc[|s.nhc|].geoJsonData == body
    && s'.nhc[|s.nhc|].stormId.None? && s'.nhc[|s.nhc|].timestamp == now
    && s'.hurricanes == s.hurricanes && s'.weather == s.weather && s'.ocean == s.ocean
    && s'.predictions == s.predictions
    && (Storage.Valid(s) ==> Storage.Valid(s'))
  }

  /** `fetchStormCones`: the endpoints are tried in order and the first success is stored
      once as a `cones` record and returned; when every endpoint fails, the error is thrown
      and the store is unchanged. */
  function FetchStormCones(s: Storage.Store, net: Network, now: int): (r: (Result<GeoPayload>, Storage.Store))
    ensures r.0.Failure? <==> forall j :: 0 <= j < |ConeEndpoints| ==> net(ConeEndpoints[j]).Fail?
    ensures r.0.Failure? ==> r.0.error == AllFailed && r.1 == s
    ensures r.0.Success? ==>
              && (exists k :: 0 <= k < |ConeEndpoints| && net(ConeEndpoints[k]) == Ok(r.0.value)
                               && forall j :: 0 <= j < k ==> net(ConeEndpoints[j]).Fail?)
              && StoredOnce(s, r.1, "cones", r.0.value, now)
  {
    match FirstSuccess(ConeEndpoints, net, 0)
    case None => (Failure(AllFailed), s)
    case Some((_, body)) =>
      var (_, s') := Storage.CreateNhcData(s, Snapshot("cones", body, now), now);
      (Success(body), s')
  }

  /** Endpoints after the first success are never consulted: two networks that agree up to
      and including it give the same result and the same store. */
  lemma ConesStopAtFirstSuccess(s: Storage.Store, net1: Network, net2: Network, now: int, k: nat)
    requires k < |ConeEndpoints| && net1(ConeEndpoints[k]).Ok?
    requires forall j :: 0 <= j <= k ==> net1(ConeEndpoints[j]) == net2(ConeEndpoints[j])
    requires forall j :: 0 <= j < k ==> net1(ConeEndpoints[j]).Fail?
    ensures FetchStormCones(s, net1, now) == FetchStormCones(s, net2, now)
  {
    SameFirstSuccess(ConeEndpoints, net1, net2, 0, k);
  }

  lemma {:induction false} SameFirstSuccess(urls: seq<string>, net1: Network, net2: Network, i: nat, k: nat)
    requires i <= k < |urls| && net1(urls[k]).Ok?
    requires forall j :: i <= j <= k ==> net1(urls[j]) == net2(urls[j])
    requires forall j :: i <= j < k ==> net1(urls[j]).Fail?
    ensures FirstSuccess(urls, net1, i) == FirstSuccess(urls, net2, i)
    decreases k - i
  {
    if i < k {
      SameFirstSuccess(urls, net1, net2, i + 1, k);
    }
  }

  /** A single-endpoint fetch: a failure is rethrown with nothing stored; a success is stored
      once under `dataType` and returned. */
  function FetchOne(s: Storage.Store, url: string, dataType: string, net: Network, now: int)
    : (r: (Result<GeoPayload>, Storage.Store))
    ensures net(url).Fail? <==> r.0.Failure?
    ensures r.0.Failure? ==> r.0.error == ApiError && r.1 == s
    ensures r.0.Success? ==>
              && r.0.value == net(url).payload
              && StoredOnce(s, r.1, dataType, r.0.value, now)
  {
    match net(url)
    case Fail => (Failure(ApiError), s)
    case Ok(body) =>
      var (_, s') := Storage.CreateNhcData(s, Snapshot(dataType, body, now), now);
      (Success(body), s')
  }

  /** `fetchStormTracks`. */
  function FetchStormTracks(s: Storage.Store, net: Network, now: int): (r: (Result<GeoPayload>, Storage.Store))
    ensures net(TracksUrl).Fail? <==> r.0.Failure?
    ensures r.0.Failure? ==> r.0.error == ApiError && r.1 == s
    ensures r.0.Success? ==> r.0.value == net(TracksUrl).payload && StoredOnce(s, r.1, "tracks", r.0.value, now)
  {
    FetchOne(s, TracksUrl, "tracks", net, now)
  }

  /** `fetchWarnings`. */
  function FetchWarnings(s: Storage.Store, net: Network, now: int): (r: (Result<GeoPayload>, Storage.Store))
    ensures net(WarningsUrl).Fail? <==> r.0.Failure?
    ensures r.0.Failure? ==> r.0.error == ApiError && r.1 == s
    ensures r.0.Success? ==> r.0.value == net(WarningsUrl).payload && StoredOnce(s, r.1, "warnings", r.0.value, now)
  {
    FetchOne(s, WarningsUrl, "warnings", net, now)
  }

  /** `fetchKMLData`: the feed text or the error; it takes no store, so it writes nothing. */
  function FetchKmlData(reply: Outcome<string>): (r: Result<string>)
    ensures reply.Ok? <==> r.Success?
    ensures reply.Ok? ==> r.value == reply.payload
  {
    match reply
    case Ok(text) => Success(text)
    case Fail => Failure("NHC KML error")
  }
}
