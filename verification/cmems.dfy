/** The Copernicus Marine adapter (`CMEMSService`): each fetch stores one ocean record that
    points at the OPeNDAP endpoint of a global analysis-and-forecast dataset; no data is
    downloaded and no raster is derived, so both raster URLs are empty. */
module CmemsService {
  import opened Wrappers
  import opened Schema
  import Storage

  const BaseUrl: string := "https://nrt.cmems-du.eu/thredds/dodsC"
  const GlobalBounds: seq<real> := [-180.0, -90.0, 180.0, 90.0]

  /** The two products: the physics dataset (current components `uo`, `vo`) and the wave
      dataset (significant wave height `VHM0`). */
  datatype Product = Currents | Waves {
    function DataType(): string {
      match this
      case Currents => "currents"
      case Waves => "waves"
    }

    function DatasetUrl(): string {
      match this
      case Currents => BaseUrl + "/global-analysis-forecast-phy-001-024"
      case Waves => BaseUrl + "/global-analysis-forecast-wav-001-027"
    }

    function Metadata(): Metadata {
      match this
      case Currents => CmemsMetadata("CMEMS", "GLOBAL_ANALYSISFORECAST_PHY_001_024", ["uo", "vo"], "1/12°")
      case Waves => CmemsMetadata("CMEMS", "GLOBAL_ANALYSISFORECAST_WAV_001_027", ["VHM0"], "1/12°")
    }
  }

  /** `bounds || [-180, -90, 180, 90]`: any given array is kept (an empty one is truthy). */
  function BoundsOr(bounds: Option<seq<real>>): (r: seq<real>)
    ensures bounds.Some? ==> r == bounds.value
    ensures bounds.None? ==> r == GlobalBounds
  {
    match bounds
    case Some(b) => b
    case None => GlobalBounds
  }

  /** Shared body of `fetchCurrents` and `fetchWaves`: exactly one ocean record is appended
      and returned, stamped with the requested instant (the clock when none is given), with
      the product's dataset URL, no raster URLs and the product's metadata. */
  function FetchProduct(s: Storage.Store, p: Product, bounds: Option<seq<real>>, timestamp: Option<int>, now: int)
    : (r: (OceanData, Storage.Store))
    ensures r.1.ocean == s.ocean + [r.0]
    ensures r.1.hurricanes == s.hurricanes && r.1.weather == s.weather && r.1.nhc == s.nhc
            && r.1.predictions == s.predictions
    ensures Storage.Valid(s) ==> Storage.Valid(r.1)
    ensures r.0.id == s.nextId && r.0.createdAt == now
    ensures r.0.timestamp == (if timestamp.Some? then timestamp.value else now)
    ensures r.0.dataType == p.DataType() && r.0.bounds == BoundsOr(bounds)
    ensures r.0.netcdfUrl == Some(p.DatasetUrl()) && r.0.cogUrl.None? && r.0.tileUrl.None?
    ensures r.0.metadata == Some(p.Metadata())
  {
    var t := if timestamp.Some? then timestamp.value else now;
    Storage.CreateOceanData(s, NewOceanData(t, p.DataType(), BoundsOr(bounds), Some(p.DatasetUrl()), None, None,
                                            Some(p.Metadata())), now)
  }

  function FetchCurrents(s: Storage.Store, bounds: Option<seq<real>>, timestamp: Option<int>, now: int)
    : (r: (OceanData, Storage.Store))
    ensures r.1.ocean == s.ocean + [r.0] && r.0.dataType == "currents"
    ensures r.0.netcdfUrl == Some(BaseUrl + "/global-analysis-forecast-phy-001-024")
  {
    FetchProduct(s, Currents, bounds, timestamp, now)
  }

  function FetchWaves(s: Storage.Store, bounds: Option<seq<real>>, timestamp: Option<int>, now: int)
    : (r: (OceanData, Storage.Store))
    ensures r.1.ocean == s.ocean + [r.0] && r.0.dataType == "waves"
    ensures r.0.netcdfUrl == Some(BaseUrl + "/global-analysis-forecast-wav-001-027")
  {
    FetchProduct(s, Waves, bounds, timestamp, now)
  }

  /** The credentials, each read as `process.env.X || ""`. */
  datatype Credentials = Credentials(username: string, password: string)

  function ReadCredentials(username: Option<string>, password: Option<string>): (c: Credentials)
    ensures c.username == (if username.Some? then username.value else "")
    ensures c.password == (if password.Some? then password.value else "")
  {
    Credentials(StringOr(username, ""), StringOr(password, ""))
  }

  /** `authenticateWithCMEMS`: configured iff both credentials are non-empty. */
  function Authenticate(c: Credentials): (ok: bool)
    ensures ok <==> c.username != "" && c.password != ""
  {
    if c.username != "" && c.password != "" then true else false
  }
}
