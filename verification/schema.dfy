/** Record shapes of the hurricane tracker: stored hurricanes, weather, ocean and
    NHC snapshots, forecast records, and the GeoJSON features the NHC layers carry.
    Timestamps are integer milliseconds since the Unix epoch; JSON numbers are reals. */
module Schema {
  import opened Wrappers

  /** The `properties` of an NHC GeoJSON feature, as far as the ingestion code reads
      or writes them. `TCSPEED` is kept as its rendered text, `SYNOPTIC` as parsed milliseconds. */
  datatype StormProps = StormProps(
    stormName: Option<string>,
    maxWind: Option<real>,
    mslp: Option<real>,
    tcDirection: Option<string>,
    tcSpeed: Option<string>,
    synoptic: Option<int>,
    atcfId: Option<string>,
    intensity: Option<string>,
    authenticData: Option<bool>,
    source: Option<string>)

  /** A GeoJSON feature: its properties and the coordinates of its geometry. */
  datatype Feature = Feature(properties: Option<StormProps>, coordinates: Option<seq<real>>)

  /** A GeoJSON body as returned by an NHC endpoint; `{}` has no `features`. */
  datatype GeoPayload = GeoPayload(features: Option<seq<Feature>>)

  const EmptyObject: GeoPayload := GeoPayload(None)

  /** `isActive` of an insert: left undefined, explicitly null, or a boolean. */
  datatype ActiveInput = Undefined | Null | Flag(b: bool)

  datatype Hurricane = Hurricane(
    id: string,
    name: string,
    category: string,
    windSpeed: real,
    pressure: real,
    latitude: real,
    longitude: real,
    movement: string,
    lastUpdate: int,
    nextUpdate: Option<int>,
    forecastTrack: Option<Feature>,
    isActive: Option<bool>)

  /** `InsertHurricane`: a hurricane without its id. */
  datatype NewHurricane = NewHurricane(
    name: string,
    category: string,
    windSpeed: real,
    pressure: real,
    latitude: real,
    longitude: real,
    movement: string,
    lastUpdate: int,
    nextUpdate: Option<int>,
    forecastTrack: Option<Feature>,
    isActive: ActiveInput)

  /** `Partial<Hurricane>`: a field is `Some` exactly when the update object carries it. */
  datatype HurricanePatch = HurricanePatch(
    id: Option<string>,
    name: Option<string>,
    category: Option<string>,
    windSpeed: Option<real>,
    pressure: Option<real>,
    latitude: Option<real>,
    longitude: Option<real>,
    movement: Option<string>,
    lastUpdate: Option<int>,
    nextUpdate: Option<Option<int>>,
    forecastTrack: Option<Option<Feature>>,
    isActive: Option<Option<bool>>)

  /** Provenance metadata written by the two raster adapters. */
  datatype Metadata =
    | GfsMetadata(source: string, resolution: string, forecastHour: int)
    | CmemsMetadata(source: string, dataset: string, variables: seq<string>, resolution: string)

  datatype WeatherData = WeatherData(
    id: nat,
    timestamp: int,
    dataType: string,
    bounds: seq<real>,
    gribUrl: Option<string>,
    cogUrl: Option<string>,
    tileUrl: Option<string>,
    metadata: Option<Metadata>,
    createdAt: int)

  datatype NewWeatherData = NewWeatherData(
    timestamp: int,
    dataType: string,
    bounds: seq<real>,
    gribUrl: Option<string>,
    cogUrl: Option<string>,
    tileUrl: Option<string>,
    metadata: Option<Metadata>)

  datatype OceanData = OceanData(
    id: nat,
    timestamp: int,
    dataType: string,
    bounds: seq<real>,
    netcdfUrl: Option<string>,
    cogUrl: Option<string>,
    tileUrl: Option<string>,
    metadata: Option<Metadata>,
    createdAt: int)

  datatype NewOceanData = NewOceanData(
    timestamp: int,
    dataType: string,
    bounds: seq<real>,
    netcdfUrl: Option<string>,
    cogUrl: Option<string>,
    tileUrl: Option<string>,
    metadata: Option<Metadata>)

  datatype NhcData = NhcData(
    id: nat,
    timestamp: int,
    dataType: string,
    geoJsonData: GeoPayload,
    stormId: Option<string>,
    createdAt: int)

  datatype NewNhcData = NewNhcData(
    timestamp: int,
    dataType: string,
    geoJsonData: GeoPayload,
    stormId: Option<string>)

  /** A forecast track point `[longitude, latitude]`. */
  type Coordinate = (real, real)

  datatype PathPrediction = PathPrediction(coordinates: seq<Coordinate>, timePoints: seq<string>, confidenceLevel: real)

  datatype IntensityForecast = IntensityForecast(
    windSpeeds: seq<real>,
    pressures: seq<real>,
    categories: seq<string>,
    timePoints: seq<string>)

  datatype Landfall = Landfall(probability: real, estimatedLocation: Option<string>, estimatedTime: Option<string>)

  /** The fixed-shape forecast the prediction service hands back. */
  datatype PredictionResult = PredictionResult(
    pathPrediction: PathPrediction,
    intensityForecast: IntensityForecast,
    landfall: Landfall,
    analysis: string,
    confidence: real,
    lastUpdated: int)

  datatype NewPrediction = NewPrediction(
    hurricaneId: string,
    predictionData: PredictionResult,
    confidence: real,
    landfallProbability: Option<real>,
    landfallLocation: Option<string>,
    landfallTime: Option<string>,
    analysis: Option<string>,
    pathCoordinates: Option<seq<Coordinate>>,
    intensityForecast: Option<IntensityForecast>)

  datatype Prediction = Prediction(
    id: nat,
    hurricaneId: string,
    predictionData: PredictionResult,
    confidence: real,
    landfallProbability: Option<real>,
    landfallLocation: Option<string>,
    landfallTime: Option<string>,
    analysis: Option<string>,
    pathCoordinates: Option<seq<Coordinate>>,
    intensityForecast: Option<IntensityForecast>,
    createdAt: int)

  // Field accessors handed to the generic record queries.
  function WeatherKind(d: WeatherData): string { d.dataType }
  function WeatherStamp(d: WeatherData): int { d.timestamp }
  function OceanKind(d: OceanData): string { d.dataType }
  function OceanStamp(d: OceanData): int { d.timestamp }
  function NhcKind(d: NhcData): string { d.dataType }
  function NhcStamp(d: NhcData): int { d.timestamp }
  function PredictionOwner(p: Prediction): string { p.hurricaneId }
  function PredictionCreated(p: Prediction): int { p.createdAt }
}
