/** The forecast service (`AIPredictionService`): how a partially filled oracle reply is
    normalised into the fixed-shape forecast, the intensification verdict with its
    defaults and its failure value, and the constant weather context. The oracle call
    itself is an input: a parsed reply, or a failure. */
module AiPrediction {
  import opened Wrappers
  import opened Schema

  /** `pathPrediction` of a reply; every member may be missing. */
  datatype PathReply = PathReply(
    coordinates: Option<seq<Coordinate>>,
    timePoints: Option<seq<string>>,
    confidenceLevel: Option<real>)

  datatype IntensityReply = IntensityReply(
    windSpeeds: Option<seq<real>>,
    pressures: Option<seq<real>>,
    categories: Option<seq<string>>,
    timePoints: Option<seq<string>>)

  datatype LandfallReply = LandfallReply(
    probability: Option<real>,
    estimatedLocation: Option<string>,
    estimatedTime: Option<string>)

  /** The parsed JSON body of a forecast reply; an empty reply body parses as `{}`, all missing. */
  datatype OracleReply = OracleReply(
    pathPrediction: Option<PathReply>,
    intensityForecast: Option<IntensityReply>,
    landfall: Option<LandfallReply>,
    analysis: Option<string>,
    confidence: Option<real>)

  const EmptyReply: OracleReply := OracleReply(None, None, None, None, None)

  const DefaultConfidence: real := 0.7
  const NoAnalysis: string := "Analysis not available"
  const PredictionError: string := "Failed to generate hurricane prediction"

  /** `x?.f || []` for an array member: only a missing array is replaced (an empty one is truthy). */
  function ListOr<T>(o: Option<seq<T>>): seq<T> {
    match o
    case Some(s) => s
    case None => []
  }

  /** The normalised forecast: missing arrays become empty and present ones pass unchanged,
      falsy confidences (0 included) become 0.7, a falsy landfall probability becomes 0,
      location and time are copied as they are, an empty analysis is replaced, and the
      time stamp is the local clock. */
  function Normalise(reply: OracleReply, now: int): (r: PredictionResult)
    ensures var p := reply.pathPrediction;
            && (p.None? || p.value.coordinates.None? ==> r.pathPrediction.coordinates == [])
            && (p.Some? && p.value.coordinates.Some? ==> r.pathPrediction.coordinates == p.value.coordinates.value)
            && (p.None? || p.value.timePoints.None? ==> r.pathPrediction.timePoints == [])
            && (p.Some? && p.value.timePoints.Some? ==> r.pathPrediction.timePoints == p.value.timePoints.value)
            && (p.Some? && TruthyNumber(p.value.confidenceLevel) ==> r.pathPrediction.confidenceLevel == p.value.confidenceLevel.value)
            && (p.None? || !TruthyNumber(p.value.confidenceLevel) ==> r.pathPrediction.confidenceLevel == DefaultConfidence)
    ensures var i := reply.intensityForecast;
            && (i.None? ==> r.intensityForecast == IntensityForecast([], [], [], []))
            && (i.Some? ==> r.intensityForecast.windSpeeds == ListOr(i.value.windSpeeds)
                            && r.intensityForecast.pressures == ListOr(i.value.pressures)
                            && r.intensityForecast.categories == ListOr(i.value.categories)
                            && r.intensityForecast.timePoints == ListOr(i.value.timePoints))
    ensures var l := reply.landfall;
            && (l.Some? && TruthyNumber(l.value.probability) ==> r.landfall.probability == l.value.probability.value)
            && (l.None? || !TruthyNumber(l.value.probability) ==> r.landfall.probability == 0.0)
            && r.landfall.estimatedLocation == (if l.Some? then l.value.estimatedLocation else None)
            && r.landfall.estimatedTime == (if l.Some? then l.value.estimatedTime else None)
    ensures TruthyString(reply.analysis) ==> r.analysis == reply.analysis.value
    ensures !TruthyString(reply.analysis) ==> r.analysis == NoAnalysis
    ensures TruthyNumber(reply.confidence) ==> r.confidence == reply.confidence.value
    ensures !TruthyNumber(reply.confidence) ==> r.confidence == DefaultConfidence
    ensures r.lastUpdated == now
  {
    var path := reply.pathPrediction;
    var intensity := reply.intensityForecast;
    var landfall := reply.landfall;
    PredictionResult(
      PathPrediction(
        if path.Some? then ListOr(path.value.coordinates) else [],
        if path.Some? then ListOr(path.value.timePoints) else [],
        if path.Some? then NumberOr(path.value.confidenceLevel, DefaultConfidence) else DefaultConfidence),
      IntensityForecast(
        if intensity.Some? then ListOr(intensity.value.windSpeeds) else [],
        if intensity.Some? then ListOr(intensity.value.pressures) else [],
        if intensity.Some? then ListOr(intensity.value.categories) else [],
        if intensity.Some? then ListOr(intensity.value.timePoints) else []),
      Landfall(
        if landfall.Some? then NumberOr(landfall.value.probability, 0.0) else 0.0,
        if landfall.Some? then landfall.value.estimatedLocation else None,
        if landfall.Some? then landfall.value.estimatedTime else None),
      StringOr(reply.analysis, NoAnalysis),
      NumberOr(reply.confidence, DefaultConfidence),
      now)
  }

  /** The reply that spells out a forecast in full. */
  function Spell(p: PredictionResult): OracleReply {
    OracleReply(
      Some(PathReply(Some(p.pathPrediction.coordinates), Some(p.pathPrediction.timePoints),
                     Some(p.pathPrediction.confidenceLevel))),
      Some(IntensityReply(Some(p.intensityForecast.windSpeeds), Some(p.intensityForecast.pressures),
                          Some(p.intensityForecast.categories), Some(p.intensityForecast.timePoints))),
      Some(LandfallReply(Some(p.landfall.probability), p.landfall.estimatedLocation, p.landfall.estimatedTime)),
      Some(p.analysis),
      Some(p.confidence))
  }

  /** A forecast the defaults cannot have produced: no confidence is 0, the probability is
      not 0, and the analysis is not empty. */
  predicate Faithful(p: PredictionResult) {
    p.pathPrediction.confidenceLevel != 0.0 && p.confidence != 0.0
    && p.landfall.probability != 0.0 && p.analysis != ""
  }

  /** Normalising a fully spelled-out reply gives the forecast back, stamped with the clock. */
  lemma NormaliseSpell(p: PredictionResult, now: int)
    requires Faithful(p)
    ensures Normalise(Spell(p), now) == p.(lastUpdated := now)
  {
  }

  /** An explicit zero confidence is indistinguishable from a missing one: both read as 0.7. */
  lemma ZeroConfidenceIsDefault(reply: OracleReply, now: int)
    requires reply.confidence == Some(0.0)
    ensures Normalise(reply, now).confidence == Normalise(reply.(confidence := None), now).confidence == DefaultConfidence
  {
  }

  /** `generateHurricanePrediction`: a failed oracle call or unparsable reply yields the fixed
      error and no partial forecast; a parsed reply is normalised. */
  function GenerateHurricanePrediction(reply: Outcome<OracleReply>, now: int): (r: Result<PredictionResult>)
    ensures reply.Fail? <==> r == Failure(PredictionError)
    ensures reply.Ok? ==> r == Success(Normalise(reply.payload, now))
  {
    match reply
    case Fail => Failure(PredictionError)
    case Ok(body) => Success(Normalise(body, now))
  }

  /** The intensification verdict as returned. */
  datatype Intensification = Intensification(potential: string, reasoning: string, confidence: real)

  datatype IntensificationReply = IntensificationReply(potential: Option<string>, reasoning: Option<string>, confidence: Option<real>)

  const TechnicalError: Intensification :=
    Intensification("steady", "Unable to analyze due to technical error", 0.5)

  /** `analyzeIntensificationPotential`: any failure gives the fixed technical-error verdict;
      otherwise each falsy member takes its default, and a truthy `potential` passes
      through unchecked. */
  function AnalyzeIntensification(reply: Outcome<IntensificationReply>): (r: Intensification)
    ensures reply.Fail? ==> r == TechnicalError
    ensures reply.Ok? ==>
              && r.potential == (if TruthyString(reply.payload.potential) then reply.payload.potential.value else "steady")
              && r.reasoning == (if TruthyString(reply.payload.reasoning) then reply.payload.reasoning.value else NoAnalysis)
              && r.confidence == (if TruthyNumber(reply.payload.confidence) then reply.payload.confidence.value else DefaultConfidence)
    ensures r.potential != "" && r.reasoning != "" && r.confidence != 0.0
  {
    match reply
    case Fail => TechnicalError
    case Ok(body) =>
      Intensification(StringOr(body.potential, "steady"), StringOr(body.reasoning, NoAnalysis),
                      NumberOr(body.confidence, DefaultConfidence))
  }

  /** The reply a failure and a parsed reply can never share: a parsed reply never yields the
      technical-error reasoning unless the oracle wrote it itself. */
  lemma FailureIsRecognisable(body: IntensificationReply)
    requires body.reasoning != Some(TechnicalError.reasoning)
    ensures AnalyzeIntensification(Ok(body)) != AnalyzeIntensification(Fail)
  {
  }

  datatype WeatherContext = WeatherContext(seaTemperature: real, atmosphericPressure: real, windShear: real, oceanCurrents: string)

  /** `buildWeatherContext`: fixed Atlantic-season values. */
  function BuildWeatherContext(): (r: WeatherContext)
    ensures r.seaTemperature == 28.5 && r.atmosphericPressure == 1013.2 && r.windShear == 10.0
    ensures r.oceanCurrents == "Gulf Stream influence, warm water transport northward"
  {
    WeatherContext(28.5, 1013.2, 10.0, "Gulf Stream influence, warm water transport northward")
  }
}
