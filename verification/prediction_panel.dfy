/** The forecast card (`AIPredictionPanel`): colour bands for the confidence and the
    landfall risk, the risk label, the track-point count and the landfall block. */
module PredictionPanel {
  import opened Wrappers
  import opened Schema
  import Storage
  import AiPrediction

  /** `getConfidenceColor`: at least 0.8 green, at least 0.6 yellow, else red. */
  function ConfidenceColor(confidence: real): (r: string)
    ensures r in {"bg-green-500", "bg-yellow-500", "bg-red-500"}
  {
    if confidence >= 0.8 then "bg-green-500"
    else if confidence >= 0.6 then "bg-yellow-500"
    else "bg-red-500"
  }

  /** The rank of a confidence colour, red lowest. */
  function ConfidenceRank(color: string): nat {
    if color == "bg-green-500" then 2 else if color == "bg-yellow-500" then 1 else 0
  }

  /** A higher confidence never gets a lower colour. */
  lemma ConfidenceColorMonotone(u: real, v: real)
    requires u <= v
    ensures ConfidenceRank(ConfidenceColor(u)) <= ConfidenceRank(ConfidenceColor(v))
  {
  }

  /** `getLandfallRiskColor`: the badge variant, at least 0.7 and at least 0.4. */
  function RiskVariant(probability: real): (r: string)
    ensures r in {"destructive", "secondary", "outline"}
  {
    if probability >= 0.7 then "destructive"
    else if probability >= 0.4 then "secondary"
    else "outline"
  }

  /** The badge text, written out with its own comparisons in the card. */
  function RiskLabel(probability: real): (r: string)
    ensures r in {"High", "Moderate", "Low"}
  {
    if probability >= 0.7 then "High" else if probability >= 0.4 then "Moderate" else "Low"
  }

  /** The label and the variant always agree, in both directions. */
  lemma LabelMatchesVariant(probability: real)
    ensures RiskLabel(probability) == "High" <==> RiskVariant(probability) == "destructive"
    ensures RiskLabel(probability) == "Moderate" <==> RiskVariant(probability) == "secondary"
    ensures RiskLabel(probability) == "Low" <==> RiskVariant(probability) == "outline"
  {
  }

  /** `prediction.landfallProbability || 0`, the value the badge and the label read. */
  function ShownRisk(p: Prediction): (r: real)
    ensures p.landfallProbability.None? ==> r == 0.0
    ensures p.landfallProbability.Some? ==> r == p.landfallProbability.value
  {
    NumberOr(p.landfallProbability, 0.0)
  }

  /** A forecast stored with a zero or missing landfall probability is stored with none, and
      shows 0 and "Low", the same as an explicit zero would. */
  lemma StoredZeroShowsLow(s: Storage.Store, np: NewPrediction, now: int)
    requires np.landfallProbability == Some(0.0) || np.landfallProbability.None?
    ensures var stored := Storage.CreateHurricanePrediction(s, np, now).0;
            && stored.landfallProbability.None?
            && ShownRisk(stored) == 0.0
            && RiskLabel(ShownRisk(stored)) == "Low" && RiskVariant(ShownRisk(stored)) == "outline"
  {
  }

  /** `predictionData?.pathPrediction?.coordinates?.length || 0`: a stored forecast always
      has a path, so the count is its number of points, and 0 only for an empty path. */
  function TrackPoints(p: Prediction): (r: nat)
    ensures r == 0 <==> p.predictionData.pathPrediction.coordinates == []
  {
    |p.predictionData.pathPrediction.coordinates|
  }

  /** For a forecast built from an oracle reply, the count is the reply's coordinate count,
      and 0 when the reply has no path or no coordinates. */
  lemma TrackPointsOfReply(p: Prediction, reply: AiPrediction.OracleReply, now: int)
    requires p.predictionData == AiPrediction.Normalise(reply, now)
    ensures reply.pathPrediction.None? || reply.pathPrediction.value.coordinates.None? ==> TrackPoints(p) == 0
    ensures reply.pathPrediction.Some? && reply.pathPrediction.value.coordinates.Some? ==>
              TrackPoints(p) == |reply.pathPrediction.value.coordinates.value|
  {
  }

  /** The landfall block: hidden, or the location with an optional time line. */
  datatype LandfallBlock = Hidden | Shown(location: string, time: Option<string>)

  /** The block shows iff the location is non-empty; its time line shows iff the time is
      non-empty too. */
  function LandfallView(p: Prediction): (r: LandfallBlock)
    ensures r.Shown? <==> TruthyString(p.landfallLocation)
    ensures r.Shown? ==> r.location == p.landfallLocation.value
    ensures r.Shown? ==> (r.time.Some? <==> TruthyString(p.landfallTime))
    ensures r.Shown? && r.time.Some? ==> r.time.value == p.landfallTime.value
  {
    if TruthyString(p.landfallLocation) then
      Shown(p.landfallLocation.value, if TruthyString(p.landfallTime) then p.landfallTime else None)
    else Hidden
  }

  /** For a stored forecast the block shows iff a non-empty location was handed to the store. */
  lemma StoredLandfallView(s: Storage.Store, np: NewPrediction, now: int)
    ensures var stored := Storage.CreateHurricanePrediction(s, np, now).0;
            LandfallView(stored).Shown? <==> np.landfallLocation.Some? && np.landfallLocation.value != ""
  {
  }
}
