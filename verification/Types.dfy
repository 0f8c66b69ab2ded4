/** What the source does wherever it averages. */
module Averages {

  function Average(sum: real, count: int): real {
    if count > 0 then sum / (count as real) else 0.0
  }
}

/** The value types of include/pulseport/types.h; double is modelled by real. */
module Types {

  datatype Quality = Measured | Derived | Estimated | Unknown
  {
    /** The enumerator's value: a higher rank is a worse quality. */
    function Rank(): nat {
      match this
      case Measured => 0
      case Derived => 1
      case Estimated => 2
      case Unknown => 3
    }
  }

  function QualityToString(q: Quality): string {
    match q
    case Measured => "measured"
    case Derived => "derived"
    case Estimated => "estimated"
    case Unknown => "unknown"
  }

  function QualityFromString(s: string): Quality {
    if s == "measured" then Measured
    else if s == "derived" then Derived
    else if s == "estimated" then Estimated
    else Unknown
  }

  /** Storing a quality as text and loading it again is the identity. */
  lemma QualityRoundTrip(q: Quality)
    ensures QualityFromString(QualityToString(q)) == q
  {
    assert "measured"[0] == 'm' && "derived"[0] == 'd' && "estimated"[0] == 'e' && "unknown"[0] == 'u';
  }

  /** Any other text is read as Unknown. */
  lemma QualityOfText(s: string)
    ensures QualityFromString(s) == Measured <==> s == "measured"
    ensures QualityFromString(s) == Derived <==> s == "derived"
    ensures QualityFromString(s) == Estimated <==> s == "estimated"
  {
    assert "measured"[0] == 'm' && "derived"[0] == 'd' && "estimated"[0] == 'e';
  }

  datatype MetricSample = MetricSample(key: string, value: real, unit: string, quality: Quality, ts: int)

  datatype MetricAggregate = MetricAggregate(
    key: string, bucketTs: int, minValue: real, maxValue: real, avgValue: real, sampleCount: int, quality: Quality)

  datatype MetricInfo = MetricInfo(
    key: string, displayName: string, unit: string, source: string, category: string)
}
