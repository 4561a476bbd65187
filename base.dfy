/**
 * The uniform record every detector and inference step emits into, and the
 * interface of the five field detectors.  The detectors' own matching rules are
 * not part of this model: each is a parameter, a total function from a token to
 * a `Detection`.
 */
module Base {

  /** Where a field value came from. */
  datatype Source = Parsed | Inferred | Explicit

  /** A confidence level, between 0.0 and 1.0 inclusive. */
  type Confidence = r: real | 0.0 <= r <= 1.0

  /** `ParseResult`: one detection outcome; `source` defaults to `Parsed`. */
  datatype ParseResult = ParseResult(value: string, confidence: Confidence, consumedText: string, source: Source := Parsed)

  /** Confidence of a field a detector read directly off a token. */
  const ParsedConfidence: Confidence := 0.95

  /** Confidence of a field derived from another field. */
  const InferredConfidence: Confidence := 0.6

  /**
   * What calling a detector's `parse` on one token gives: `None` (no match), a
   * value, or an exception raised inside the detector.
   */
  datatype Detection<+T> = NoMatch | Match(value: T) | Fault

  /**
   * The five detectors.  `name` splits a token into a (first, last) pair;
   * the others return the normalised text of their field.
   */
  datatype Detectors = Detectors(
    email: string -> Detection<string>,
    website: string -> Detection<string>,
    title: string -> Detection<string>,
    phone: string -> Detection<string>,
    name: string -> Detection<(string, string)>)

  /** A record built without naming its source is a directly parsed one. */
  lemma SourceDefaultsToParsed(value: string, confidence: Confidence, consumed: string)
    ensures ParseResult(value, confidence, consumed).source == Parsed
  {
  }

  /** The two fixed confidence levels lie in [0.0, 1.0], inferred below parsed. */
  lemma ConfidenceLevels()
    ensures 0.0 <= InferredConfidence < ParsedConfidence <= 1.0
  {
  }
}
