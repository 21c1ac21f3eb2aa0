/**
 * Turning a predicted score into the response: a four-band qualitative label,
 * chosen on the unrounded score, and the score rounded to two decimals.
 */
module Classification {

  /** The four bands, from worst to best. */
  datatype Band = Low | Moderate | Good | Excellent

  function Rank(b: Band): nat {
    match b
    case Low => 0
    case Moderate => 1
    case Good => 2
    case Excellent => 3
  }

  function Message(b: Band): string {
    match b
    case Excellent => "Excellent sustainability score!"
    case Good => "Good sustainability score"
    case Moderate => "Moderate sustainability score"
    case Low => "Low sustainability score - consider improvements"
  }

  /** The band of a score, described as four half-open intervals of the real line. */
  function BandOf(score: real): (b: Band)
    ensures b == Excellent <==> 80.0 <= score
    ensures b == Good <==> 60.0 <= score < 80.0
    ensures b == Moderate <==> 40.0 <= score < 60.0
    ensures b == Low <==> score < 40.0
  {
    if score < 40.0 then Low
    else if score < 60.0 then Moderate
    else if score < 80.0 then Good
    else Excellent
  }

  /** The `if`/`elif` chain of the handler: thresholds tested top-down, lower bounds inclusive. */
  function Label(score: real): (message: string)
    ensures message == Message(BandOf(score))
  {
    if score >= 80.0 then "Excellent sustainability score!"
    else if score >= 60.0 then "Good sustainability score"
    else if score >= 40.0 then "Moderate sustainability score"
    else "Low sustainability score - consider improvements"
  }

  lemma MessageInitials()
    ensures Message(Excellent)[0] == 'E' && Message(Good)[0] == 'G'
    ensures Message(Moderate)[0] == 'M' && Message(Low)[0] == 'L'
  {
    var low := "Low sustainability score";
    assert low[0] == 'L';
    assert Message(Low) == low + " - consider improvements";
  }

  /** The four messages are distinct (their first letters differ), so a message names its band. */
  lemma MessageInjective(b1: Band, b2: Band)
    requires Message(b1) == Message(b2)
    ensures b1 == b2
  {
    MessageInitials();
    assert Message(b1)[0] == Message(b2)[0];
  }

  /** A higher score never gets a worse band. */
  lemma BandMonotone(s1: real, s2: real)
    requires s1 <= s2
    ensures Rank(BandOf(s1)) <= Rank(BandOf(s2))
  {
  }

  /**
   * `round(x, 2)` on the exact value: the nearest multiple of 1/100, a tie going
   * to the even multiple.
   */
  function Round2(x: real): (r: real)
    ensures (r * 100.0).Floor as real == r * 100.0
    ensures -0.005 <= r - x <= 0.005
  {
    var y := x * 100.0;
    var k := y.Floor;
    var f := y - k as real;
    var n := if f < 0.5 then k else if f > 0.5 then k + 1 else if k % 2 == 0 then k else k + 1;
    n as real / 100.0
  }

  function Abs(x: real): real {
    if x < 0.0 then -x else x
  }

  /** No multiple of 1/100 is closer to `x` than `Round2(x)`. */
  lemma Round2Nearest(x: real, n: int)
    ensures Abs(Round2(x) - x) <= Abs(n as real / 100.0 - x)
  {
    var y := x * 100.0;
    var k := y.Floor;
    var f := y - k as real;
    var m := if f < 0.5 then k else if f > 0.5 then k + 1 else if k % 2 == 0 then k else k + 1;
    assert Round2(x) == m as real / 100.0;
    // In units of 1/100: m is at distance at most min(f, 1 - f) from y, any other integer at least that.
    assert Abs(m as real - y) <= Abs(n as real - y) by {
      if n <= k {
        assert y - n as real >= f;
      } else {
        assert n as real - y >= 1.0 - f;
      }
    }
    assert Round2(x) - x == (m as real - y) / 100.0;
    assert n as real / 100.0 - x == (n as real - y) / 100.0;
  }

  /** A score exactly halfway between two hundredths is rounded to the even one. */
  lemma Round2Tie(x: real)
    requires x * 100.0 - (x * 100.0).Floor as real == 0.5
    ensures (Round2(x) * 100.0).Floor % 2 == 0
    ensures Abs(Round2(x) - x) == 0.005
  {
    var k := (x * 100.0).Floor;
    var m := if k % 2 == 0 then k else k + 1;
    assert Round2(x) == m as real / 100.0;
    assert (Round2(x) * 100.0).Floor == m;
  }

  /** What the handler returns on success. */
  datatype PredictionResponse = PredictionResponse(sustainabilityScore: real, message: string)

  /** The response for a score: the label of the unrounded score and the rounded score. */
  function Respond(score: real): (resp: PredictionResponse)
    ensures resp.message == Message(BandOf(score))
    ensures -0.005 <= resp.sustainabilityScore - score <= 0.005
  {
    PredictionResponse(Round2(score), Label(score))
  }

  /**
   * The label is not a function of the rounded score: 79.999 is "Good" although
   * it is reported as 80.00, the threshold of "Excellent".
   */
  lemma LabelBeforeRounding(score: real)
    requires score == 79.999
    ensures Respond(score).sustainabilityScore == 80.0
    ensures Respond(score).message == Message(Good)
    ensures Respond(score).message != Label(Respond(score).sustainabilityScore)
  {
    assert (score * 100.0).Floor == 7999;
    MessageInitials();
  }
}
