/**
  Scoring of one answer and classification of one total, as the survey engine
  does it: `clampScore`, `reverseScore` and `getCategory`.
*/
module ExcelScoring {
  import opened JsValues
  import opened Types

  /** The lowest and highest score of one answer (Never .. Always). */
  const MinScore := 1
  const MaxScore := 5

  // ---------------------------------------------------------------------
  // getCategory

  /** The band table: the totals each category covers. */
  predicate InBand(score: int, c: StressCategory) {
    match c
    case Balanced => score <= 40
    case Mild => 41 <= score <= 65
    case Moderate => 66 <= score <= 85
    case High => 86 <= score <= 90
    case Severe => 91 <= score
  }

  /** `getCategory`: the stress band of a total score. */
  function GetCategory(score: int): (c: StressCategory)
    ensures InBand(score, c)
  {
    if score <= 40 then Balanced
    else if score <= 65 then Mild
    else if score <= 85 then Moderate
    else if score <= 90 then High
    else Severe
  }

  /** The bands do not overlap: a score lies in exactly one of them, the one
      `GetCategory` gives. */
  lemma BandsPartition(score: int, c: StressCategory)
    ensures InBand(score, c) <==> c == GetCategory(score)
  {
  }

  /** A higher total never falls into a lower band. */
  lemma GetCategoryMonotone(s: int, t: int)
    requires s <= t
    ensures GetCategory(s).Rank() <= GetCategory(t).Rank()
  {
  }

  // ---------------------------------------------------------------------
  // reverseScore

  /** `reverseScore`: the answer read on the opposite scale. */
  function ReverseScore(v: int): (r: int)
    ensures MinScore <= v <= MaxScore ==> MinScore <= r <= MaxScore
    ensures v < 3 <==> r > 3
  {
    6 - v
  }

  /** Reversing twice gives the answer back. */
  lemma ReverseInvolution(v: int)
    ensures ReverseScore(ReverseScore(v)) == v
  {
  }

  /** The middle answer 3 is the only one reversing leaves alone. */
  lemma ReverseFixedPoint(v: int)
    ensures ReverseScore(v) == v <==> v == 3
  {
  }

  // ---------------------------------------------------------------------
  // clampScore

  /** `n < bound` on a JavaScript number; comparisons with `NaN` are false. */
  predicate LessThan(n: JsNumber, bound: real) {
    n.NegInfinity? || (n.Finite? && n.value < bound)
  }

  /** `n > bound` on a JavaScript number; comparisons with `NaN` are false. */
  predicate GreaterThan(n: JsNumber, bound: real) {
    n.PosInfinity? || (n.Finite? && n.value > bound)
  }

  /** `clampScore`: a cell read as an answer. What is not a number, or lies
      below 1, scores 1; what lies above 5 scores 5; anything else is rounded
      to the nearest whole answer, halves upwards. */
  function ClampScore(c: Cell): (r: int)
    ensures MinScore <= r <= MaxScore
  {
    var n := ToNumber(c);
    if n.NaN? || LessThan(n, 1.0) then MinScore
    else if GreaterThan(n, 5.0) then MaxScore
    else Round(n.value)
  }

  /** What the clamp makes of each kind of number: not-a-number and anything
      below 1 give 1, anything above 5 gives 5, and a number in between gives
      the nearest whole score. */
  lemma ClampScoreCases(c: Cell)
    ensures match ToNumber(c)
      case NaN => ClampScore(c) == MinScore
      case NegInfinity => ClampScore(c) == MinScore
      case PosInfinity => ClampScore(c) == MaxScore
      case Finite(n) =>
        && (n < 1.0 ==> ClampScore(c) == MinScore)
        && (n > 5.0 ==> ClampScore(c) == MaxScore)
        && (1.0 <= n <= 5.0 ==> ClampScore(c) as real - 0.5 <= n < ClampScore(c) as real + 0.5)
  {
  }

  /** Clamping a clamped score changes nothing. */
  lemma ClampIdempotent(c: Cell)
    ensures ClampScore(Num(ClampScore(c) as real)) == ClampScore(c)
  {
  }

  /** A missing cell, and a cell holding only white space, score 1. */
  lemma ClampBlank(c: Cell)
    requires c == Empty || (c.Str? && forall k :: 0 <= k < |c.text| ==> IsWhiteSpace(c.text[k]))
    ensures ClampScore(c) == MinScore
  {
  }

  /** A whole number typed as text scores the same as the number itself. */
  lemma ClampTextAgrees(x: real)
    requires x == x.Floor as real
    ensures ClampScore(Str(NumberText(x))) == ClampScore(Num(x))
  {
    IntegerTextRoundTrip(x);
  }
}
