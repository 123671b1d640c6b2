/**
  The numbers the survey engine derives from a school's rows: the twenty
  scored answers of a student, the student's total and band, and the
  school's average, band percentages and indicator percentages.

  The application computes the average and the percentages in floating point
  and rounds them to one decimal. Here they are exact rationals rounded half
  upwards and held as whole tenths: `PctTenths(1, 3) == 333` stands for 33.3.
*/
module ExcelAggregation {
  import opened JsValues
  import opened Types
  import opened ExcelScoring

  /** Q1 sits in column I, the ninth column. */
  const FirstQuestionColumn := 8
  /** Q17..Q20 (positions 16..19) are reverse scored. */
  const ReversedFrom := 16
  const QuestionCount := 20

  /** The indicators: Q1 (anxiety), Q5 (pressure) and Q19 (support). */
  const AnxietyQuestion := 0
  const PressureQuestion := 4
  const SupportQuestion := 18

  // ---------------------------------------------------------------------
  // One student

  /** Whether question `q` (counted from 0) is reverse scored. */
  predicate IsReversed(q: nat) {
    ReversedFrom <= q
  }

  /** The answer on the scale the respondent used, recovered from a stored
      answer. */
  function Original(q: nat, stored: int): int
  {
    if IsReversed(q) then ReverseScore(stored) else stored
  }

  /** The cell the application reads for question `q`. */
  function QuestionCell(row: Row, q: nat): Cell
  {
    CellAt(row, FirstQuestionColumn + q)
  }

  /** The stored answer to question `q`: the clamped cell, reversed for
      Q17..Q20. Undoing the reversal gives back the clamped cell. */
  function Answer(row: Row, q: nat): (a: int)
    requires q < QuestionCount
    ensures MinScore <= a <= MaxScore
    ensures Original(q, a) == ClampScore(QuestionCell(row, q))
  {
    var v := ClampScore(QuestionCell(row, q));
    if IsReversed(q) then ReverseScore(v) else v
  }

  /** A question left blank scores 1, which reads as 5 once reversed. */
  lemma AnswerMissing(row: Row, q: nat)
    requires q < QuestionCount && QuestionCell(row, q) == Empty
    ensures Answer(row, q) == if IsReversed(q) then MaxScore else MinScore
  {
  }

  /** The twenty stored answers of one row, Q1 first. */
  function Answers(row: Row): (a: seq<int>)
    ensures |a| == QuestionCount
    ensures forall q :: 0 <= q < |a| ==> MinScore <= a[q] <= MaxScore
    ensures forall q :: 0 <= q < |a| ==> Original(q, a[q]) == ClampScore(QuestionCell(row, q))
  {
    seq(QuestionCount, q requires 0 <= q < QuestionCount => Answer(row, q))
  }

  /** The sum of a list of numbers, added from the left. */
  function Sum(xs: seq<int>): int
  {
    if xs == [] then 0 else Sum(xs[..|xs| - 1]) + xs[|xs| - 1]
  }

  /** A sum of `n` numbers each between `lo` and `hi` lies between `n * lo`
      and `n * hi`. */
  lemma {:induction false} SumBounds(xs: seq<int>, lo: int, hi: int)
    requires forall k :: 0 <= k < |xs| ==> lo <= xs[k] <= hi
    ensures |xs| * lo <= Sum(xs) <= |xs| * hi
  {
    if xs != [] {
      SumBounds(xs[..|xs| - 1], lo, hi);
    }
  }

  /** What every student record the engine builds satisfies. */
  predicate ScoredStudent(s: StudentRow) {
    && |s.answers| == QuestionCount
    && (forall q :: 0 <= q < |s.answers| ==> MinScore <= s.answers[q] <= MaxScore)
    && s.totalScore == Sum(s.answers)
    && QuestionCount * MinScore <= s.totalScore <= QuestionCount * MaxScore
    && s.category == GetCategory(s.totalScore)
  }

  /** The record of the student on `row` at school `name`. */
  function StudentOf(name: string, row: Row): (s: StudentRow)
    ensures ScoredStudent(s)
    ensures s.sname == name && s.answers == Answers(row)
    ensures InBand(s.totalScore, s.category)
  {
    var a := Answers(row);
    SumBounds(a, MinScore, MaxScore);
    StudentRow(name, a, Sum(a), GetCategory(Sum(a)))
  }

  /** A school's student records, one per row and in row order. */
  function Students(name: string, rows: seq<Row>): (s: seq<StudentRow>)
    ensures |s| == |rows|
    ensures forall i :: 0 <= i < |rows| ==>
      ScoredStudent(s[i]) && s[i].sname == name && s[i].answers == Answers(rows[i])
  {
    seq(|rows|, i requires 0 <= i < |rows| => StudentOf(name, rows[i]))
  }

  // ---------------------------------------------------------------------
  // Counting

  /** `countCat`: how many students fall into band `c`. */
  function CountCategory(students: seq<StudentRow>, c: StressCategory): (n: nat)
    ensures n <= |students|
  {
    if students == [] then 0
    else
      var last := students[|students| - 1];
      CountCategory(students[..|students| - 1], c) + (if last.category == c then 1 else 0)
  }

  /** Every student is in exactly one band, so the five band counts add up to
      the number of students. */
  lemma {:induction false} CategoriesPartition(students: seq<StudentRow>)
    ensures CountCategory(students, Balanced) + CountCategory(students, Mild)
      + CountCategory(students, Moderate) + CountCategory(students, High)
      + CountCategory(students, Severe) == |students|
  {
    if students != [] {
      CategoriesPartition(students[..|students| - 1]);
    }
  }

  /** Whether a student answered Often (4) or Always (5) to question `q` on
      the respondent's scale. A question the record lacks never counts,
      as a comparison with an undefined answer is false. */
  predicate HighAnswer(s: StudentRow, q: int, reversed: bool) {
    0 <= q < |s.answers| && (if reversed then 6 - s.answers[q] else s.answers[q]) >= 4
  }

  /** The students counted by `pctHighAnswer`. */
  function CountHigh(students: seq<StudentRow>, q: int, reversed: bool): (n: nat)
    ensures n <= |students|
  {
    if students == [] then 0
    else
      var last := students[|students| - 1];
      CountHigh(students[..|students| - 1], q, reversed) + (if HighAnswer(last, q, reversed) then 1 else 0)
  }

  /** How many rows hold 4 or more, once clamped, in the cell of question `q`:
      the indicator read straight from the sheet. */
  function CountRaw(rows: seq<Row>, q: nat): (n: nat)
    ensures n <= |rows|
  {
    if rows == [] then 0
    else
      var last := rows[|rows| - 1];
      CountRaw(rows[..|rows| - 1], q) + (if ClampScore(QuestionCell(last, q)) >= 4 then 1 else 0)
  }

  /** The indicator counts the answers as the respondents gave them: undoing
      the reversal of Q17..Q20 before testing for 4 or more counts exactly
      the rows whose cell reads Often or Always. */
  lemma {:induction false} IndicatorReadsSheet(name: string, rows: seq<Row>, q: nat)
    requires q < QuestionCount
    ensures CountHigh(Students(name, rows), q, IsReversed(q)) == CountRaw(rows, q)
  {
    if rows != [] {
      var front := rows[..|rows| - 1];
      IndicatorReadsSheet(name, front, q);
      assert Students(name, rows)[..|rows| - 1] == Students(name, front);
    }
  }

  /** The sum of the students' totals. */
  function SumTotals(students: seq<StudentRow>): int
  {
    if students == [] then 0
    else SumTotals(students[..|students| - 1]) + students[|students| - 1].totalScore
  }

  /** The totals of scored students add up to between 20 and 100 per student. */
  lemma {:induction false} SumTotalsBounds(students: seq<StudentRow>)
    requires forall i :: 0 <= i < |students| ==> ScoredStudent(students[i])
    ensures QuestionCount * MinScore * |students| <= SumTotals(students)
    ensures SumTotals(students) <= QuestionCount * MaxScore * |students|
  {
    if students != [] {
      SumTotalsBounds(students[..|students| - 1]);
    }
  }

  // ---------------------------------------------------------------------
  // Rounding to one decimal

  /** `p` is `num / den` rounded to the nearest whole number, halves
      upwards: `Math.round(num / den)`. */
  predicate RoundsTo(p: int, num: int, den: int)
    requires den > 0
  {
    2 * den * p <= 2 * num + den < 2 * den * (p + 1)
  }

  /** At most one whole number is the rounding of a quotient. */
  lemma RoundingUnique(p: int, p': int, num: int, den: int)
    requires den > 0 && RoundsTo(p, num, den) && RoundsTo(p', num, den)
    ensures p == p'
  {
    MultiplyCancel(2 * den, p, p' + 1);
    MultiplyCancel(2 * den, p', p + 1);
  }

  lemma MultiplyMonotone(k: int, a: int, b: int)
    requires k >= 0 && a <= b
    ensures k * a <= k * b
  {
  }

  lemma MultiplyCancel(k: int, a: int, b: int)
    requires k > 0 && k * a < k * b
    ensures a < b
  {
    if b <= a {
      MultiplyMonotone(k, b, a);
    }
  }

  /** `Math.round(num / den)` for a non-negative quotient. */
  function RoundedQuotient(num: nat, den: nat): (p: nat)
    requires den > 0
    ensures RoundsTo(p, num, den)
  {
    var p := (2 * num + den) / (2 * den);
    assert 2 * num + den == p * (2 * den) + (2 * num + den) % (2 * den);
    p
  }

  /** `pct`: the share `count / total` as a percentage with one decimal, in
      tenths of a percent. A share of the whole lies between 0 and 100.0. */
  function PctTenths(count: nat, total: nat): (p: nat)
    requires total > 0
    ensures RoundsTo(p, 1000 * count, total)
    ensures count <= total ==> p <= 1000
  {
    var p := RoundedQuotient(1000 * count, total);
    ShareBound(p, count, total);
    p
  }

  /** A rounded share of the whole is at most 1000 tenths. */
  lemma ShareBound(p: int, count: nat, total: nat)
    requires total > 0 && RoundsTo(p, 1000 * count, total)
    ensures count <= total ==> p <= 1000
  {
    if count <= total && p > 1000 {
      MultiplyMonotone(2000, count, total);
      MultiplyMonotone(2 * total, 1001, p);
    }
  }

  /** The average total of `total` students whose totals add up to `sum`, with
      one decimal, in tenths. Totals of 20..100 give an average of 20.0..100.0. */
  function AvgTenths(sum: nat, total: nat): (p: nat)
    requires total > 0
    ensures RoundsTo(p, 10 * sum, total)
    ensures 20 * total <= sum <= 100 * total ==> 200 <= p <= 1000
  {
    var p := RoundedQuotient(10 * sum, total);
    AverageBounds(p, sum, total);
    p
  }

  /** A rounded average of totals in 20..100 lies in 200..1000 tenths. */
  lemma AverageBounds(p: int, sum: nat, total: nat)
    requires total > 0 && RoundsTo(p, 10 * sum, total)
    ensures 20 * total <= sum <= 100 * total ==> 200 <= p <= 1000
  {
    if 20 * total <= sum <= 100 * total {
      if p > 1000 {
        MultiplyMonotone(2 * total, 1001, p);
      }
      if p < 200 {
        MultiplyMonotone(2 * total, p + 1, 200);
      }
    }
  }

  // ---------------------------------------------------------------------
  // One school

  /** The summary of a school with at least one student. */
  function Metrics(name: string, students: seq<StudentRow>): (m: SchoolMetrics)
    requires |students| > 0
    requires forall i :: 0 <= i < |students| ==> ScoredStudent(students[i])
    ensures m.schoolName == name && m.students == students && m.totalStudents == |students|
    ensures RoundsTo(m.avgScore, 10 * SumTotals(students), |students|)
    ensures RoundsTo(m.pctBalanced, 1000 * CountCategory(students, Balanced), |students|)
    ensures RoundsTo(m.pctMild, 1000 * CountCategory(students, Mild), |students|)
    ensures RoundsTo(m.pctMod, 1000 * CountCategory(students, Moderate), |students|)
    ensures RoundsTo(m.pctHigh, 1000 * CountCategory(students, High), |students|)
    ensures RoundsTo(m.pctSevere, 1000 * CountCategory(students, Severe), |students|)
    ensures RoundsTo(m.pctAnxiety, 1000 * CountHigh(students, AnxietyQuestion, false), |students|)
    ensures RoundsTo(m.pctPressure, 1000 * CountHigh(students, PressureQuestion, false), |students|)
    ensures RoundsTo(m.pctSupport, 1000 * CountHigh(students, SupportQuestion, true), |students|)
    ensures 200 <= m.avgScore <= 1000
    ensures 0 <= m.pctBalanced <= 1000 && 0 <= m.pctMild <= 1000 && 0 <= m.pctMod <= 1000
    ensures 0 <= m.pctHigh <= 1000 && 0 <= m.pctSevere <= 1000
    ensures 0 <= m.pctAnxiety <= 1000 && 0 <= m.pctPressure <= 1000 && 0 <= m.pctSupport <= 1000
  {
    var total := |students|;
    SumTotalsBounds(students);
    SchoolMetrics(
      name, total, AvgTenths(SumTotals(students), total),
      PctTenths(CountCategory(students, Balanced), total),
      PctTenths(CountCategory(students, Mild), total),
      PctTenths(CountCategory(students, Moderate), total),
      PctTenths(CountCategory(students, High), total),
      PctTenths(CountCategory(students, Severe), total),
      PctTenths(CountHigh(students, AnxietyQuestion, false), total),
      PctTenths(CountHigh(students, PressureQuestion, false), total),
      PctTenths(CountHigh(students, SupportQuestion, true), total),
      students)
  }

  /** The five band percentages, each rounded on its own, add up to 100% give
      or take 0.2 points. */
  lemma BandPercentagesNearHundred(name: string, students: seq<StudentRow>)
    requires |students| > 0
    requires forall i :: 0 <= i < |students| ==> ScoredStudent(students[i])
    ensures var m := Metrics(name, students);
      998 <= m.pctBalanced + m.pctMild + m.pctMod + m.pctHigh + m.pctSevere <= 1002
  {
    var m := Metrics(name, students);
    CategoriesPartition(students);
    FiveRoundings(|students|,
      CountCategory(students, Balanced), CountCategory(students, Mild),
      CountCategory(students, Moderate), CountCategory(students, High),
      CountCategory(students, Severe),
      m.pctBalanced, m.pctMild, m.pctMod, m.pctHigh, m.pctSevere);
  }

  /** Five shares of a whole, each rounded to tenths of a percent, add up to
      between 99.8% and 100.2%. */
  lemma FiveRoundings(t: int, c1: int, c2: int, c3: int, c4: int, c5: int,
                      p1: int, p2: int, p3: int, p4: int, p5: int)
    requires t > 0 && c1 + c2 + c3 + c4 + c5 == t
    requires RoundsTo(p1, 1000 * c1, t) && RoundsTo(p2, 1000 * c2, t) && RoundsTo(p3, 1000 * c3, t)
    requires RoundsTo(p4, 1000 * c4, t) && RoundsTo(p5, 1000 * c5, t)
    ensures 998 <= p1 + p2 + p3 + p4 + p5 <= 1002
  {
    var s := p1 + p2 + p3 + p4 + p5;
    var k := 2 * t;
    assert k * s == k * p1 + k * p2 + k * p3 + k * p4 + k * p5;
    assert k * s < k * 1003;
    assert k * 997 < k * s;
    MultiplyCancel(k, s, 1003);
    MultiplyCancel(k, 997, s);
  }
}
