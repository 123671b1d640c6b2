/** The records the survey engine produces: one per student and one per school. */
module Types {
  import opened JsValues

  /** The five stress bands, from least to most stressed. */
  datatype StressCategory = Balanced | Mild | Moderate | High | Severe {
    /** The category's name as the application spells it. */
    function Name(): (s: string)
      ensures |s| >= 4
    {
      match this
      case Balanced => "Balanced"
      case Mild => "Mild"
      case Moderate => "Moderate"
      case High => "High"
      case Severe => "Severe"
    }

    /** The position of the category in the order above. */
    function Rank(): (k: nat)
      ensures k < 5 && Categories[k] == this
    {
      match this
      case Balanced => 0
      case Mild => 1
      case Moderate => 2
      case High => 3
      case Severe => 4
    }
  }

  /** Every category, in the order the application lists them. */
  const Categories: seq<StressCategory> := [Balanced, Mild, Moderate, High, Severe]

  /** One data row of the spreadsheet. */
  type Row = seq<Cell>

  /** One surveyed student: the school, the twenty scored answers Q1..Q20, their
      sum and the band of that sum. */
  datatype StudentRow = StudentRow(
    sname: string,
    answers: seq<int>,
    totalScore: int,
    category: StressCategory)

  /** The summary of one school. The average score and the eight percentages
      are held in tenths (`623` stands for 62.3), the one-decimal rounding the
      application applies. */
  datatype SchoolMetrics = SchoolMetrics(
    schoolName: string,
    totalStudents: int,
    avgScore: int,
    pctBalanced: int,
    pctMild: int,
    pctMod: int,
    pctHigh: int,
    pctSevere: int,
    pctAnxiety: int,
    pctPressure: int,
    pctSupport: int,
    students: seq<StudentRow>)
}
