/**
  `parseExcelFile` once the workbook has been read into a grid of rows: the
  header is row 0, the data rows follow. The loops of the original are the
  methods below; each is proved to compute the function `Parse` describes,
  and the lemmas at the end state what `Parse` promises.
*/
module ExcelParser {
  import opened Wrappers
  import opened JsValues
  import opened Types
  import opened ExcelScoring
  import opened ExcelGrouping
  import opened ExcelAggregation

  /** The one error the normaliser raises itself: fewer than two rows. */
  datatype ParseError = NoDataRows

  /** The summary of one map entry that holds rows. */
  function Summary(b: Bucket): (m: SchoolMetrics)
    requires b.rows != []
    ensures m.schoolName == b.name && m.totalStudents == |b.rows|
    ensures m.students == Students(b.name, b.rows)
  {
    Metrics(b.name, Students(b.name, b.rows))
  }

  /** The entries of the map that hold rows, each turned into `f` of it, in
      map order: the results loop, which skips a school without students. */
  function MapFilled<T>(g: seq<Bucket>, f: Bucket --> T): seq<T>
    requires forall b: Bucket :: b.rows != [] ==> f.requires(b)
  {
    if g == [] then []
    else
      var front := MapFilled(g[..|g| - 1], f);
      var b := g[|g| - 1];
      if b.rows == [] then front else front + [f(b)]
  }

  /** The summaries of the map entries in map order. */
  function Summaries(g: seq<Bucket>): seq<SchoolMetrics>
  {
    MapFilled(g, Summary)
  }

  /** The data rows the normaliser groups: the non-empty rows after the header. */
  function DataRows(rows: seq<Row>): (data: seq<Row>)
    requires |rows| >= 1
    ensures |data| < |rows|
    ensures forall k :: 0 <= k < |data| ==> data[k] != [] && data[k] in rows[1..]
    ensures NonEmptyRows(rows) == (if rows[0] == [] then [] else [rows[0]]) + data
  {
    assert rows == [rows[0]] + rows[1..];
    NonEmptyRowsOne(rows[0]);
    NonEmptyRowsAppend([rows[0]], rows[1..]);
    NonEmptyRows(rows[1..])
  }

  /** What `parseExcelFile` resolves with, or rejects with, for a grid. */
  function Parse(rows: seq<Row>): Result<seq<SchoolMetrics>, ParseError>
  {
    if |rows| < 2 then Failure(NoDataRows)
    else Success(Summaries(Group(DataRows(rows), NameKey(NameColumn(rows[0])))))
  }

  // ---------------------------------------------------------------------
  // The loops

  /** The `for (const row of dataRows)` loop that fills `schoolMap`; `schoolName`
      is the name the engine reads from a row (`NameKey`). */
  method GroupRows(dataRows: seq<Row>, schoolName: Row -> string) returns (m: seq<Bucket>)
    ensures m == Group(dataRows, schoolName)
  {
    m := [];
    var i := 0;
    while i < |dataRows|
      invariant 0 <= i <= |dataRows|
      invariant m == Group(dataRows[..i], schoolName)
    {
      var row := dataRows[i];
      assert dataRows[..i + 1][..i] == dataRows[..i] && dataRows[..i + 1][i] == row;
      ghost var before := m;
      i := i + 1;
      var name := schoolName(row);
      if name == "" {
        continue;
      }
      var k := BucketIndex(m, name);
      if k < 0 {
        m := m + [Bucket(name, [])];
        k := |m| - 1;
      }
      m := m[k := Bucket(name, m[k].rows + [row])];
      OpenThenPush(before, name, row);
    }
    assert dataRows[..i] == dataRows;
  }

  /** Opening an empty entry and pushing a row onto it opens the entry with
      that row. */
  lemma OpenThenPush(m: seq<Bucket>, name: string, row: Row)
    ensures (m + [Bucket(name, [])])[|m| := Bucket(name, [] + [row])] == m + [Bucket(name, [row])]
  {
    assert [] + [row] == [row];
  }

  /** One of the `for` loops that score a row: the cells of columns
      `from..to - 1`, each scored with `score`. */
  method ScoreColumns(row: Row, from: nat, to: nat, score: Cell -> int) returns (xs: seq<int>)
    requires from <= to
    ensures |xs| == to - from
    ensures forall k :: 0 <= k < |xs| ==> xs[k] == score(CellAt(row, from + k))
  {
    xs := [];
    for i := from to to
      invariant |xs| == i - from
      invariant forall k :: 0 <= k < |xs| ==> xs[k] == score(CellAt(row, from + k))
    {
      xs := xs + [score(CellAt(row, i))];
    }
  }

  /** The two loops that score one row: Q1..Q16 from columns 8..23 as they
      stand, Q17..Q20 from columns 24..27 reversed. */
  method BuildAnswers(row: Row) returns (answers: seq<int>)
    ensures answers == Answers(row)
  {
    var direct := ScoreColumns(row, 8, 24, ClampScore);
    var reversed := ScoreColumns(row, 24, 28, c => ReverseScore(ClampScore(c)));
    answers := direct + reversed;
    ColumnsGiveAnswers(row, direct, reversed);
  }

  /** The clamped cells of columns 8..23 followed by the reversed clamped
      cells of columns 24..27 are the row's twenty stored answers. */
  lemma ColumnsGiveAnswers(row: Row, direct: seq<int>, reversed: seq<int>)
    requires |direct| == 16 && |reversed| == 4
    requires forall k :: 0 <= k < 16 ==> direct[k] == ClampScore(CellAt(row, 8 + k))
    requires forall k :: 0 <= k < 4 ==> reversed[k] == ReverseScore(ClampScore(CellAt(row, 24 + k)))
    ensures direct + reversed == Answers(row)
  {
    var answers := direct + reversed;
    forall q | 0 <= q < QuestionCount
      ensures answers[q] == Answers(row)[q]
    {
      assert QuestionCell(row, q) == CellAt(row, 8 + q);
      if q < 16 {
        assert answers[q] == direct[q];
      } else {
        assert answers[q] == reversed[q - 16];
      }
    }
  }

  /** The `for (const row of schoolRows)` loop that builds a school's student
      records. */
  method BuildStudents(name: string, schoolRows: seq<Row>) returns (students: seq<StudentRow>)
    ensures students == Students(name, schoolRows)
  {
    ghost var all := Students(name, schoolRows);
    students := [];
    for i := 0 to |schoolRows|
      invariant students == all[..i]
    {
      var answers := BuildAnswers(schoolRows[i]);
      var totalScore := Sum(answers);
      var student := StudentRow(name, answers, totalScore, GetCategory(totalScore));
      assert student == all[i];
      assert all[..i + 1] == all[..i] + [all[i]];
      students := students + [student];
    }
    assert all[..|schoolRows|] == all;
  }

  /** The body of `parseExcelFile` from the grid on. */
  method ParseGrid(rows: seq<Row>) returns (r: Result<seq<SchoolMetrics>, ParseError>)
    ensures r == Parse(rows)
  {
    if |rows| < 2 {
      return Failure(NoDataRows);
    }
    var dataRows := NonEmptyRows(rows[1..]);
    var nameColIdx := NameColumn(rows[0]);
    var schoolMap := GroupRows(dataRows, NameKey(nameColIdx));
    var results := BuildResults(schoolMap);
    return Success(results);
  }

  /** The `for (const [schoolName, schoolRows] of schoolMap)` loop. */
  method BuildResults(schoolMap: seq<Bucket>) returns (results: seq<SchoolMetrics>)
    ensures results == Summaries(schoolMap)
  {
    results := [];
    var i := 0;
    while i < |schoolMap|
      invariant 0 <= i <= |schoolMap|
      invariant results == MapFilled(schoolMap[..i], Summary)
    {
      var entry := schoolMap[i];
      assert schoolMap[..i + 1][..i] == schoolMap[..i];
      i := i + 1;
      var students := BuildStudents(entry.name, entry.rows);
      if |students| == 0 {
        continue;
      }
      results := results + [Metrics(entry.name, students)];
    }
    assert schoolMap[..i] == schoolMap;
  }

  // ---------------------------------------------------------------------
  // What Parse promises

  /** The grid is rejected exactly when it has no row after the header. */
  lemma ParseRejectsShortGrids(rows: seq<Row>)
    ensures Parse(rows).Failure? <==> |rows| < 2
  {
  }

  /** A header followed by empty rows only gives no schools at all. */
  lemma ParseBlankData(rows: seq<Row>)
    requires |rows| >= 2 && forall k :: 1 <= k < |rows| ==> rows[k] == []
    ensures Parse(rows) == Success([])
  {
    assert forall k :: 0 <= k < |rows[1..]| ==> rows[1..][k] == [];
  }

  /** When every map entry holds rows, as the grouping guarantees, each gives
      exactly one result, in map order. */
  lemma {:induction false} MapFilledOfEntries<T>(g: seq<Bucket>, f: Bucket --> T)
    requires forall b: Bucket :: b.rows != [] ==> f.requires(b)
    requires NamedEntries(g)
    ensures |MapFilled(g, f)| == |g|
    ensures forall i :: 0 <= i < |g| ==> MapFilled(g, f)[i] == f(g[i])
  {
    if g != [] {
      var front := g[..|g| - 1];
      assert NamedEntries(front) by {
        assert forall k :: 0 <= k < |front| ==> front[k] == g[k];
      }
      MapFilledOfEntries(front, f);
      assert forall k :: 0 <= k < |front| ==> front[k] == g[k];
    }
  }

  /** Each map entry's summary names the entry's school, counts its rows and
      holds one student record per row. */
  lemma SummariesFields(g: seq<Bucket>)
    requires NamedEntries(g)
    ensures |Summaries(g)| == |g|
    ensures forall i :: 0 <= i < |g| ==>
      && Summaries(g)[i].schoolName == g[i].name
      && Summaries(g)[i].totalStudents == |g[i].rows|
      && Summaries(g)[i].students == Students(g[i].name, g[i].rows)
  {
    MapFilledOfEntries(g, Summary);
  }

  /** The number of students over all schools. */
  function TotalStudents(res: seq<SchoolMetrics>): int
  {
    if res == [] then 0 else TotalStudents(res[..|res| - 1]) + res[|res| - 1].totalStudents
  }

  lemma {:induction false} TotalStudentsOfEntries(res: seq<SchoolMetrics>, g: seq<Bucket>)
    requires |res| == |g| && forall i :: 0 <= i < |g| ==> res[i].totalStudents == |g[i].rows|
    ensures TotalStudents(res) == TotalRows(g)
  {
    if g != [] {
      TotalStudentsOfEntries(res[..|res| - 1], g[..|g| - 1]);
    }
  }

  /** The schools of a grouping: one summary per distinct non-empty name, each
      holding the records of exactly the rows of that name, in row order. */
  lemma GroupedSchools(data: seq<Row>, key: Row -> string)
    ensures var res := Summaries(Group(data, key));
      && (forall i :: 0 <= i < |res| ==>
            && res[i].schoolName != ""
            && res[i].totalStudents == |RowsNamed(data, key, res[i].schoolName)| >= 1
            && res[i].students == Students(res[i].schoolName, RowsNamed(data, key, res[i].schoolName)))
      && (forall i, j :: 0 <= i < j < |res| ==> res[i].schoolName != res[j].schoolName)
      && (forall k :: 0 <= k < |data| && key(data[k]) != "" ==>
            exists i :: 0 <= i < |res| && res[i].schoolName == key(data[k]))
  {
    var g := Group(data, key);
    GroupFactsHold(data, key);
    SummariesFields(g);
    var res := Summaries(g);
    forall k | 0 <= k < |data| && key(data[k]) != ""
      ensures exists i :: 0 <= i < |res| && res[i].schoolName == key(data[k])
    {
      var i := BucketIndex(g, key(data[k]));
      assert res[i].schoolName == key(data[k]);
    }
  }

  /** Schools come out in the order their first rows appear, and together
      they hold every row whose name is not empty. */
  lemma GroupedOrder(data: seq<Row>, key: Row -> string)
    ensures var res := Summaries(Group(data, key));
      && (forall i, j :: 0 <= i < j < |res| ==>
            FirstRow(data, key, res[i].schoolName) < FirstRow(data, key, res[j].schoolName))
      && TotalStudents(res) == |Retained(data, key)|
  {
    var g := Group(data, key);
    GroupFactsHold(data, key);
    SummariesFields(g);
    TotalStudentsOfEntries(Summaries(g), g);
  }

  /** What the normaliser resolves with for a grid of at least two rows, with
      `data` its non-empty data rows and `name` the name it reads from a row. */
  lemma ParseSchools(rows: seq<Row>)
    requires |rows| >= 2
    ensures Parse(rows).Success?
    ensures var res := Parse(rows).value;
      var data := DataRows(rows);
      var name := NameKey(NameColumn(rows[0]));
      && (forall i :: 0 <= i < |res| ==>
            && res[i].schoolName != ""
            && res[i].totalStudents == |RowsNamed(data, name, res[i].schoolName)| >= 1
            && res[i].students == Students(res[i].schoolName, RowsNamed(data, name, res[i].schoolName)))
      && (forall i, j :: 0 <= i < j < |res| ==> res[i].schoolName != res[j].schoolName)
      && (forall k :: 0 <= k < |data| && name(data[k]) != "" ==>
            exists i :: 0 <= i < |res| && res[i].schoolName == name(data[k]))
      && (forall i, j :: 0 <= i < j < |res| ==>
            FirstRow(data, name, res[i].schoolName) < FirstRow(data, name, res[j].schoolName))
      && TotalStudents(res) == |Retained(data, name)|
  {
    GroupedSchools(DataRows(rows), NameKey(NameColumn(rows[0])));
    GroupedOrder(DataRows(rows), NameKey(NameColumn(rows[0])));
  }

  /** The figures of a school summary `m` built from `schoolRows`: the
      average lies in 20.0..100.0, every percentage in 0..100.0, the band
      percentages add up to 100% give or take 0.2 points, and the three
      indicators count the rows whose Q1, Q5 and Q19 cells read Often or
      Always. */
  ghost predicate FiguresOf(m: SchoolMetrics, schoolRows: seq<Row>) {
    && |schoolRows| == m.totalStudents > 0
    && 200 <= m.avgScore <= 1000
    && 0 <= m.pctBalanced <= 1000 && 0 <= m.pctMild <= 1000 && 0 <= m.pctMod <= 1000
    && 0 <= m.pctHigh <= 1000 && 0 <= m.pctSevere <= 1000
    && 998 <= m.pctBalanced + m.pctMild + m.pctMod + m.pctHigh + m.pctSevere <= 1002
    && RoundsTo(m.pctAnxiety, 1000 * CountRaw(schoolRows, AnxietyQuestion), |schoolRows|)
    && RoundsTo(m.pctPressure, 1000 * CountRaw(schoolRows, PressureQuestion), |schoolRows|)
    && RoundsTo(m.pctSupport, 1000 * CountRaw(schoolRows, SupportQuestion), |schoolRows|)
  }

  /** The summary of a school's rows has those figures. */
  lemma SummaryFigures(b: Bucket)
    requires b.rows != []
    ensures FiguresOf(Summary(b), b.rows)
  {
    var students := Students(b.name, b.rows);
    BandPercentagesNearHundred(b.name, students);
    IndicatorReadsSheet(b.name, b.rows, AnxietyQuestion);
    IndicatorReadsSheet(b.name, b.rows, PressureQuestion);
    IndicatorReadsSheet(b.name, b.rows, SupportQuestion);
  }

  /** Every school of a grouping has the figures of the rows of its name. */
  lemma GroupedFigures(data: seq<Row>, key: Row -> string, i: nat)
    requires i < |Summaries(Group(data, key))|
    ensures var m := Summaries(Group(data, key))[i];
      FiguresOf(m, RowsNamed(data, key, m.schoolName))
  {
    var g := Group(data, key);
    GroupFactsHold(data, key);
    MapFilledOfEntries(g, Summary);
    SummaryFigures(g[i]);
  }

  /** Every school the normaliser resolves with has the figures of the data
      rows of its name. */
  lemma ParseFigures(rows: seq<Row>, i: nat)
    requires |rows| >= 2 && i < |Parse(rows).value|
    ensures var m := Parse(rows).value[i];
      FiguresOf(m, RowsNamed(DataRows(rows), NameKey(NameColumn(rows[0])), m.schoolName))
  {
    GroupedFigures(DataRows(rows), NameKey(NameColumn(rows[0])), i);
  }
}
