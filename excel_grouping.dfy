/**
  The first half of the survey engine's normaliser: locating the school-name
  column, dropping empty rows, and grouping the data rows by trimmed school
  name in the order the schools first appear (the `schoolMap` of
  src/lib/excel-parser.ts).
*/
module ExcelGrouping {
  import opened JsValues
  import opened Types

  // ---------------------------------------------------------------------
  // The school-name column

  /** A header cell as the engine compares it: `String(h).toLowerCase().trim()`. */
  function HeaderLabel(h: Cell): string
  {
    Trim(ToLower(ToText(h)))
  }

  /** `rows[0].map(...)`: the header row as labels. */
  function HeaderLabels(header: seq<Cell>): seq<string>
  {
    seq(|header|, k requires 0 <= k < |header| => HeaderLabel(header[k]))
  }

  /** The labels that mark the school-name column. */
  predicate IsSchoolLabel(t: string) {
    t == "sname" || t == "school name" || t == "school"
  }

  /** Only a text header cell can mark the name column: a number's label ends
      in a digit and a missing cell's label is "undefined". */
  lemma NonTextHeaderIsNoLabel(h: Cell)
    ensures !h.Str? ==> !IsSchoolLabel(HeaderLabel(h))
  {
    match h
    case Num(v) => NumberLabel(v);
    case Str(_) =>
    case Empty => PlainLabel(ToText(h));
  }

  lemma NumberLabel(v: real)
    ensures !IsSchoolLabel(Trim(ToLower(NumberText(v))))
  {
    var s := NumberText(v);
    var low := ToLower(s);
    assert low[0] == LowerChar(s[0]) == s[0];
    assert low[|low| - 1] == LowerChar(s[|s| - 1]) == s[|s| - 1];
    TrimUnchanged(low);
    assert IsDigit(low[|low| - 1]);
  }

  /** A text that starts and ends with a character that is neither white
      space nor an upper-case letter, and whose length is none of the labels'
      lengths, marks no column. */
  lemma PlainLabel(s: string)
    requires s != [] && !IsWhiteSpace(s[0]) && !IsWhiteSpace(s[|s| - 1])
    requires !('A' <= s[0] <= 'Z') && !('A' <= s[|s| - 1] <= 'Z')
    requires |s| != |"sname"| && |s| != |"school"| && |s| != |"school name"|
    ensures !IsSchoolLabel(Trim(ToLower(s)))
  {
    var low := ToLower(s);
    assert low[0] == s[0] && low[|low| - 1] == s[|s| - 1];
    TrimUnchanged(low);
    var t := Trim(low);
    assert |t| == |s|;
    assert t != "sname" && t != "school" && t != "school name";
  }

  /** `header.findIndex(...)`: the first column whose label marks the school
      name, or -1 when there is none. */
  function FindSchoolLabel(labels: seq<string>): (r: int)
    ensures -1 <= r < |labels|
    ensures r == -1 <==> forall k :: 0 <= k < |labels| ==> !IsSchoolLabel(labels[k])
    ensures r >= 0 ==> IsSchoolLabel(labels[r])
    ensures forall k :: 0 <= k < r ==> !IsSchoolLabel(labels[k])
  {
    if labels == [] then -1
    else if IsSchoolLabel(labels[0]) then 0
    else
      var r := FindSchoolLabel(labels[1..]);
      if r < 0 then -1 else r + 1
  }

  /** The column the school name is read from: the first labelled column, or
      column 0 when no header cell carries one of the labels. */
  function NameColumn(header: seq<Cell>): (col: nat)
    ensures var labels := HeaderLabels(header);
      && ((forall k :: 0 <= k < |labels| ==> !IsSchoolLabel(labels[k])) ==> col == 0)
      && ((exists k :: 0 <= k < |labels| && IsSchoolLabel(labels[k])) ==>
            col < |labels| && IsSchoolLabel(labels[col])
            && forall k :: 0 <= k < col ==> !IsSchoolLabel(labels[k]))
  {
    var k := FindSchoolLabel(HeaderLabels(header));
    if k >= 0 then k else 0
  }

  // ---------------------------------------------------------------------
  // The school name of a row

  /** `String(row[col] || 'Unknown').trim()`. */
  function SchoolName(row: Row, col: nat): (name: string)
  {
    var c := CellAt(row, col);
    Trim(if IsFalsy(c) then "Unknown" else ToText(c))
  }

  /** A missing, empty or zero name cell names the school "Unknown". */
  lemma SchoolNameFalsy(row: Row, col: nat)
    requires IsFalsy(CellAt(row, col))
    ensures SchoolName(row, col) == "Unknown"
  {
    TrimUnchanged("Unknown");
  }

  /** A non-empty text name is trimmed. */
  lemma SchoolNameText(row: Row, col: nat)
    requires CellAt(row, col).Str? && CellAt(row, col).text != ""
    ensures SchoolName(row, col) == Trim(CellAt(row, col).text)
  {
  }

  /** A non-zero number names the school by its numeral. */
  lemma SchoolNameNumber(row: Row, col: nat)
    requires CellAt(row, col).Num? && CellAt(row, col).value != 0.0
    ensures SchoolName(row, col) == NumberText(CellAt(row, col).value)
    ensures SchoolName(row, col) != ""
  {
    TrimUnchanged(NumberText(CellAt(row, col).value));
  }

  /** The name comes out empty exactly when the cell is a non-empty string of
      white space only; every other row keeps a name. */
  lemma SchoolNameEmpty(row: Row, col: nat)
    ensures SchoolName(row, col) == "" <==>
      var c := CellAt(row, col);
      c.Str? && c.text != [] && forall k :: 0 <= k < |c.text| ==> IsWhiteSpace(c.text[k])
  {
    var c := CellAt(row, col);
    if IsFalsy(c) {
      SchoolNameFalsy(row, col);
    } else if c.Num? {
      SchoolNameNumber(row, col);
    }
  }

  // ---------------------------------------------------------------------
  // Data rows

  /** `rows.filter(r => r && r.length > 0)`: the rows that hold at least one cell, in order. */
  function NonEmptyRows(rows: seq<Row>): (r: seq<Row>)
    ensures |r| <= |rows|
    ensures forall k :: 0 <= k < |r| ==> r[k] != [] && r[k] in rows
    ensures forall k :: 0 <= k < |rows| && rows[k] != [] ==> rows[k] in r
    ensures (forall k :: 0 <= k < |rows| ==> rows[k] == []) ==> r == []
  {
    if rows == [] then []
    else
      var front := NonEmptyRows(rows[..|rows| - 1]);
      var last := rows[|rows| - 1];
      assert forall k :: 0 <= k < |rows| - 1 ==> rows[k] == rows[..|rows| - 1][k];
      if last == [] then front else front + [last]
  }

  /** One row is kept exactly when it holds a cell. */
  lemma NonEmptyRowsOne(row: Row)
    ensures NonEmptyRows([row]) == if row == [] then [] else [row]
  {
    assert [row][..0] == [];
  }

  /** The filter works row by row: filtering a concatenation concatenates the
      filtered parts, so the kept rows keep their input order and their
      repetitions. */
  lemma {:induction false} NonEmptyRowsAppend(a: seq<Row>, b: seq<Row>)
    ensures NonEmptyRows(a + b) == NonEmptyRows(a) + NonEmptyRows(b)
    decreases |b|
  {
    if b == [] {
      assert a + b == a;
    } else {
      var b' := b[..|b| - 1];
      var last := b[|b| - 1];
      assert b == b' + [last];
      assert a + b == (a + b') + [last];
      NonEmptyRowsSnoc(a + b', last);
      NonEmptyRowsSnoc(b', last);
      NonEmptyRowsAppend(a, b');
    }
  }

  /** Adding one row at the end keeps what was kept and adds the row when it
      holds a cell. */
  lemma NonEmptyRowsSnoc(rows: seq<Row>, row: Row)
    ensures NonEmptyRows(rows + [row]) == NonEmptyRows(rows) + (if row == [] then [] else [row])
  {
    var all := rows + [row];
    assert all[..|all| - 1] == rows;
  }

  // ---------------------------------------------------------------------
  // The school map

  /** The key the engine groups a row by, for the school-name column `col`. */
  function NameKey(col: nat): Row -> string {
    row => SchoolName(row, col)
  }

  /** One entry of `schoolMap`: a school name and its rows in input order. */
  datatype Bucket = Bucket(name: string, rows: seq<Row>)

  /** The entry of `schoolMap` for `name`, or -1 when there is none
      (`schoolMap.has` / `schoolMap.get`). */
  function BucketIndex(m: seq<Bucket>, name: string): (k: int)
    ensures -1 <= k < |m|
    ensures k >= 0 ==> m[k].name == name
    ensures k < 0 <==> forall j :: 0 <= j < |m| ==> m[j].name != name
    ensures forall j :: 0 <= j < k ==> m[j].name != name
  {
    if m == [] then -1
    else if m[0].name == name then 0
    else
      var k := BucketIndex(m[1..], name);
      if k < 0 then -1 else k + 1
  }

  /** One step of the grouping loop: skip a row whose name is empty, open an
      entry for a school seen for the first time, append the row to its
      school's entry. */
  function AddRow(m: seq<Bucket>, row: Row, key: Row -> string): seq<Bucket>
  {
    var name := key(row);
    if name == "" then m
    else
      var k := BucketIndex(m, name);
      if k < 0 then m + [Bucket(name, [row])]
      else m[k := Bucket(name, m[k].rows + [row])]
  }

  /** The school map after the grouping loop has seen `rows`. */
  function Group(rows: seq<Row>, key: Row -> string): seq<Bucket>
  {
    if rows == [] then []
    else AddRow(Group(rows[..|rows| - 1], key), rows[|rows| - 1], key)
  }

  // ---------------------------------------------------------------------
  // Independent descriptions of the grouping

  /** The rows named `name`, in input order. */
  function RowsNamed(rows: seq<Row>, key: Row -> string, name: string): (r: seq<Row>)
    ensures |r| <= |rows|
    ensures forall k :: 0 <= k < |r| ==> key(r[k]) == name
  {
    if rows == [] then []
    else
      var front := RowsNamed(rows[..|rows| - 1], key, name);
      if key(rows[|rows| - 1]) == name then front + [rows[|rows| - 1]] else front
  }

  /** The rows whose name is not empty, in input order. */
  function Retained(rows: seq<Row>, key: Row -> string): (r: seq<Row>)
    ensures |r| <= |rows|
    ensures forall k :: 0 <= k < |r| ==> key(r[k]) != ""
  {
    if rows == [] then []
    else
      var front := Retained(rows[..|rows| - 1], key);
      if key(rows[|rows| - 1]) != "" then front + [rows[|rows| - 1]] else front
  }

  /** The position of the first row named `name`, or `|rows|` when there is
      none (see `FirstRowIsFirst`). */
  function FirstRow(rows: seq<Row>, key: Row -> string, name: string): (r: nat)
    ensures r <= |rows|
  {
    if rows == [] then 0
    else
      var front := rows[..|rows| - 1];
      var r := FirstRow(front, key, name);
      if r < |front| then r
      else if key(rows[|rows| - 1]) == name then |front|
      else |rows|
  }

  /** `FirstRow` names the first row with that name, and only no such row
      gives `|rows|`. */
  lemma {:induction false} FirstRowIsFirst(rows: seq<Row>, key: Row -> string, name: string)
    ensures var r := FirstRow(rows, key, name);
      && (r < |rows| ==> key(rows[r]) == name)
      && (forall j :: 0 <= j < r ==> key(rows[j]) != name)
  {
    if rows != [] {
      var front := rows[..|rows| - 1];
      FirstRowIsFirst(front, key, name);
      assert forall j :: 0 <= j < |front| ==> rows[j] == front[j];
    }
  }

  /** How many rows the school map holds in all. */
  function TotalRows(m: seq<Bucket>): nat
  {
    if m == [] then 0 else TotalRows(m[..|m| - 1]) + |m[|m| - 1].rows|
  }

  /** What the grouping loop guarantees about the map `g` it has built from
      `rows`: one entry per distinct non-empty name; each entry holds exactly
      the rows of that name in input order; every named row is in some entry;
      together the entries hold the named rows; entries appear in the order
      their first rows do. */
  ghost predicate GroupFacts(rows: seq<Row>, key: Row -> string, g: seq<Bucket>) {
    && DistinctNames(g)
    && NamedEntries(g)
    && EntriesAreFilters(rows, key, g)
    && CoversRows(rows, key, g)
    && TotalRows(g) == |Retained(rows, key)|
    && FirstSeenOrder(rows, key, g)
  }

  ghost predicate DistinctNames(g: seq<Bucket>) {
    forall i, j :: 0 <= i < j < |g| ==> g[i].name != g[j].name
  }

  ghost predicate NamedEntries(g: seq<Bucket>) {
    forall k :: 0 <= k < |g| ==> g[k].name != "" && g[k].rows != []
  }

  ghost predicate EntriesAreFilters(rows: seq<Row>, key: Row -> string, g: seq<Bucket>) {
    forall k :: 0 <= k < |g| ==> g[k].rows == RowsNamed(rows, key, g[k].name)
  }

  ghost predicate CoversRows(rows: seq<Row>, key: Row -> string, g: seq<Bucket>) {
    forall i :: 0 <= i < |rows| && key(rows[i]) != "" ==> BucketIndex(g, key(rows[i])) >= 0
  }

  ghost predicate FirstSeenOrder(rows: seq<Row>, key: Row -> string, g: seq<Bucket>) {
    forall i, j :: 0 <= i < j < |g| ==> FirstRow(rows, key, g[i].name) < FirstRow(rows, key, g[j].name)
  }

  lemma {:induction false} RowsNamedNone(rows: seq<Row>, key: Row -> string, name: string)
    requires forall i :: 0 <= i < |rows| ==> key(rows[i]) != name
    ensures RowsNamed(rows, key, name) == []
  {
    if rows != [] {
      RowsNamedNone(rows[..|rows| - 1], key, name);
    }
  }

  lemma {:induction false} TotalRowsUpdate(m: seq<Bucket>, k: nat, b: Bucket)
    requires k < |m|
    ensures TotalRows(m[k := b]) == TotalRows(m) - |m[k].rows| + |b.rows|
  {
    if k < |m| - 1 {
      assert m[k := b][..|m| - 1] == m[..|m| - 1][k := b];
      TotalRowsUpdate(m[..|m| - 1], k, b);
    } else {
      assert m[k := b][..|m| - 1] == m[..|m| - 1];
    }
  }

  lemma TotalRowsAppend(m: seq<Bucket>, b: Bucket)
    ensures TotalRows(m + [b]) == TotalRows(m) + |b.rows|
  {
    assert (m + [b])[..|m|] == m;
  }

  /** The grouping loop keeps `GroupFacts`. */
  lemma {:induction false} GroupFactsHold(rows: seq<Row>, key: Row -> string)
    ensures GroupFacts(rows, key, Group(rows, key))
  {
    if rows != [] {
      var front := rows[..|rows| - 1];
      GroupFactsHold(front, key);
      AddRowKeepsFacts(front, rows[|rows| - 1], key);
      assert front + [rows[|rows| - 1]] == rows;
    }
  }

  lemma RowsNamedAppend(rows: seq<Row>, row: Row, key: Row -> string, n: string)
    ensures RowsNamed(rows + [row], key, n) == RowsNamed(rows, key, n) + (if key(row) == n then [row] else [])
  {
    assert (rows + [row])[..|rows|] == rows;
  }

  lemma RetainedAppend(rows: seq<Row>, row: Row, key: Row -> string)
    ensures Retained(rows + [row], key) == Retained(rows, key) + (if key(row) != "" then [row] else [])
  {
    assert (rows + [row])[..|rows|] == rows;
  }

  lemma FirstRowAppend(rows: seq<Row>, row: Row, key: Row -> string, n: string)
    ensures FirstRow(rows + [row], key, n) ==
      if FirstRow(rows, key, n) < |rows| then FirstRow(rows, key, n)
      else if key(row) == n then |rows| else |rows| + 1
  {
    assert (rows + [row])[..|rows|] == rows;
  }

  /** A name already seen keeps its first row when a row is appended. */
  lemma FirstRowAppendSeen(rows: seq<Row>, rows': seq<Row>, row: Row, key: Row -> string, n: string)
    requires rows' == rows + [row] && FirstRow(rows, key, n) < |rows|
    ensures FirstRow(rows', key, n) == FirstRow(rows, key, n)
  {
    FirstRowAppend(rows, row, key, n);
  }

  /** A name seen for the first time in an appended row has that row first. */
  lemma FirstRowAppendNew(rows: seq<Row>, rows': seq<Row>, row: Row, key: Row -> string)
    requires rows' == rows + [row] && FirstRow(rows, key, key(row)) == |rows|
    ensures FirstRow(rows', key, key(row)) == |rows|
  {
    FirstRowAppend(rows, row, key, key(row));
  }

  lemma AddRowKeepsFacts(rows: seq<Row>, row: Row, key: Row -> string)
    requires GroupFacts(rows, key, Group(rows, key))
    ensures GroupFacts(rows + [row], key, AddRow(Group(rows, key), row, key))
  {
    var g := Group(rows, key);
    forall j | 0 <= j < |g| ensures FirstRow(rows, key, g[j].name) < |rows| {
      var i := FirstRowOfBucket(rows, key, g, j);
    }
    RetainedAppend(rows, row, key);
    var name := key(row);
    if name == "" {
      SkipKeepsFacts(rows, row, key, g);
    } else if BucketIndex(g, name) < 0 {
      OpenKeepsFacts(rows, row, key, g);
    } else {
      AppendKeepsFacts(rows, row, key, g, BucketIndex(g, name));
    }
  }

  lemma SkipKeepsFacts(rows: seq<Row>, row: Row, key: Row -> string, g: seq<Bucket>)
    requires GroupFacts(rows, key, g) && key(row) == ""
    requires forall j :: 0 <= j < |g| ==> FirstRow(rows, key, g[j].name) < |rows|
    requires Retained(rows + [row], key) == Retained(rows, key)
    ensures GroupFacts(rows + [row], key, g)
  {
    var rows' := rows + [row];
    SkipKeepsFilters(rows, rows', row, key, g);
    OrderKept(rows, rows', row, key, g, g);
    SkipKeepsCover(rows, rows', row, key, g);
  }

  lemma SkipKeepsFilters(rows: seq<Row>, rows': seq<Row>, row: Row, key: Row -> string, g: seq<Bucket>)
    requires EntriesAreFilters(rows, key, g) && NamedEntries(g) && key(row) == "" && rows' == rows + [row]
    ensures EntriesAreFilters(rows', key, g)
  {
    forall k | 0 <= k < |g| ensures g[k].rows == RowsNamed(rows', key, g[k].name) {
      RowsNamedAppend(rows, row, key, g[k].name);
    }
  }

  lemma SkipKeepsCover(rows: seq<Row>, rows': seq<Row>, row: Row, key: Row -> string, g: seq<Bucket>)
    requires CoversRows(rows, key, g) && key(row) == "" && rows' == rows + [row]
    ensures CoversRows(rows', key, g)
  {
    forall i | 0 <= i < |rows'| && key(rows'[i]) != "" ensures BucketIndex(g, key(rows'[i])) >= 0 {
      assert i < |rows| && rows'[i] == rows[i];
    }
  }

  /** A step that keeps the names of the entries keeps their order, as every
      entry's first row stays where it was. */
  lemma OrderKept(rows: seq<Row>, rows': seq<Row>, row: Row, key: Row -> string, g: seq<Bucket>, g': seq<Bucket>)
    requires FirstSeenOrder(rows, key, g) && rows' == rows + [row]
    requires forall j :: 0 <= j < |g| ==> FirstRow(rows, key, g[j].name) < |rows|
    requires |g'| == |g| && forall j :: 0 <= j < |g| ==> g'[j].name == g[j].name
    ensures FirstSeenOrder(rows', key, g')
  {
    forall i, j | 0 <= i < j < |g'|
      ensures FirstRow(rows', key, g'[i].name) < FirstRow(rows', key, g'[j].name)
    {
      FirstRowAppendSeen(rows, rows', row, key, g[i].name);
      FirstRowAppendSeen(rows, rows', row, key, g[j].name);
    }
  }

  lemma OpenKeepsFacts(rows: seq<Row>, row: Row, key: Row -> string, g: seq<Bucket>)
    requires GroupFacts(rows, key, g) && key(row) != "" && BucketIndex(g, key(row)) < 0
    requires forall j :: 0 <= j < |g| ==> FirstRow(rows, key, g[j].name) < |rows|
    requires Retained(rows + [row], key) == Retained(rows, key) + [row]
    ensures GroupFacts(rows + [row], key, g + [Bucket(key(row), [row])])
  {
    var rows' := rows + [row];
    var name := key(row);
    var g' := g + [Bucket(name, [row])];
    OpenKeepsNames(g, g', name, row);
    assert forall i :: 0 <= i < |rows| ==> key(rows[i]) != name;
    OpenKeepsFilters(rows, rows', row, key, g, g');
    TotalRowsAppend(g, Bucket(name, [row]));
    FirstRowIsFirst(rows, key, name);
    OpenKeepsOrder(rows, row, key, g);
    OpenKeepsCover(rows, rows', row, key, g, g');
  }

  lemma OpenKeepsNames(g: seq<Bucket>, g': seq<Bucket>, name: string, row: Row)
    requires DistinctNames(g) && NamedEntries(g) && name != ""
    requires BucketIndex(g, name) < 0 && g' == g + [Bucket(name, [row])]
    ensures DistinctNames(g') && NamedEntries(g')
  {
    forall i, j | 0 <= i < j < |g'| ensures g'[i].name != g'[j].name {
      if j == |g| { assert g'[i] == g[i]; }
    }
  }

  lemma OpenKeepsFilters(rows: seq<Row>, rows': seq<Row>, row: Row, key: Row -> string, g: seq<Bucket>, g': seq<Bucket>)
    requires EntriesAreFilters(rows, key, g) && g' == g + [Bucket(key(row), [row])] && rows' == rows + [row]
    requires forall i :: 0 <= i < |rows| ==> key(rows[i]) != key(row)
    requires BucketIndex(g, key(row)) < 0
    ensures EntriesAreFilters(rows', key, g')
  {
    RowsNamedNone(rows, key, key(row));
    forall k | 0 <= k < |g'| ensures g'[k].rows == RowsNamed(rows', key, g'[k].name) {
      RowsNamedAppend(rows, row, key, g'[k].name);
    }
  }

  lemma OpenKeepsCover(rows: seq<Row>, rows': seq<Row>, row: Row, key: Row -> string, g: seq<Bucket>, g': seq<Bucket>)
    requires CoversRows(rows, key, g) && g' == g + [Bucket(key(row), [row])] && rows' == rows + [row]
    ensures CoversRows(rows', key, g')
  {
    forall i | 0 <= i < |rows'| && key(rows'[i]) != "" ensures BucketIndex(g', key(rows'[i])) >= 0 {
      if i < |rows| {
        var k0 := BucketIndex(g, key(rows[i]));
        assert g'[k0].name == key(rows[i]);
      } else {
        assert g'[|g|].name == key(row);
      }
    }
  }

  lemma OpenKeepsOrder(rows: seq<Row>, row: Row, key: Row -> string, g: seq<Bucket>)
    requires FirstSeenOrder(rows, key, g)
    requires forall j :: 0 <= j < |g| ==> FirstRow(rows, key, g[j].name) < |rows|
    requires FirstRow(rows, key, key(row)) == |rows|
    ensures FirstSeenOrder(rows + [row], key, g + [Bucket(key(row), [row])])
  {
    var rows' := rows + [row];
    var g' := g + [Bucket(key(row), [row])];
    OpenFirstRows(rows, rows', row, key, g, g');
    OrderExtends(rows, rows', key, g, g');
  }

  lemma OpenFirstRows(rows: seq<Row>, rows': seq<Row>, row: Row, key: Row -> string, g: seq<Bucket>, g': seq<Bucket>)
    requires rows' == rows + [row] && g' == g + [Bucket(key(row), [row])]
    requires forall j :: 0 <= j < |g| ==> FirstRow(rows, key, g[j].name) < |rows|
    requires FirstRow(rows, key, key(row)) == |rows|
    ensures forall j :: 0 <= j < |g'| ==>
      FirstRow(rows', key, g'[j].name) == if j < |g| then FirstRow(rows, key, g[j].name) else |rows|
  {
    forall j | 0 <= j < |g'|
      ensures FirstRow(rows', key, g'[j].name) == if j < |g| then FirstRow(rows, key, g[j].name) else |rows|
    {
      if j < |g| {
        assert g'[j] == g[j];
        FirstRowAppendSeen(rows, rows', row, key, g[j].name);
      } else {
        FirstRowAppendNew(rows, rows', row, key);
      }
    }
  }

  /** Appending an entry whose first row comes after every other entry's
      keeps the entries in first-seen order. */
  lemma OrderExtends(rows: seq<Row>, rows': seq<Row>, key: Row -> string, g: seq<Bucket>, g': seq<Bucket>)
    requires FirstSeenOrder(rows, key, g)
    requires |g'| == |g| + 1
    requires forall j :: 0 <= j < |g| ==> FirstRow(rows, key, g[j].name) < |rows|
    requires forall j :: 0 <= j < |g'| ==>
      FirstRow(rows', key, g'[j].name) == if j < |g| then FirstRow(rows, key, g[j].name) else |rows|
    ensures FirstSeenOrder(rows', key, g')
  {
    forall i, j | 0 <= i < j < |g'|
      ensures FirstRow(rows', key, g'[i].name) < FirstRow(rows', key, g'[j].name)
    {
      if j < |g| {
        assert FirstRow(rows, key, g[i].name) < FirstRow(rows, key, g[j].name);
      }
    }
  }

  lemma AppendKeepsFacts(rows: seq<Row>, row: Row, key: Row -> string, g: seq<Bucket>, k: nat)
    requires GroupFacts(rows, key, g) && key(row) != "" && k == BucketIndex(g, key(row))
    requires forall j :: 0 <= j < |g| ==> FirstRow(rows, key, g[j].name) < |rows|
    requires Retained(rows + [row], key) == Retained(rows, key) + [row]
    ensures GroupFacts(rows + [row], key, g[k := Bucket(key(row), g[k].rows + [row])])
  {
    var rows' := rows + [row];
    var b := Bucket(key(row), g[k].rows + [row]);
    var g' := g[k := b];
    AppendKeepsNames(g, k, b);
    AppendKeepsFilters(rows, rows', row, key, g, g', k);
    TotalRowsUpdate(g, k, b);
    OrderKept(rows, rows', row, key, g, g');
    AppendKeepsCover(rows, rows', row, key, g, g', k);
  }

  lemma AppendKeepsNames(g: seq<Bucket>, k: nat, b: Bucket)
    requires DistinctNames(g) && NamedEntries(g) && k < |g| && b.name == g[k].name && b.rows != []
    ensures DistinctNames(g[k := b]) && NamedEntries(g[k := b])
    ensures forall j :: 0 <= j < |g| ==> g[k := b][j].name == g[j].name
  {
    var g' := g[k := b];
    assert forall j :: 0 <= j < |g| ==> g'[j].name == g[j].name;
    forall i, j | 0 <= i < j < |g'| ensures g'[i].name != g'[j].name {
      assert g'[i].name == g[i].name && g'[j].name == g[j].name;
    }
  }

  lemma AppendKeepsFilters(rows: seq<Row>, rows': seq<Row>, row: Row, key: Row -> string, g: seq<Bucket>, g': seq<Bucket>, k: nat)
    requires EntriesAreFilters(rows, key, g) && DistinctNames(g) && rows' == rows + [row]
    requires k < |g| && g[k].name == key(row) && g' == g[k := Bucket(key(row), g[k].rows + [row])]
    ensures EntriesAreFilters(rows', key, g')
  {
    forall j | 0 <= j < |g'| ensures g'[j].rows == RowsNamed(rows', key, g'[j].name) {
      RowsNamedAppend(rows, row, key, g'[j].name);
    }
  }

  lemma AppendKeepsCover(rows: seq<Row>, rows': seq<Row>, row: Row, key: Row -> string, g: seq<Bucket>, g': seq<Bucket>, k: nat)
    requires CoversRows(rows, key, g) && rows' == rows + [row]
    requires k < |g| && g[k].name == key(row) && g' == g[k := Bucket(key(row), g[k].rows + [row])]
    ensures CoversRows(rows', key, g')
  {
    forall i | 0 <= i < |rows'| && key(rows'[i]) != "" ensures BucketIndex(g', key(rows'[i])) >= 0 {
      if i < |rows| {
        var k0 := BucketIndex(g, key(rows[i]));
        assert g'[k0].name == key(rows[i]);
      } else {
        assert g'[k].name == key(row);
      }
    }
  }

  /** Every entry's school names some row, so it has a first row. */
  lemma FirstRowOfBucket(rows: seq<Row>, key: Row -> string, g: seq<Bucket>, j: nat) returns (i: nat)
    requires GroupFacts(rows, key, g) && j < |g|
    ensures i < |rows| && key(rows[i]) == g[j].name
    ensures FirstRow(rows, key, g[j].name) < |rows|
  {
    i := RowsNamedIndex(rows, key, g[j].name, 0);
    FirstRowIsFirst(rows, key, g[j].name);
  }

  /** Every row the filter keeps comes from the input. */
  lemma {:induction false} RowsNamedIndex(rows: seq<Row>, key: Row -> string, name: string, k: nat) returns (i: nat)
    requires k < |RowsNamed(rows, key, name)|
    ensures i < |rows| && rows[i] == RowsNamed(rows, key, name)[k] && key(rows[i]) == name
  {
    var front := rows[..|rows| - 1];
    var named := RowsNamed(front, key, name);
    if k < |named| {
      i := RowsNamedIndex(front, key, name, k);
    } else {
      i := |rows| - 1;
    }
  }
}
