/**
 * The two views the dashboard has of a worksheet:
 *  - a Table: the DataFrame built from get_all_records(), rows as records
 *    from column name to the str() of the cell;
 *  - a Grid: the worksheet's cell values row by row (row 1 is the header),
 *    which find(query, in_column) searches and update_cell / append_row change.
 */
module Tables {
  import opened Wrappers

  type Record = map<string, string>

  datatype Table = Table(columns: set<string>, rows: seq<Record>)

  /** Every record of a DataFrame has exactly the DataFrame's columns. */
  predicate WellFormed(t: Table) {
    forall k :: 0 <= k < |t.rows| ==> t.rows[k].Keys == t.columns
  }

  /** DataFrame.empty: no rows or no columns. */
  predicate IsEmpty(t: Table) {
    |t.rows| == 0 || t.columns == {}
  }

  /** row.get(key) */
  function Get(row: Record, key: string): (r: Option<string>)
    ensures r.Some? <==> key in row
    ensures r.Some? ==> r.value == row[key]
  {
    if key in row then Some(row[key]) else None
  }

  /** row.get(key, default) */
  function GetOr(row: Record, key: string, default: string): string {
    if key in row then row[key] else default
  }

  /** The Status of a device that is lent out, written by the checkout form and read by the calendar. */
  const OnLoan := "Wypożyczony"

  type GridRow = seq<string>
  type Grid = seq<GridRow>

  /** The value of the 1-based column `col` of a row; cells past the row's end read as empty. */
  function CellAt(row: GridRow, col: nat): string
    requires col >= 1
  {
    if col <= |row| then row[col - 1] else ""
  }

  /** update_cell on one row: column `col` becomes `v`, the row grows with empty cells if short. */
  function SetCell(row: GridRow, col: nat, v: string): (r: GridRow)
    requires col >= 1
    ensures |r| == if col <= |row| then |row| else col
    ensures CellAt(r, col) == v
    ensures forall c: nat :: 1 <= c && c != col ==> CellAt(r, c) == CellAt(row, c)
  {
    if col <= |row| then row[col - 1 := v]
    else row + seq(col - 1 - |row|, _ => "") + [v]
  }

  function FindFrom(grid: Grid, col: nat, query: string, i: nat): (r: Option<nat>)
    requires col >= 1 && i <= |grid|
    ensures r.Some? ==> i <= r.value < |grid| && CellAt(grid[r.value], col) == query
    ensures forall j :: i <= j < |grid| && (r.None? || j < r.value) ==> CellAt(grid[j], col) != query
    decreases |grid| - i
  {
    if i == |grid| then None
    else if CellAt(grid[i], col) == query then Some(i)
    else FindFrom(grid, col, query, i + 1)
  }

  /**
   * worksheet.find(query, in_column=col): the first row (0-based index into the
   * grid, the header included) whose cell in column `col` equals `query`; None
   * where gspread finds nothing.
   */
  function FindRow(grid: Grid, col: nat, query: string): (r: Option<nat>)
    requires col >= 1
    ensures r.Some? ==> r.value < |grid| && CellAt(grid[r.value], col) == query
    ensures r.Some? ==> forall j :: 0 <= j < r.value ==> CellAt(grid[j], col) != query
    ensures r.None? <==> forall j :: 0 <= j < |grid| ==> CellAt(grid[j], col) != query
  {
    FindFrom(grid, col, query, 0)
  }

  /** Rows that agree on a column are found at the same place. */
  lemma {:induction false} FindRowSameColumn(g: Grid, h: Grid, col: nat, query: string)
    requires col >= 1 && |g| == |h|
    requires forall j :: 0 <= j < |g| ==> CellAt(g[j], col) == CellAt(h[j], col)
    ensures FindRow(g, col, query) == FindRow(h, col, query)
  {
  }

  /** dict(zip(header, row)) for one data row; a later duplicate header wins. */
  function RecordOf(header: GridRow, row: GridRow): (r: Record)
    ensures r.Keys == set h | h in header
    decreases |header|
  {
    if header == [] then map[]
    else
      var init := header[..|header| - 1];
      assert forall h :: h in header <==> h in init || h == header[|header| - 1];
      RecordOf(init, row)[header[|header| - 1] := CellAt(row, |header|)]
  }

  /** The cell of the last header column named `key`. */
  lemma {:induction false} RecordOfAt(header: GridRow, row: GridRow, i: nat)
    requires i < |header|
    requires forall j :: i < j < |header| ==> header[j] != header[i]
    ensures Get(RecordOf(header, row), header[i]) == Some(CellAt(row, i + 1))
    decreases |header|
  {
    if i < |header| - 1 {
      RecordOfAt(header[..|header| - 1], row, i);
    }
  }

  /**
   * get_all_records() turned into a DataFrame: the first row names the columns
   * and every further row is a record; without data rows the DataFrame has no
   * columns either.
   */
  function Records(grid: Grid): (t: Table)
    ensures |grid| <= 1 ==> IsEmpty(t)
    ensures |grid| > 1 ==> |t.rows| == |grid| - 1
    ensures |grid| > 1 ==> forall k :: 1 <= k < |grid| ==> t.rows[k - 1] == RecordOf(grid[0], grid[k])
  {
    if |grid| <= 1 then Table({}, [])
    else Table(set h | h in grid[0], seq(|grid| - 1, k requires 0 <= k < |grid| - 1 => RecordOf(grid[0], grid[k + 1])))
  }

  /** Appending a row to the worksheet appends one record to what get_all_records() returns. */
  lemma {:induction false} RecordsAppend(grid: Grid, row: GridRow)
    requires |grid| >= 1
    ensures Records(grid + [row]).rows == Records(grid).rows + [RecordOf(grid[0], row)]
    ensures Records(grid + [row]).columns == set h | h in grid[0]
  {
    var g := grid + [row];
    var a, b := Records(g).rows, Records(grid).rows + [RecordOf(grid[0], row)];
    assert |a| == |b|;
    forall k | 0 <= k < |a| ensures a[k] == b[k] {
      assert g[k + 1] == if k + 1 < |grid| then grid[k + 1] else row;
    }
  }

  /** Every record read from a worksheet carries exactly the header's columns. */
  lemma {:induction false} RecordsWellFormed(grid: Grid)
    ensures WellFormed(Records(grid))
  {
  }

  /** Appending several rows appends their records, in order. */
  lemma {:induction false} RecordsAppendAll(grid: Grid, rows: seq<GridRow>)
    requires |grid| >= 1
    ensures Records(grid + rows).rows == Records(grid).rows + seq(|rows|, k requires 0 <= k < |rows| => RecordOf(grid[0], rows[k]))
  {
    var g := grid + rows;
    var a := Records(g).rows;
    var b := Records(grid).rows + seq(|rows|, k requires 0 <= k < |rows| => RecordOf(grid[0], rows[k]));
    if rows == [] {
      assert g == grid;
    } else {
      assert g[0] == grid[0];
      assert |a| == |b|;
      forall k | 0 <= k < |a| ensures a[k] == b[k] {
        assert g[k + 1] == if k + 1 < |grid| then grid[k + 1] else rows[k + 1 - |grid|];
      }
    }
  }
}
