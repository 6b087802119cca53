/**
 * The forms of the dashboard that write to the spreadsheet (app.py lines
 * 172-314): blocking the lab, planning classes, checking devices out and in,
 * reporting a fault, proposing a purchase and deciding on it, and leaving a
 * remark.
 *
 * Every form reads the DataFrames loaded when the page was drawn (a snapshot
 * passed in here) and writes to the live worksheets: append_row adds a row to
 * a grid, and update_cell changes one cell of the row that find() located.
 */
module Forms {
  import opened Wrappers
  import opened Text
  import opened Dates
  import opened Tables
  import opened Labels
  import opened Reservations
  import opened Sequences

  const Available := "Dostępny"
  const InRepair := "W naprawie"
  const FaultOpen := "Otwarte"
  const Pending := "Oczekuje"
  const WholeLabName := "CAŁE LABO"

  /** The columns of the Rezerwacje sheet, in the order the forms write them. */
  const ReservationHeader: GridRow := ["ID_Sprzetu", "Nazwa", "Uzytkownik", "Data_Od", "Data_Do", "Typ"]

  /**
   * Every selected option is a label an id can be read from, as the option
   * lists build them (see Labels.Encode); on any other string the handlers
   * raise IndexError.
   */
  predicate AllLabels(selection: seq<string>) {
    forall k :: 0 <= k < |selection| ==> DecodeId(selection[k]).Some?
  }

  /** The id the handlers read out of a label. */
  function IdOf(opt: string): string
    requires DecodeId(opt).Some?
  {
    DecodeId(opt).value
  }

  function Ids(selection: seq<string>): (ids: seq<string>)
    requires AllLabels(selection)
    ensures |ids| == |selection|
    ensures forall k :: 0 <= k < |ids| ==> ids[k] == IdOf(selection[k])
  {
    seq(|selection|, k requires 0 <= k < |selection| => IdOf(selection[k]))
  }

  /**
   * Selecting options built from the sheet reads back the sheet's own ids,
   * when no name holds "ID: " or ends in "ID:" and every id is stripped and
   * holds no ")" and no "ID: ".
   */
  lemma {:induction false} IdsOfOptions(t: Table, nameColumn: string)
    requires WellFormed(t) && nameColumn in t.columns && "ID" in t.columns
    requires forall k :: 0 <= k < |t.rows| ==> !Contains(t.rows[k][nameColumn] + " ", IdMarker)
    requires forall k :: 0 <= k < |t.rows| ==>
      ')' !in t.rows[k]["ID"] && !Contains(t.rows[k]["ID"], IdMarker) && Trimmed(t.rows[k]["ID"])
    ensures AllLabels(Options(t, nameColumn))
    ensures Ids(Options(t, nameColumn)) == seq(|t.rows|, k requires 0 <= k < |t.rows| => t.rows[k]["ID"])
  {
    var opts := Options(t, nameColumn);
    forall k | 0 <= k < |t.rows| ensures IdOf(opts[k]) == t.rows[k]["ID"] {
      DecodeIdEncode(t.rows[k][nameColumn], t.rows[k]["ID"]);
    }
  }

  // ---------------------------------------------------------------------------
  // Reservations (app.py lines 172-201)

  /** [id, name, user, str(d1), str(d2), kind] */
  function ReservationRow(id: string, name: string, user: string, d1: CalendarDate, d2: CalendarDate, kind: string): GridRow {
    [id, name, user, Format(d1), Format(d2), kind]
  }

  /** The record get_all_records() later reads back for a reservation row is a booking of its id for [d1, d2]. */
  lemma {:induction false} ReservationRowBooks(id: string, name: string, user: string, d1: CalendarDate, d2: CalendarDate, kind: string)
    ensures BooksRange(RecordOf(ReservationHeader, ReservationRow(id, name, user, d1, d2, kind)), id, d1, d2)
  {
    var h, row := ReservationHeader, ReservationRow(id, name, user, d1, d2, kind);
    RecordOfAt(h, row, 0);
    RecordOfAt(h, row, 3);
    RecordOfAt(h, row, 4);
  }

  /**
   * What the planning form appends for one selected option: the reservation
   * row of its device if the device is free on [d1, d2] in the snapshot.
   */
  function PlanOf(snapshot: Table, d1: CalendarDate, d2: CalendarDate, kind: string, user: string, w: string): (r: Option<GridRow>)
    ensures r.Some? <==> DecodeId(w).Some? && Availability(DecodeId(w).value, d1, d2, snapshot).free
    ensures r.Some? ==> r.value == ReservationRow(DecodeId(w).value, DecodeName(w), user, d1, d2, kind)
  {
    match DecodeId(w)
    case None => None
    case Some(id) =>
      if Availability(id, d1, d2, snapshot).free then Some(ReservationRow(id, DecodeName(w), user, d1, d2, kind)) else None
  }

  function PlanStep(snapshot: Table, d1: CalendarDate, d2: CalendarDate, kind: string, user: string): string -> Option<GridRow> {
    w => PlanOf(snapshot, d1, d2, kind, user, w)
  }

  /** The rows the planning form appends, in the order of the selection. */
  function PlannedRows(snapshot: Table, selection: seq<string>, d1: CalendarDate, d2: CalendarDate, kind: string, user: string): seq<GridRow> {
    Collect(selection, PlanStep(snapshot, d1, d2, kind, user))
  }

  /** One more selected option adds its row, if any, at the end. */
  lemma {:induction false} PlannedRowsStep(snapshot: Table, selection: seq<string>, i: nat, d1: CalendarDate, d2: CalendarDate, kind: string, user: string)
    requires i < |selection|
    ensures PlannedRows(snapshot, selection[..i + 1], d1, d2, kind, user)
         == PlannedRows(snapshot, selection[..i], d1, d2, kind, user)
            + Listed(PlanOf(snapshot, d1, d2, kind, user, selection[i]))
  {
    CollectPrefix(selection, i, PlanStep(snapshot, d1, d2, kind, user));
  }

  /** A row is appended exactly for each selected device that is free in the snapshot. */
  lemma {:induction false} PlannedRowsExactly(snapshot: Table, selection: seq<string>, d1: CalendarDate, d2: CalendarDate, kind: string, user: string, row: GridRow)
    requires AllLabels(selection)
    ensures row in PlannedRows(snapshot, selection, d1, d2, kind, user) <==>
      exists m :: 0 <= m < |selection| && Availability(IdOf(selection[m]), d1, d2, snapshot).free
                  && row == ReservationRow(IdOf(selection[m]), DecodeName(selection[m]), user, d1, d2, kind)
  {
    CollectMembers(selection, PlanStep(snapshot, d1, d2, kind, user), row);
  }

  /**
   * Planning on a fresh snapshot keeps the reservations free of double
   * bookings, provided the selected devices have distinct ids and none of them
   * is the whole-lab id (the devices of one batch are not checked against one
   * another).
   */
  lemma {:induction false} PlanningKeepsNoDoubleBooking(grid: Grid, selection: seq<string>, d1: CalendarDate, d2: CalendarDate, kind: string, user: string)
    requires |grid| >= 1 && grid[0] == ReservationHeader
    requires NoDoubleBooking(Records(grid).rows)
    requires AllLabels(selection)
    requires forall k :: 0 <= k < |selection| ==> IdOf(selection[k]) != WholeLab
    requires forall p, q :: 0 <= p < q < |selection| ==> IdOf(selection[p]) != IdOf(selection[q])
    ensures NoDoubleBooking(Records(grid + PlannedRows(Records(grid), selection, d1, d2, kind, user)).rows)
  {
    var t := Records(grid);
    var f := PlanStep(t, d1, d2, kind, user);
    var rows := PlannedRows(t, selection, d1, d2, kind, user);
    RecordsAppendAll(grid, rows);
    RecordsWellFormed(grid);
    CollectDistinct(selection, f, (row: GridRow) => CellAt(row, 1));
    var batch := seq(|rows|, k requires 0 <= k < |rows| => RecordOf(grid[0], rows[k]));
    var ids := seq(|rows|, k requires 0 <= k < |rows| => CellAt(rows[k], 1));
    forall k | 0 <= k < |rows|
      ensures BooksRange(batch[k], ids[k], d1, d2)
      ensures ids[k] != WholeLab && Availability(ids[k], d1, d2, t).free
    {
      CollectOrigin(selection, f, k);
      var m :| k <= m < |selection| && f(selection[m]) == Some(rows[k]);
      ReservationRowBooks(IdOf(selection[m]), DecodeName(selection[m]), user, d1, d2, kind);
    }
    AdmittedBatchKeepsNoDoubleBooking(t, batch, ids, d1, d2);
  }

  /** Blocking the lab on a fresh snapshot keeps the reservations free of double bookings. */
  lemma {:induction false} LabBlockKeepsNoDoubleBooking(grid: Grid, d1: CalendarDate, d2: CalendarDate, purpose: string, user: string)
    requires |grid| >= 1 && grid[0] == ReservationHeader
    requires NoDoubleBooking(Records(grid).rows)
    requires Availability(WholeLab, d1, d2, Records(grid)).free
    ensures NoDoubleBooking(Records(grid + [ReservationRow(WholeLab, WholeLabName, user, d1, d2, purpose)]).rows)
  {
    var row := ReservationRow(WholeLab, WholeLabName, user, d1, d2, purpose);
    RecordsAppend(grid, row);
    RecordsWellFormed(grid);
    ReservationRowBooks(WholeLab, WholeLabName, user, d1, d2, purpose);
    AdmittedRowKeepsNoDoubleBooking(Records(grid), RecordOf(grid[0], row), WholeLab, d1, d2);
  }

  // ---------------------------------------------------------------------------
  // Loans (app.py lines 203-251)

  /** update_cell on columns 4-7: status, borrower, due date, checkout date. */
  function CheckoutRow(row: GridRow, user: string, dOut: CalendarDate, dDue: CalendarDate): GridRow {
    SetCell(SetCell(SetCell(SetCell(row, 4, OnLoan), 5, user), 6, Format(dDue)), 7, Format(dOut))
  }

  /** update_cell on columns 4-7: available again, loan columns cleared. */
  function ReturnRow(row: GridRow): GridRow {
    SetCell(SetCell(SetCell(SetCell(row, 4, Available), 5, ""), 6, ""), 7, "")
  }

  /** A checkout writes exactly columns 4-7 of the row. */
  lemma {:induction false} CheckoutRowCells(row: GridRow, user: string, dOut: CalendarDate, dDue: CalendarDate)
    ensures var r := CheckoutRow(row, user, dOut, dDue);
      && |r| == (if |row| >= 7 then |row| else 7)
      && CellAt(r, 4) == OnLoan && CellAt(r, 5) == user
      && CellAt(r, 6) == Format(dDue) && CellAt(r, 7) == Format(dOut)
      && forall c: nat :: 1 <= c && (c < 4 || c > 7) ==> CellAt(r, c) == CellAt(row, c)
  {
  }

  /** A return writes exactly columns 4-7 of the row. */
  lemma {:induction false} ReturnRowCells(row: GridRow)
    ensures var r := ReturnRow(row);
      && |r| == (if |row| >= 7 then |row| else 7)
      && CellAt(r, 4) == Available && CellAt(r, 5) == "" && CellAt(r, 6) == "" && CellAt(r, 7) == ""
      && forall c: nat :: 1 <= c && (c < 4 || c > 7) ==> CellAt(r, c) == CellAt(row, c)
  {
  }

  /** Two rows the sheet cannot tell apart: every cell reads the same, blanks past the end included. */
  ghost predicate SameCells(a: GridRow, b: GridRow) {
    forall c: nat :: 1 <= c ==> CellAt(a, c) == CellAt(b, c)
  }

  /**
   * An available device with empty loan columns is returned to a row that
   * reads as it did, and to exactly the row it was when it already had seven cells.
   */
  lemma {:induction false} ReturnUndoesCheckout(row: GridRow, user: string, dOut: CalendarDate, dDue: CalendarDate)
    requires CellAt(row, 4) == Available && CellAt(row, 5) == "" && CellAt(row, 6) == "" && CellAt(row, 7) == ""
    ensures SameCells(ReturnRow(CheckoutRow(row, user, dOut, dDue)), row)
    ensures |row| >= 7 ==> ReturnRow(CheckoutRow(row, user, dOut, dDue)) == row
  {
    var r := ReturnRow(CheckoutRow(row, user, dOut, dDue));
    CheckoutRowCells(row, user, dOut, dDue);
    ReturnRowCells(CheckoutRow(row, user, dOut, dDue));
    forall c: nat | 1 <= c ensures CellAt(r, c) == CellAt(row, c) {
    }
    if |row| >= 7 {
      assert |r| == |row|;
      forall k | 0 <= k < |row| ensures r[k] == row[k] {
        assert CellAt(r, k + 1) == CellAt(row, k + 1);
      }
    }
  }

  /** What became of one selected device at checkout. */
  datatype Outcome =
    | CheckedOut   // the device was free and its row was written
    | Skipped      // the device is booked on those dates; the form passes over it silently
    | NotFound     // find() raised; the error is shown and the loop goes on

  /**
   * One device at checkout: availability comes from the snapshot, the row from
   * the live sheet.
   */
  function CheckoutOne(grid: Grid, snapshot: Table, id: string, user: string, dOut: CalendarDate, dDue: CalendarDate): (r: (Grid, Outcome))
    ensures |r.0| == |grid|
    ensures r.1 == Skipped <==> !Availability(id, dOut, dDue, snapshot).free
    ensures r.1 == NotFound <==> Availability(id, dOut, dDue, snapshot).free && FindRow(grid, 1, id).None?
    ensures r.1 != CheckedOut ==> r.0 == grid
    ensures r.1 == CheckedOut ==> var k := FindRow(grid, 1, id).value;
      r.0 == grid[k := CheckoutRow(grid[k], user, dOut, dDue)]
  {
    if !Availability(id, dOut, dDue, snapshot).free then (grid, Skipped)
    else match FindRow(grid, 1, id)
      case None => (grid, NotFound)
      case Some(k) => (grid[k := CheckoutRow(grid[k], user, dOut, dDue)], CheckedOut)
  }

  /** The checkout form over the selected ids, in order. */
  function CheckoutAll(grid: Grid, snapshot: Table, ids: seq<string>, user: string, dOut: CalendarDate, dDue: CalendarDate): (r: (Grid, seq<Outcome>))
    ensures |r.0| == |grid| && |r.1| == |ids|
    decreases |ids|
  {
    if ids == [] then (grid, [])
    else
      var before := CheckoutAll(grid, snapshot, ids[..|ids| - 1], user, dOut, dDue);
      var step := CheckoutOne(before.0, snapshot, ids[|ids| - 1], user, dOut, dDue);
      (step.0, before.1 + [step.1])
  }

  /** One more id of the prefix handles that device on the sheet the earlier ones left. */
  lemma {:induction false} CheckoutAllPrefix(grid: Grid, snapshot: Table, ids: seq<string>, i: nat, user: string, dOut: CalendarDate, dDue: CalendarDate)
    requires i < |ids|
    ensures var before := CheckoutAll(grid, snapshot, ids[..i], user, dOut, dDue);
      var step := CheckoutOne(before.0, snapshot, ids[i], user, dOut, dDue);
      CheckoutAll(grid, snapshot, ids[..i + 1], user, dOut, dDue) == (step.0, before.1 + [step.1])
  {
    assert ids[..i + 1][..i] == ids[..i];
  }

  /** A checkout keeps every id where it was. */
  lemma {:induction false} CheckoutOneKeepsIds(grid: Grid, snapshot: Table, id: string, user: string, dOut: CalendarDate, dDue: CalendarDate, query: string)
    ensures FindRow(CheckoutOne(grid, snapshot, id, user, dOut, dDue).0, 1, query) == FindRow(grid, 1, query)
  {
    var step := CheckoutOne(grid, snapshot, id, user, dOut, dDue);
    if step.1 == CheckedOut {
      var k := FindRow(grid, 1, id).value;
      CheckoutRowCells(grid[k], user, dOut, dDue);
      assert forall j :: 0 <= j < |grid| ==> CellAt(step.0[j], 1) == CellAt(grid[j], 1);
      FindRowSameColumn(step.0, grid, 1, query);
    }
  }

  /** The id column never changes under checkouts, so find() gives the same row as before the form ran. */
  lemma {:induction false} CheckoutKeepsIds(grid: Grid, snapshot: Table, ids: seq<string>, user: string, dOut: CalendarDate, dDue: CalendarDate, query: string)
    ensures FindRow(CheckoutAll(grid, snapshot, ids, user, dOut, dDue).0, 1, query) == FindRow(grid, 1, query)
    decreases |ids|
  {
    if ids != [] {
      var before := CheckoutAll(grid, snapshot, ids[..|ids| - 1], user, dOut, dDue);
      CheckoutKeepsIds(grid, snapshot, ids[..|ids| - 1], user, dOut, dDue, query);
      CheckoutOneKeepsIds(before.0, snapshot, ids[|ids| - 1], user, dOut, dDue, query);
    }
  }

  /** A device's outcome depends on the sheet only through where find() locates it. */
  lemma {:induction false} CheckoutOneOutcome(g: Grid, h: Grid, snapshot: Table, id: string, user: string, dOut: CalendarDate, dDue: CalendarDate)
    requires FindRow(g, 1, id) == FindRow(h, 1, id)
    ensures CheckoutOne(g, snapshot, id, user, dOut, dDue).1 == CheckoutOne(h, snapshot, id, user, dOut, dDue).1
  {
  }

  /**
   * Each device's outcome depends only on the snapshot and the sheet as it
   * was before the form ran, not on the devices handled before it.
   */
  lemma {:induction false} CheckoutOutcomes(grid: Grid, snapshot: Table, ids: seq<string>, user: string, dOut: CalendarDate, dDue: CalendarDate)
    ensures var out := CheckoutAll(grid, snapshot, ids, user, dOut, dDue).1;
      forall k :: 0 <= k < |ids| ==> out[k] == CheckoutOne(grid, snapshot, ids[k], user, dOut, dDue).1
    decreases |ids|
  {
    if ids != [] {
      var n := |ids| - 1;
      var init, last := ids[..n], ids[n];
      var before := CheckoutAll(grid, snapshot, init, user, dOut, dDue);
      CheckoutOutcomes(grid, snapshot, init, user, dOut, dDue);
      CheckoutKeepsIds(grid, snapshot, init, user, dOut, dDue, last);
      CheckoutOneOutcome(before.0, grid, snapshot, last, user, dOut, dDue);
      var out := CheckoutAll(grid, snapshot, ids, user, dOut, dDue).1;
      var lastOut := CheckoutOne(before.0, snapshot, last, user, dOut, dDue).1;
      assert out == before.1 + [lastOut];
      forall k | 0 <= k < |ids| ensures out[k] == CheckoutOne(grid, snapshot, ids[k], user, dOut, dDue).1 {
        if k < n {
          assert out[k] == before.1[k];
          assert ids[k] == init[k];
        } else {
          assert out[k] == lastOut;
        }
      }
    }
  }

  /**
   * The return form over the selected ids from the i-th on: the sheet
   * afterwards and how many devices were returned. It stops at the first id
   * find() does not locate, because that exception is not caught.
   */
  function ReturnFrom(grid: Grid, ids: seq<string>, i: nat): (r: (Grid, nat))
    requires i <= |ids|
    ensures |r.0| == |grid| && r.1 <= |ids| - i
    decreases |ids| - i
  {
    if i == |ids| then (grid, 0)
    else match FindRow(grid, 1, ids[i])
      case None => (grid, 0)
      case Some(k) =>
        var rest := ReturnFrom(grid[k := ReturnRow(grid[k])], ids, i + 1);
        (rest.0, rest.1 + 1)
  }

  /** Returning a device keeps every id where it was. */
  lemma {:induction false} ReturnKeepsIds(grid: Grid, k: nat, query: string)
    requires k < |grid|
    ensures FindRow(grid[k := ReturnRow(grid[k])], 1, query) == FindRow(grid, 1, query)
  {
    ReturnRowCells(grid[k]);
    FindRowSameColumn(grid[k := ReturnRow(grid[k])], grid, 1, query);
  }

  /** Where find() locates each of the later ids is not changed by a return. */
  lemma {:induction false} ReturnKeepsLaterIds(grid: Grid, k: nat, ids: seq<string>, i: nat)
    requires k < |grid|
    ensures forall j :: i < j < |ids| ==> FindRow(grid[k := ReturnRow(grid[k])], 1, ids[j]) == FindRow(grid, 1, ids[j])
  {
    forall j | i < j < |ids| ensures FindRow(grid[k := ReturnRow(grid[k])], 1, ids[j]) == FindRow(grid, 1, ids[j]) {
      ReturnKeepsIds(grid, k, ids[j]);
    }
  }

  /**
   * One step of the return form: if the i-th id is located and the rest of the
   * form completes on the updated sheet exactly when the later ids are located
   * there, it completes from i exactly when the ids from i on are located.
   */
  lemma {:induction false} ReturnCompletesStep(grid: Grid, g: Grid, ids: seq<string>, i: nat, total: nat, rest: nat)
    requires i < |ids| && FindRow(grid, 1, ids[i]).Some?
    requires forall j :: i < j < |ids| ==> FindRow(g, 1, ids[j]) == FindRow(grid, 1, ids[j])
    requires total == rest + 1
    requires rest == |ids| - (i + 1) <==> forall j :: i + 1 <= j < |ids| ==> FindRow(g, 1, ids[j]).Some?
    ensures total == |ids| - i <==> forall j :: i <= j < |ids| ==> FindRow(grid, 1, ids[j]).Some?
  {
  }

  /** The return form gets through the rest of the selection exactly when every id in it is in the sheet. */
  lemma {:induction false} ReturnCompletes(grid: Grid, ids: seq<string>, i: nat)
    requires i <= |ids|
    ensures ReturnFrom(grid, ids, i).1 == |ids| - i <==> forall k :: i <= k < |ids| ==> FindRow(grid, 1, ids[k]).Some?
    decreases |ids| - i, 1
  {
    if i == |ids| {
      assert ReturnFrom(grid, ids, i).1 == 0;
    } else if FindRow(grid, 1, ids[i]).None? {
      assert ReturnFrom(grid, ids, i).1 == 0;
    } else {
      ReturnCompletesLocated(grid, ids, i);
    }
  }

  /** ReturnCompletes where the i-th id is located: the form goes on with the updated sheet. */
  lemma {:induction false} ReturnCompletesLocated(grid: Grid, ids: seq<string>, i: nat)
    requires i < |ids| && FindRow(grid, 1, ids[i]).Some?
    ensures ReturnFrom(grid, ids, i).1 == |ids| - i <==> forall k :: i <= k < |ids| ==> FindRow(grid, 1, ids[k]).Some?
    decreases |ids| - i, 0
  {
    var k := FindRow(grid, 1, ids[i]).value;
    var g := grid[k := ReturnRow(grid[k])];
    assert ReturnFrom(grid, ids, i).1 == ReturnFrom(g, ids, i + 1).1 + 1;
    ReturnCompletes(g, ids, i + 1);
    ReturnKeepsLaterIds(grid, k, ids, i);
    ReturnCompletesStep(grid, g, ids, i, ReturnFrom(grid, ids, i).1, ReturnFrom(g, ids, i + 1).1);
  }

  /**
   * Checking a clean, available device out and returning it leaves a sheet
   * that reads as before, and the very same sheet when the device's row
   * already had seven cells.
   */
  lemma {:induction false} CheckoutThenReturn(grid: Grid, snapshot: Table, id: string, user: string, dOut: CalendarDate, dDue: CalendarDate)
    requires Availability(id, dOut, dDue, snapshot).free
    requires FindRow(grid, 1, id).Some?
    requires var row := grid[FindRow(grid, 1, id).value];
      CellAt(row, 4) == Available && CellAt(row, 5) == "" && CellAt(row, 6) == "" && CellAt(row, 7) == ""
    ensures var r := ReturnFrom(CheckoutOne(grid, snapshot, id, user, dOut, dDue).0, [id], 0);
      && r.1 == 1 && |r.0| == |grid|
      && (forall j :: 0 <= j < |grid| ==> SameCells(r.0[j], grid[j]))
      && (|grid[FindRow(grid, 1, id).value]| >= 7 ==> r.0 == grid)
  {
    var k := FindRow(grid, 1, id).value;
    var g := CheckoutOne(grid, snapshot, id, user, dOut, dDue).0;
    CheckoutOneKeepsIds(grid, snapshot, id, user, dOut, dDue, id);
    ReturnUndoesCheckout(grid[k], user, dOut, dDue);
    ReturnSingle(g, id);
    var h := ReturnFrom(g, [id], 0).0;
    assert h == g[k := ReturnRow(g[k])];
    assert forall j :: 0 <= j < |grid| && j != k ==> h[j] == grid[j];
  }

  /** The return form on one located device: its row is returned and the form completes. */
  lemma {:induction false} ReturnSingle(grid: Grid, id: string)
    requires FindRow(grid, 1, id).Some?
    ensures var k := FindRow(grid, 1, id).value;
      ReturnFrom(grid, [id], 0).0 == grid[k := ReturnRow(grid[k])] && ReturnFrom(grid, [id], 0).1 == 1
  {
    var k := FindRow(grid, 1, id).value;
    var g := grid[k := ReturnRow(grid[k])];
    assert ReturnFrom(g, [id], 1) == (g, 0);
  }

  // ---------------------------------------------------------------------------
  // Faults (app.py lines 254-270)

  /** [id, name, reporter, description, str(today), "Otwarte"] */
  function FaultRow(id: string, name: string, reporter: string, description: string, today: CalendarDate): GridRow {
    [id, name, reporter, description, Format(today), FaultOpen]
  }

  /** The equipment sheet after the fault form: the device's status is "W naprawie", if find() locates it. */
  function MarkInRepair(grid: Grid, id: string): (r: Grid)
    ensures |r| == |grid|
    ensures FindRow(grid, 1, id).None? ==> r == grid
    ensures FindRow(grid, 1, id).Some? ==> var k := FindRow(grid, 1, id).value;
      && CellAt(r[k], 4) == InRepair
      && (forall c: nat :: 1 <= c && c != 4 ==> CellAt(r[k], c) == CellAt(grid[k], c))
      && (forall j :: 0 <= j < |grid| && j != k ==> r[j] == grid[j])
  {
    match FindRow(grid, 1, id)
    case None => grid
    case Some(k) => grid[k := SetCell(grid[k], 4, InRepair)]
  }

  // ---------------------------------------------------------------------------
  // Purchase proposals (app.py lines 281-304)

  /** [new_id, item, requester, price, reason, str(today), "Oczekuje", ""] */
  function ProposalRow(id: nat, item: string, requester: string, price: string, reason: string, today: CalendarDate): GridRow {
    [Decimal(id), item, requester, price, reason, Format(today), Pending, ""]
  }

  /** The proposals sheet numbers its proposals 1, 2, 3, ... below an "ID" header. */
  predicate NumberedFromOne(grid: Grid) {
    |grid| >= 1 && CellAt(grid[0], 1) == "ID"
    && forall k :: 1 <= k < |grid| ==> CellAt(grid[k], 1) == Decimal(k)
  }

  /** A new proposal numbered len(snapshot) + 1 on a fresh snapshot keeps the numbering. */
  lemma {:induction false} ProposalKeepsNumbering(grid: Grid, item: string, requester: string, price: string, reason: string, today: CalendarDate)
    requires NumberedFromOne(grid)
    ensures NumberedFromOne(grid + [ProposalRow(|Records(grid).rows| + 1, item, requester, price, reason, today)])
  {
    var g := grid + [ProposalRow(|Records(grid).rows| + 1, item, requester, price, reason, today)];
    assert forall k :: 0 <= k < |grid| ==> g[k] == grid[k];
    assert CellAt(g[|grid|], 1) == Decimal(|grid|);
  }

  /** Under that numbering, find() locates proposal n at row n. */
  lemma {:induction false} NumberedFind(grid: Grid, n: nat)
    requires NumberedFromOne(grid) && 1 <= n < |grid|
    ensures FindRow(grid, 1, Decimal(n)) == Some(n)
  {
    forall j | 0 <= j < n ensures CellAt(grid[j], 1) != Decimal(n) {
      if j == 0 {
        assert IsDigit(Decimal(n)[0]);
      } else {
        NumberOfDecimal(j);
        NumberOfDecimal(n);
      }
    }
  }

  /** The proposals sheet after the manager's update: columns 7 and 8 of the chosen proposal, if find() locates it. */
  function DecideProposal(grid: Grid, id: string, status: string, comment: string): (r: Grid)
    ensures |r| == |grid|
    ensures FindRow(grid, 1, id).None? ==> r == grid
    ensures FindRow(grid, 1, id).Some? ==> var k := FindRow(grid, 1, id).value;
      && CellAt(r[k], 7) == status && CellAt(r[k], 8) == comment
      && (forall c: nat :: 1 <= c && c != 7 && c != 8 ==> CellAt(r[k], c) == CellAt(grid[k], c))
      && (forall j :: 0 <= j < |grid| && j != k ==> r[j] == grid[j])
  {
    match FindRow(grid, 1, id)
    case None => grid
    case Some(k) => grid[k := SetCell(SetCell(grid[k], 7, status), 8, comment)]
  }

  /** Choosing proposal n by its label updates proposal n and no other row. */
  lemma {:induction false} DecisionReachesChosenProposal(grid: Grid, name: string, n: nat, status: string, comment: string)
    requires NumberedFromOne(grid) && 1 <= n < |grid|
    requires !Contains(name + " ", IdMarker)
    ensures IdOf(Encode(name, Decimal(n))) == Decimal(n)
    ensures DecideProposal(grid, Decimal(n), status, comment) == grid[n := SetCell(SetCell(grid[n], 7, status), 8, comment)]
  {
    DecimalIdRoundTrip(name, n);
    NumberedFind(grid, n);
  }

  // ---------------------------------------------------------------------------
  // The sheets

  /** The worksheets the forms write to. */
  class Spreadsheet {
    /** Sprzet: rows are changed in place, never added. */
    const equipment: array<GridRow>
    var reservations: Grid
    var faults: Grid
    var proposals: Grid
    var remarks: Grid

    constructor (equipment: array<GridRow>, reservations: Grid, faults: Grid, proposals: Grid, remarks: Grid)
      ensures this.equipment == equipment
      ensures this.reservations == reservations && this.faults == faults
      ensures this.proposals == proposals && this.remarks == remarks
    {
      this.equipment := equipment;
      this.reservations := reservations;
      this.faults := faults;
      this.proposals := proposals;
      this.remarks := remarks;
    }

    /** The lab-block form: one CALE_LAB row, appended only if the lab is free on [d1, d2]. */
    method BlockLab(snapshot: Table, d1: CalendarDate, d2: CalendarDate, purpose: string, user: string)
      returns (free: bool, reason: string)
      modifies this
      ensures Verdict(free, reason) == Availability(WholeLab, d1, d2, snapshot)
      ensures reservations == old(reservations) + (if free then [ReservationRow(WholeLab, WholeLabName, user, d1, d2, purpose)] else [])
      ensures faults == old(faults) && proposals == old(proposals) && remarks == old(remarks)
    {
      free, reason := CheckAvailability(WholeLab, d1, d2, snapshot);
      if free {
        reservations := reservations + [ReservationRow(WholeLab, WholeLabName, user, d1, d2, purpose)];
      }
    }

    /** The planning form: a row for every selected device free in the snapshot, the others skipped. */
    method PlanClasses(snapshot: Table, selection: seq<string>, d1: CalendarDate, d2: CalendarDate, kind: string, user: string)
      requires AllLabels(selection)
      modifies this
      ensures reservations == old(reservations) + PlannedRows(snapshot, selection, d1, d2, kind, user)
      ensures faults == old(faults) && proposals == old(proposals) && remarks == old(remarks)
    {
      for i := 0 to |selection|
        invariant reservations == old(reservations) + PlannedRows(snapshot, selection[..i], d1, d2, kind, user)
        invariant faults == old(faults) && proposals == old(proposals) && remarks == old(remarks)
      {
        PlannedRowsStep(snapshot, selection, i, d1, d2, kind, user);
        ghost var done := PlannedRows(snapshot, selection[..i], d1, d2, kind, user);
        ghost var added := Listed(PlanOf(snapshot, d1, d2, kind, user, selection[i]));
        PlanOne(snapshot, selection[i], d1, d2, kind, user);
        assert old(reservations) + done + added == old(reservations) + (done + added);
      }
      assert selection[..|selection|] == selection;
    }

    /** One selected option of the planning form: its row is appended if its device is free. */
    method PlanOne(snapshot: Table, w: string, d1: CalendarDate, d2: CalendarDate, kind: string, user: string)
      requires DecodeId(w).Some?
      modifies this
      ensures reservations == old(reservations) + Listed(PlanOf(snapshot, d1, d2, kind, user, w))
      ensures faults == old(faults) && proposals == old(proposals) && remarks == old(remarks)
    {
      var id := DecodeId(w).value;
      var name := DecodeName(w);
      var free, reason := CheckAvailability(id, d1, d2, snapshot);
      if free {
        reservations := reservations + [ReservationRow(id, name, user, d1, d2, kind)];
      }
    }

    /** The checkout form: writes the rows of the free devices find() locates; reports each device's outcome. */
    method CheckOut(snapshot: Table, selection: seq<string>, user: string, dOut: CalendarDate, dDue: CalendarDate)
      returns (outcomes: seq<Outcome>)
      requires AllLabels(selection)
      modifies equipment
      ensures (equipment[..], outcomes) == CheckoutAll(old(equipment[..]), snapshot, Ids(selection), user, dOut, dDue)
    {
      var ids := Ids(selection);
      outcomes := [];
      for i := 0 to |ids|
        invariant equipment[..] == CheckoutAll(old(equipment[..]), snapshot, ids[..i], user, dOut, dDue).0
        invariant outcomes == CheckoutAll(old(equipment[..]), snapshot, ids[..i], user, dOut, dDue).1
      {
        CheckoutAllPrefix(old(equipment[..]), snapshot, ids, i, user, dOut, dDue);
        ghost var step := CheckoutOne(equipment[..], snapshot, ids[i], user, dOut, dDue);
        var free, reason := CheckAvailability(ids[i], dOut, dDue, snapshot);
        if !free {
          outcomes := outcomes + [Skipped];
        } else {
          match FindRow(equipment[..], 1, ids[i])
          case None =>
            outcomes := outcomes + [NotFound];
          case Some(k) =>
            equipment[k] := CheckoutRow(equipment[k], user, dOut, dDue);
            outcomes := outcomes + [CheckedOut];
        }
        assert equipment[..] == step.0 && outcomes[..i] + [step.1] == outcomes;
      }
      assert ids[..|ids|] == ids;
    }

    /** The return form: resets each selected device's row; stops at the first id find() does not locate. */
    method ReturnDevices(selection: seq<string>) returns (returned: nat)
      requires AllLabels(selection)
      modifies equipment
      ensures (equipment[..], returned) == ReturnFrom(old(equipment[..]), Ids(selection), 0)
    {
      var ids := Ids(selection);
      ghost var want := ReturnFrom(old(equipment[..]), ids, 0);
      returned := 0;
      while returned < |ids|
        invariant returned <= |ids|
        invariant ReturnFrom(equipment[..], ids, returned).0 == want.0
        invariant returned + ReturnFrom(equipment[..], ids, returned).1 == want.1
      {
        ghost var g := equipment[..];
        match FindRow(equipment[..], 1, ids[returned])
        case None =>
          assert ReturnFrom(g, ids, returned) == (g, 0);
          assert equipment[..] == want.0 && returned == want.1;
          return;
        case Some(k) =>
          equipment[k] := ReturnRow(equipment[k]);
          assert equipment[..] == g[k := ReturnRow(g[k])];
          returned := returned + 1;
      }
      assert ReturnFrom(equipment[..], ids, returned) == (equipment[..], 0);
      assert equipment[..] == want.0 && returned == want.1;
    }

    /** The fault form: the fault row is appended first, then the device is marked "W naprawie" if find() locates it. */
    method ReportFault(selected: string, reporter: string, description: string, today: CalendarDate)
      returns (found: bool)
      requires DecodeId(selected).Some?
      modifies this, equipment
      ensures faults == old(faults) + [FaultRow(IdOf(selected), DecodeName(selected), reporter, description, today)]
      ensures found <==> FindRow(old(equipment[..]), 1, IdOf(selected)).Some?
      ensures equipment[..] == MarkInRepair(old(equipment[..]), IdOf(selected))
      ensures reservations == old(reservations) && proposals == old(proposals) && remarks == old(remarks)
    {
      var id := DecodeId(selected).value;
      faults := faults + [FaultRow(id, DecodeName(selected), reporter, description, today)];
      match FindRow(equipment[..], 1, id)
      case None =>
        found := false;
      case Some(k) =>
        equipment[k] := SetCell(equipment[k], 4, InRepair);
        found := true;
    }

    /** The proposal form: a pending proposal numbered len(snapshot) + 1. */
    method ProposePurchase(snapshot: Table, item: string, requester: string, price: string, reason: string, today: CalendarDate)
      modifies this
      ensures proposals == old(proposals) + [ProposalRow(|snapshot.rows| + 1, item, requester, price, reason, today)]
      ensures reservations == old(reservations) && faults == old(faults) && remarks == old(remarks)
    {
      var newId := |snapshot.rows| + 1;
      proposals := proposals + [ProposalRow(newId, item, requester, price, reason, today)];
    }

    /** The manager's panel: status and comment of the chosen proposal, if find() locates it. */
    method UpdateProposal(selected: string, status: string, comment: string) returns (found: bool)
      requires DecodeId(selected).Some?
      modifies this
      ensures found <==> FindRow(old(proposals), 1, IdOf(selected)).Some?
      ensures proposals == DecideProposal(old(proposals), IdOf(selected), status, comment)
      ensures reservations == old(reservations) && faults == old(faults) && remarks == old(remarks)
    {
      var id := DecodeId(selected).value;
      match FindRow(proposals, 1, id)
      case None =>
        found := false;
      case Some(k) =>
        proposals := proposals[k := SetCell(SetCell(proposals[k], 7, status), 8, comment)];
        found := true;
    }

    /** The remarks form: [str(today), author, text, kind]. */
    method SubmitRemark(author: string, kind: string, text: string, today: CalendarDate)
      modifies this
      ensures remarks == old(remarks) + [[Format(today), author, text, kind]]
      ensures reservations == old(reservations) && faults == old(faults) && proposals == old(proposals)
    {
      remarks := remarks + [[Format(today), author, text, kind]];
    }
  }
}
