/**
 * The availability check of the dashboard (sprawdz_dostepnosc, app.py lines
 * 101-123) over the reservations DataFrame, and what it guarantees about the
 * bookings it lets through.
 */
module Reservations {
  import opened Wrappers
  import opened Text
  import opened Dates
  import opened Tables

  /** The equipment id that books the whole laboratory. */
  const WholeLab := "CALE_LAB"
  const IdColumn := "ID_Sprzetu"

  /** The closed range [from, to] of a reservation row. */
  datatype Span = Span(from: CalendarDate, to: CalendarDate)

  /**
   * Data_Od and Data_Do of a row when both are there and parse; None where
   * the lookup or strptime raises and the scan moves on to the next row.
   */
  function SpanOf(row: Record): (r: Option<Span>)
    ensures r.Some? ==> Get(row, "Data_Od").Some? && Parse(row["Data_Od"]) == Some(r.value.from)
    ensures r.Some? ==> Get(row, "Data_Do").Some? && Parse(row["Data_Do"]) == Some(r.value.to)
    ensures r.None? <==> Get(row, "Data_Od").None? || Get(row, "Data_Do").None?
                         || Parse(row["Data_Od"]).None? || Parse(row["Data_Do"]).None?
  {
    if "Data_Od" in row && "Data_Do" in row then
      match (Parse(row["Data_Od"]), Parse(row["Data_Do"]))
      case (Some(a), Some(b)) => Some(Span(a, b))
      case _ => None
    else None
  }

  /** data_start <= r_e and data_koniec >= r_s */
  predicate Overlaps(start: CalendarDate, end: CalendarDate, s: Span) {
    NotAfter(start, s.to) && NotAfter(s.from, end)
  }

  /** The row books `id`, its dates parse, and its range overlaps [start, end]. */
  predicate Blocks(row: Record, id: string, start: CalendarDate, end: CalendarDate) {
    Get(row, IdColumn) == Some(id) && SpanOf(row).Some? && Overlaps(start, end, SpanOf(row).value)
  }

  /** The position of the first row that blocks `id` on [start, end], in table order. */
  function FirstBlocking(rows: seq<Record>, id: string, start: CalendarDate, end: CalendarDate): (r: Option<nat>)
    ensures r.Some? ==> r.value < |rows| && Blocks(rows[r.value], id, start, end)
    ensures r.Some? ==> forall j :: 0 <= j < r.value ==> !Blocks(rows[j], id, start, end)
    ensures r.None? <==> forall j :: 0 <= j < |rows| ==> !Blocks(rows[j], id, start, end)
  {
    if rows == [] then None
    else if Blocks(rows[0], id, start, end) then Some(0)
    else
      var rest := FirstBlocking(rows[1..], id, start, end);
      assert forall j :: 1 <= j < |rows| ==> rows[j] == rows[1..][j - 1];
      if rest.None? then None else Some(rest.value + 1)
  }

  /** The first blocking row is the one before which nothing blocks. */
  lemma {:induction false} FirstBlockingIs(rows: seq<Record>, id: string, start: CalendarDate, end: CalendarDate, i: nat)
    requires i < |rows| && Blocks(rows[i], id, start, end)
    requires forall j :: 0 <= j < i ==> !Blocks(rows[j], id, start, end)
    ensures FirstBlocking(rows, id, start, end) == Some(i)
  {
  }

  /** The (free, reason) pair the check returns. */
  datatype Verdict = Verdict(free: bool, reason: string)

  const Free := Verdict(true, "")

  /** f"CAŁE LABO: {row.get('Uzytkownik')}" */
  function LabReason(row: Record): string {
    "CAŁE LABO: " + Show(Get(row, "Uzytkownik"))
  }

  /** f"{row.get('Uzytkownik')} ({row.get('Typ')})" */
  function DeviceReason(row: Record): string {
    Show(Get(row, "Uzytkownik")) + " (" + Show(Get(row, "Typ")) + ")"
  }

  /** The row stands in the way of booking `target` on [start, end]: a whole-lab row, or a row of the device. */
  predicate Conflicts(row: Record, target: string, start: CalendarDate, end: CalendarDate) {
    Blocks(row, WholeLab, start, end) || (target != WholeLab && Blocks(row, target, start, end))
  }

  /** The check looks at the rows only when the DataFrame is not empty and has the id column. */
  predicate Scanned(t: Table) {
    !IsEmpty(t) && IdColumn in t.columns
  }

  /**
   * sprawdz_dostepnosc(target, start, end, t): whole-lab rows first, then,
   * for a device, the rows of that device; the first overlapping row decides.
   */
  function Availability(target: string, start: CalendarDate, end: CalendarDate, t: Table): (v: Verdict)
    ensures !Scanned(t) ==> v == Free
    ensures v.free ==> v.reason == ""
  {
    if !Scanned(t) then Free
    else match FirstBlocking(t.rows, WholeLab, start, end)
      case Some(i) => Verdict(false, LabReason(t.rows[i]))
      case None =>
        if target == WholeLab then Free
        else match FirstBlocking(t.rows, target, start, end)
          case Some(i) => Verdict(false, DeviceReason(t.rows[i]))
          case None => Free
  }

  /** The scan as the dashboard runs it: two loops with an early return. */
  method CheckAvailability(target: string, start: CalendarDate, end: CalendarDate, t: Table)
    returns (free: bool, reason: string)
    ensures Verdict(free, reason) == Availability(target, start, end, t)
  {
    if IsEmpty(t) {
      return true, "";
    }
    if IdColumn in t.columns {
      var i := 0;
      while i < |t.rows|
        invariant 0 <= i <= |t.rows|
        invariant forall j :: 0 <= j < i ==> !Blocks(t.rows[j], WholeLab, start, end)
      {
        var row := t.rows[i];
        if Get(row, IdColumn) == Some(WholeLab) {
          var span := SpanOf(row);
          if span.Some? && Overlaps(start, end, span.value) {
            WholeLabTakesPrecedence(target, start, end, t, i);
            return false, LabReason(row);
          }
        }
        i := i + 1;
      }
      assert FirstBlocking(t.rows, WholeLab, start, end) == None;
      if target != WholeLab {
        i := 0;
        while i < |t.rows|
          invariant 0 <= i <= |t.rows|
          invariant forall j :: 0 <= j < i ==> !Blocks(t.rows[j], target, start, end)
        {
          var row := t.rows[i];
          if Get(row, IdColumn) == Some(target) {
            var span := SpanOf(row);
            if span.Some? && Overlaps(start, end, span.value) {
              FirstDeviceRowNamesHolder(target, start, end, t, i);
              return false, DeviceReason(row);
            }
          }
          i := i + 1;
        }
        assert FirstBlocking(t.rows, target, start, end) == None;
      }
    }
    return true, "";
  }

  // ---------------------------------------------------------------------------
  // What the verdict says

  /** The answer is "not free" exactly when some row stands in the way. */
  lemma {:induction false} BlockedIff(target: string, start: CalendarDate, end: CalendarDate, t: Table)
    ensures !Availability(target, start, end, t).free <==>
      Scanned(t) && exists i :: 0 <= i < |t.rows| && Conflicts(t.rows[i], target, start, end)
  {
    if Scanned(t) {
      var lab := FirstBlocking(t.rows, WholeLab, start, end);
      if lab.Some? {
        assert Conflicts(t.rows[lab.value], target, start, end);
      } else if target != WholeLab {
        var dev := FirstBlocking(t.rows, target, start, end);
        if dev.Some? {
          assert Conflicts(t.rows[dev.value], target, start, end);
        }
      }
    }
  }

  /** An overlapping whole-lab row decides the answer, whatever the target. */
  lemma {:induction false} WholeLabTakesPrecedence(target: string, start: CalendarDate, end: CalendarDate, t: Table, i: nat)
    requires Scanned(t) && i < |t.rows| && Blocks(t.rows[i], WholeLab, start, end)
    requires forall j :: 0 <= j < i ==> !Blocks(t.rows[j], WholeLab, start, end)
    ensures Availability(target, start, end, t) == Verdict(false, LabReason(t.rows[i]))
  {
    FirstBlockingIs(t.rows, WholeLab, start, end, i);
  }

  /** Without a whole-lab clash, the first overlapping row of the device names the holder. */
  lemma {:induction false} FirstDeviceRowNamesHolder(target: string, start: CalendarDate, end: CalendarDate, t: Table, i: nat)
    requires Scanned(t) && target != WholeLab
    requires forall j :: 0 <= j < |t.rows| ==> !Blocks(t.rows[j], WholeLab, start, end)
    requires i < |t.rows| && Blocks(t.rows[i], target, start, end)
    requires forall j :: 0 <= j < i ==> !Blocks(t.rows[j], target, start, end)
    ensures Availability(target, start, end, t) == Verdict(false, DeviceReason(t.rows[i]))
  {
    FirstBlockingIs(t.rows, target, start, end, i);
  }

  /** A row that does not block leaves the first blocking row where it was. */
  lemma {:induction false} FirstBlockingAppend(rows: seq<Record>, row: Record, id: string, start: CalendarDate, end: CalendarDate)
    requires !Blocks(row, id, start, end)
    ensures FirstBlocking(rows + [row], id, start, end) == FirstBlocking(rows, id, start, end)
  {
    var all := rows + [row];
    assert forall j :: 0 <= j < |rows| ==> all[j] == rows[j];
    match FirstBlocking(rows, id, start, end)
    case None =>
      assert forall j :: 0 <= j < |all| ==> !Blocks(all[j], id, start, end);
    case Some(i) =>
      FirstBlockingIs(all, id, start, end, i);
  }

  /**
   * Booking the whole lab ignores device bookings: a device row added to the
   * table never changes the answer for CALE_LAB.
   */
  lemma {:induction false} WholeLabIgnoresDeviceRows(start: CalendarDate, end: CalendarDate, t: Table, row: Record)
    requires Get(row, IdColumn) != Some(WholeLab)
    ensures Availability(WholeLab, start, end, Table(t.columns, t.rows + [row])) == Availability(WholeLab, start, end, t)
  {
    FirstBlockingAppend(t.rows, row, WholeLab, start, end);
  }

  /** The reservation row str(d1)..str(d2) for `id`, as the forms append it. */
  predicate BooksRange(row: Record, id: string, d1: CalendarDate, d2: CalendarDate) {
    Get(row, IdColumn) == Some(id) && Get(row, "Data_Od") == Some(Format(d1)) && Get(row, "Data_Do") == Some(Format(d2))
  }

  /** A whole-lab row stops every later request, for any target, whose range meets it. */
  lemma {:induction false} WholeLabRowBlocksEveryone(t: Table, row: Record, d1: CalendarDate, d2: CalendarDate,
                                                     target: string, start: CalendarDate, end: CalendarDate)
    requires IdColumn in t.columns
    requires BooksRange(row, WholeLab, d1, d2) && Overlaps(start, end, Span(d1, d2))
    ensures var v := Availability(target, start, end, Table(t.columns, t.rows + [row]));
      !v.free && "CAŁE LABO: " <= v.reason
  {
    ParseFormat(d1);
    ParseFormat(d2);
    var rows := t.rows + [row];
    assert Conflicts(rows[|t.rows|], target, start, end);
    BlockedIff(target, start, end, Table(t.columns, rows));
  }

  /** Two closed ranges overlap exactly when some day lies in both. */
  lemma {:induction false} OverlapIsSharedDay(start: CalendarDate, end: CalendarDate, s: Span)
    requires NotAfter(start, end) && NotAfter(s.from, s.to)
    ensures Overlaps(start, end, s) <==>
      exists d: CalendarDate :: NotAfter(start, d) && NotAfter(d, end) && NotAfter(s.from, d) && NotAfter(d, s.to)
  {
    OrderIsOrdinalOrder(start, end);
    OrderIsOrdinalOrder(s.from, s.to);
    OrderIsOrdinalOrder(start, s.to);
    OrderIsOrdinalOrder(s.from, end);
    OrderIsOrdinalOrder(start, s.from);
    if Overlaps(start, end, s) {
      var d := if NotAfter(start, s.from) then s.from else start;
      OrderIsOrdinalOrder(d, end);
      OrderIsOrdinalOrder(d, s.to);
      OrderIsOrdinalOrder(start, d);
      OrderIsOrdinalOrder(s.from, d);
    } else {
      forall d: CalendarDate
        ensures !(NotAfter(start, d) && NotAfter(d, end) && NotAfter(s.from, d) && NotAfter(d, s.to))
      {
        OrderIsOrdinalOrder(start, d);
        OrderIsOrdinalOrder(d, end);
        OrderIsOrdinalOrder(s.from, d);
        OrderIsOrdinalOrder(d, s.to);
      }
    }
  }

  // ---------------------------------------------------------------------------
  // No double booking

  /**
   * `later` could not have been admitted after `earlier`: both parse, the
   * later row's range overlaps the earlier one's, and the earlier row is a
   * booking of the same id or of the whole lab.
   */
  predicate Collides(earlier: Record, later: Record) {
    Get(later, IdColumn).Some? && SpanOf(later).Some?
    && var id, s := Get(later, IdColumn).value, SpanOf(later).value;
       Blocks(earlier, id, s.from, s.to) || Blocks(earlier, WholeLab, s.from, s.to)
  }

  /**
   * The invariant the check maintains: no row overlaps an earlier booking of
   * its own id or an earlier whole-lab booking. (A whole-lab row may still
   * overlap earlier device rows: the check for CALE_LAB does not look at them.)
   */
  predicate NoDoubleBooking(rows: seq<Record>) {
    forall i, j :: 0 <= i < j < |rows| ==> !Collides(rows[i], rows[j])
  }

  /** A row admitted by the check keeps the table free of double bookings. */
  lemma {:induction false} AdmittedRowKeepsNoDoubleBooking(t: Table, row: Record, id: string, d1: CalendarDate, d2: CalendarDate)
    requires WellFormed(t) && NoDoubleBooking(t.rows)
    requires BooksRange(row, id, d1, d2)
    requires Availability(id, d1, d2, t).free
    ensures NoDoubleBooking(t.rows + [row])
  {
    ParseFormat(d1);
    ParseFormat(d2);
    BlockedIff(id, d1, d2, t);
    var rows := t.rows + [row];
    assert SpanOf(row) == Some(Span(d1, d2));
    forall i, j | 0 <= i < j < |rows| ensures !Collides(rows[i], rows[j]) {
      if j < |t.rows| {
        assert rows[i] == t.rows[i] && rows[j] == t.rows[j];
      } else {
        assert rows[i] == t.rows[i] && rows[j] == row;
        assert Get(t.rows[i], IdColumn).Some? ==> Scanned(t);
      }
    }
  }

  /**
   * A batch of device rows for one range, each admitted against the same
   * earlier table, keeps it free of double bookings as long as no two rows of
   * the batch book the same device.
   */
  lemma {:induction false} AdmittedBatchKeepsNoDoubleBooking(t: Table, batch: seq<Record>, ids: seq<string>, d1: CalendarDate, d2: CalendarDate)
    requires WellFormed(t) && NoDoubleBooking(t.rows)
    requires |ids| == |batch|
    requires forall k :: 0 <= k < |batch| ==> BooksRange(batch[k], ids[k], d1, d2)
    requires forall k :: 0 <= k < |ids| ==> ids[k] != WholeLab && Availability(ids[k], d1, d2, t).free
    requires forall p, q :: 0 <= p < q < |ids| ==> ids[p] != ids[q]
    ensures NoDoubleBooking(t.rows + batch)
  {
    ParseFormat(d1);
    ParseFormat(d2);
    forall k | 0 <= k < |ids| {
      BlockedIff(ids[k], d1, d2, t);
    }
    var rows := t.rows + batch;
    var n := |t.rows|;
    forall i, j | 0 <= i < j < |rows| ensures !Collides(rows[i], rows[j]) {
      if j < n {
        assert rows[i] == t.rows[i] && rows[j] == t.rows[j];
      } else if i < n {
        assert rows[i] == t.rows[i] && rows[j] == batch[j - n];
        assert SpanOf(batch[j - n]) == Some(Span(d1, d2));
        assert Get(t.rows[i], IdColumn).Some? ==> Scanned(t);
        assert !Conflicts(t.rows[i], ids[j - n], d1, d2);
      } else {
        assert rows[i] == batch[i - n] && rows[j] == batch[j - n];
        assert ids[i - n] != ids[j - n];
      }
    }
  }
}
