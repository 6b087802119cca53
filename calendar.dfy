/**
 * The calendar view (przygotuj_eventy, app.py lines 68-99): reservations and
 * current loans projected to calendar events whose end date is exclusive.
 */
module Calendar {
  import opened Wrappers
  import opened Text
  import opened Dates
  import opened Tables
  import opened Reservations
  import opened Sequences

  datatype Event = Event(title: string, start: string, end: string, color: string)

  const DeviceColor := "#3788d8"
  const LabColor := "#ff9f89"
  const LoanColor := "#d83737"

  /** Title and colour of a reservation: whole-lab rows stand out. */
  function ReservationTitle(row: Record): string {
    if Get(row, IdColumn) == Some(WholeLab) then "⛔ LAB ZAJĘTY: " + GetOr(row, "Typ", "")
    else GetOr(row, "Nazwa", "?") + " (" + GetOr(row, "Uzytkownik", "?") + ")"
  }

  /**
   * The event of one reservation row: it starts on Data_Od as written and ends
   * the day after Data_Do. None where the body of the try raises and the row is
   * skipped: a missing date column, a Data_Do strptime rejects, or a Data_Do of
   * 9999-12-31, whose next day overflows.
   */
  function ReservationEvent(row: Record): Option<Event>
  {
    if "Data_Od" in row && "Data_Do" in row then
      match Parse(row["Data_Do"])
      case None => None
      case Some(last) =>
        match NextDay(last)
        case None => None
        case Some(next) =>
          var color := if Get(row, IdColumn) == Some(WholeLab) then LabColor else DeviceColor;
          Some(Event(ReservationTitle(row), row["Data_Od"], Format(next), color))
    else None
  }

  /** What a reservation event is, and which rows have one. */
  lemma {:induction false} ReservationEventShape(row: Record)
    ensures var e := ReservationEvent(row);
      && (e.Some? <==> "Data_Od" in row && "Data_Do" in row
                       && Parse(row["Data_Do"]).Some? && Parse(row["Data_Do"]).value != LastDate)
      && (e.Some? ==> e.value.start == row["Data_Od"] && e.value.title == ReservationTitle(row))
      && (e.Some? ==> Parse(e.value.end).Some?
                      && Ordinal(Parse(e.value.end).value) == Ordinal(Parse(row["Data_Do"]).value) + 1)
      && (e.Some? ==> (e.value.color == LabColor <==> Get(row, IdColumn) == Some(WholeLab)))
      && (e.Some? ==> e.value.color in {LabColor, DeviceColor})
  {
    if ReservationEvent(row).Some? {
      ParseFormat(NextDay(Parse(row["Data_Do"]).value).value);
    }
  }

  /** The event of one equipment row that is on loan with a return date; None for any other row. */
  function LoanEvent(row: Record, today: CalendarDate): (e: Option<Event>)
    ensures e.Some? <==> Get(row, "Status") == Some(OnLoan) && Truthy(Get(row, "Data_Zwrotu"))
    ensures e.Some? ==> e.value.color == LoanColor && e.value.end == row["Data_Zwrotu"]
    ensures e.Some? ==> e.value.start == if Truthy(Get(row, "Data_Wypozyczenia")) then row["Data_Wypozyczenia"] else Format(today)
  {
    if Get(row, "Status") == Some(OnLoan) && Truthy(Get(row, "Data_Zwrotu")) then
      var start := if Truthy(Get(row, "Data_Wypozyczenia")) then row["Data_Wypozyczenia"] else Format(today);
      var title := "WYPOŻYCZONE: " + Show(Get(row, "Nazwa")) + " (" + Show(Get(row, "Uzytkownik")) + ")";
      Some(Event(title, start, row["Data_Zwrotu"], LoanColor))
    else None
  }

  /** The reservation half of the calendar: only when the table is not empty and has Data_Od. */
  function ReservationEvents(t: Table): seq<Event> {
    if !IsEmpty(t) && "Data_Od" in t.columns then Collect(t.rows, ReservationEvent) else []
  }

  /** The loan half of the calendar: only when the table is not empty and has Status. */
  function LoanEvents(t: Table, today: CalendarDate): seq<Event> {
    if !IsEmpty(t) && "Status" in t.columns then Collect(t.rows, row => LoanEvent(row, today)) else []
  }

  /** przygotuj_eventy(df_rez, df_sprzet), with datetime.now() given as `today`. */
  method PrepareEvents(reservations: Table, equipment: Table, today: CalendarDate) returns (events: seq<Event>)
    ensures events == ReservationEvents(reservations) + LoanEvents(equipment, today)
  {
    events := [];
    if !IsEmpty(reservations) && "Data_Od" in reservations.columns {
      var rows := reservations.rows;
      for i := 0 to |rows|
        invariant events == Collect(rows[..i], ReservationEvent)
      {
        assert rows[..i + 1][..i] == rows[..i];
        var e := ReservationEvent(rows[i]);
        if e.Some? {
          events := events + [e.value];
        }
      }
      assert rows[..|rows|] == rows;
    }
    var loans := [];
    if !IsEmpty(equipment) && "Status" in equipment.columns {
      var rows := equipment.rows;
      for i := 0 to |rows|
        invariant loans == Collect(rows[..i], row => LoanEvent(row, today))
      {
        assert rows[..i + 1][..i] == rows[..i];
        var e := LoanEvent(rows[i], today);
        if e.Some? {
          loans := loans + [e.value];
        }
      }
      assert rows[..|rows|] == rows;
    }
    events := events + loans;
  }

  // ---------------------------------------------------------------------------
  // What the calendar shows

  /**
   * With a Data_Od column, the reservation half of the calendar holds exactly
   * the events of the rows whose event can be built; the other rows never show.
   */
  lemma {:induction false} EveryReadableReservationShows(t: Table, e: Event)
    requires !IsEmpty(t) && "Data_Od" in t.columns
    ensures e in ReservationEvents(t) <==> exists i :: 0 <= i < |t.rows| && ReservationEvent(t.rows[i]) == Some(e)
  {
    CollectMembers(t.rows, ReservationEvent, e);
  }

  /**
   * The loan half of the calendar holds exactly the events of the rows that
   * have one, when the table has a Status column, and nothing otherwise: each
   * row on loan with a return date shows, and every loan event comes from such a row.
   */
  lemma {:induction false} LoanEventsComeFromLoans(t: Table, today: CalendarDate, e: Event)
    ensures e in LoanEvents(t, today) <==>
      !IsEmpty(t) && "Status" in t.columns && exists i :: 0 <= i < |t.rows| && LoanEvent(t.rows[i], today) == Some(e)
    ensures e in LoanEvents(t, today) ==>
      exists i :: 0 <= i < |t.rows| && Get(t.rows[i], "Status") == Some(OnLoan)
                  && Truthy(Get(t.rows[i], "Data_Zwrotu")) && LoanEvent(t.rows[i], today) == Some(e)
  {
    CollectMembers(t.rows, row => LoanEvent(row, today), e);
  }

  /**
   * A reservation the forms wrote for [d1, d2] shows from str(d1) up to the
   * day after d2, in the colour that says whether it blocks the whole lab.
   */
  lemma {:induction false} BookingShowsItsDays(row: Record, id: string, d1: CalendarDate, d2: CalendarDate)
    requires BooksRange(row, id, d1, d2) && d2 != LastDate
    ensures ReservationEvent(row).Some?
    ensures ReservationEvent(row).value.start == Format(d1)
    ensures ReservationEvent(row).value.end == Format(NextDay(d2).value)
    ensures ReservationEvent(row).value.color == if id == WholeLab then LabColor else DeviceColor
  {
    ParseFormat(d2);
    ReservationEventShape(row);
  }
}
