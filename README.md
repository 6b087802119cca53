# Lab Manager: a verified model of the dashboard's logic

Lab Manager is a Streamlit dashboard for a teaching laboratory. A Google
spreadsheet with the tabs Sprzet (equipment), Rezerwacje (reservations),
Usterki (faults), Propozycje (purchase proposals) and Uwagi (remarks) is the
only store. The logic behind its forms lives in `app.py`. This project models
that logic in Dafny and proves what it guarantees:

- `sprawdz_dostepnosc`, the availability check. It scans whole-lab
  (`CALE_LAB`) bookings first, then the bookings of the requested device. The
  first booking whose dates overlap decides the answer.
- The option labels `Nazwa (ID: ID)` of the selection widgets, and how the
  handlers read the id and the name back out of a label.
- The normalisation of equipment ids when the Sprzet tab is loaded.
- `przygotuj_eventy`, which projects reservations and current loans to
  calendar events whose end day is exclusive.
- The forms that write to the spreadsheet: blocking the lab, planning
  classes, checking devices out, returning them, reporting a fault, proposing
  a purchase, the manager's decision on a proposal, and remarks.

The modules are:

- `Wrappers`: the Option type.
- `Sequences`: building a list by visiting a sequence in order, the shape of
  every loop that appends.
- `Text`: the Python string operations the handlers use.
- `Dates`: proleptic Gregorian dates with their day numbers, the next day,
  and `str(date)` together with the strict `%Y-%m-%d` parser.
- `Tables`: a worksheet in its two views. A `Table` is what `get_all_records()`
  gives, with cells as their `str()`. A `Grid` is the worksheet's cell values,
  which `find`, `update_cell` and `append_row` read and change.
- `Labels`: the option labels and the id normalisation.
- `Reservations`: the availability check.
- `Calendar`: the event projection.
- `Forms`: the form handlers, including the class `Spreadsheet`.

`Spreadsheet` holds the worksheets. Sprzet is an array whose rows the
checkout, return and fault forms change in place. The other tabs are grids.
The forms append to them, and the manager's decision also updates a row of
Propozycje in place. Every form reads the DataFrames loaded when the page
was drawn. The model passes that snapshot in as a parameter, and passes
`datetime.now()` in as `today`.

Each handler is proved against a function of the old state. The lemmas then
state what the forms promise:

- An admitted booking never overlaps an earlier booking of its device or of
  the whole lab.
- A whole-lab booking turns away every later request whose dates meet it.
- Checkout and return touch only columns 4-7 of the row `find()` locates. A
  return undoes a checkout.
- The return form gets through a selection exactly when every id is in the
  sheet.
- Proposal numbers stay 1, 2, 3, ..., and the manager's decision reaches the
  chosen proposal.

The label round trip needs more of the name than that it holds no `"ID: "`.
It must also not end in `"ID:"`, because `name + " (ID: "` then has an earlier
`"ID: "`. `Labels.NameEndingInIdColonLosesTheId` shows that the label of
device "Sonda ID:" with id 7 reads back as the id `"("`.

`app.py` behaviour worth knowing:

- When one device of the checkout form cannot be written, the handler shows
  the error and goes on with the later devices. The return form instead stops
  at the first device `find()` cannot locate.
- The connection to the spreadsheet is opened once, with no retry.
- Bookings are kept apart only in the weaker form
  `Reservations.NoDoubleBooking`. A whole-lab booking is admitted over device
  bookings, because `sprawdz_dostepnosc('CALE_LAB', ...)` looks only at
  whole-lab rows. The devices of one planning batch are not checked against
  one another. The lab-block and planning forms look only at the Rezerwacje
  sheet and never at the devices currently on loan in Sprzet.

## Model

| member | source | states |
|---|---|---|
| Text.Strip | app.py:56 | str.strip(): the result neither starts nor ends with whitespace and is no longer than the input |
| Text.StripPadded | app.py:198 | str.strip() removes exactly the surrounding whitespace: a trimmed core padded with whitespace strips back to the core |
| Text.StripSplits | app.py:198 | every string is its stripped result with whitespace on both sides |
| Text.StripTrimmed | app.py:198 | str.strip() leaves a string without surrounding whitespace unchanged |
| Text.StripIgnoresTrailingSpace | app.py:56 | a trailing whitespace character does not change what str.strip() returns |
| Text.Before | app.py:199 | s.split(sep)[0] is a prefix of s that ends where the FIRST occurrence of sep starts, is all of s exactly when sep does not occur, and holds no sep |
| Text.Second | app.py:198 | s.split(sep)[1] exists exactly when sep occurs (otherwise IndexError); it starts right after the first sep and runs up to the next occurrence of sep or to the end, holding none |
| Text.RemoveChar | app.py:198 | s.replace(c, "") leaves no c, is shorter by exactly the number of c in s, and changes nothing when there was none; with RemoveCharConcat this pins the result |
| Text.RemoveCharConcat | app.py:198 | removing a character from a concatenation removes it from each part |
| Text.NumberOfDecimal | app.py:292 | int(str(n)) == n for the proposal numbers |
| Dates.NextDay | app.py:82 | date + timedelta(days=1): absent exactly for date.max (OverflowError), otherwise the day number grows by one |
| Dates.ParseFormat | app.py:82 | Dates.Parse, the model of strptime(s, '%Y-%m-%d'), reads str(d) back as d |
| Dates.FormatParse | app.py:109-110 | every string Dates.Parse (strptime) accepts is exactly the formatted date: one spelling per date |
| Dates.OrderIsOrdinalOrder | app.py:111 | comparing dates is comparing their day numbers |
| Tables.SetCell | app.py:226-230 | update_cell sets the one cell, grows a short row with empty cells, and keeps every other cell |
| Tables.FindRow | app.py:225 | find(query, in_column=1) gives the first row whose column 1 equals the query, and nothing exactly when no row matches |
| Tables.RecordOfAt | app.py:54 | the record of a data row maps a header to its cell when no later header repeats it |
| Tables.Records | app.py:54 | get_all_records(): one record per data row, each built from the header; no columns when there are no data rows |
| Tables.RecordsAppend | app.py:182 | append_row adds exactly one record, the new row's, at the end of what get_all_records() returns |
| Tables.RecordsAppendAll | app.py:197-201 | appending several rows appends their records in order |
| Labels.Encode | app.py:191 | a label always holds the "ID: " marker |
| Labels.DecodeId | app.py:198 | the id piece is missing exactly when the label has no "ID: " (IndexError); otherwise it is stripped and has no ")" |
| Labels.DecodeName | app.py:199 | the name is a prefix of the label holding no " (ID:" |
| Labels.IdMarkerPosition | app.py:191 | in a label whose name followed by a space has no "ID: ", the first "ID: " is the encoder's |
| Labels.NameMarkerPosition | app.py:191 | in a label whose name has no " (ID:", the first " (ID:" is the encoder's |
| Labels.IdTail | app.py:191 | after the encoder's "ID: " come the id and ")" and no further "ID: " |
| Labels.DecodeIdEncode | app.py:198 | decoding the label's id gives the id back when the name followed by a space has no "ID: " and the id is stripped with no ")" and no "ID: " |
| Labels.DecodeNameEncode | app.py:199 | decoding the label's name gives the name back when it has no " (ID:" |
| Labels.DecimalIdRoundTrip | app.py:298-302 | a numeric id such as a proposal number always reads back from its label |
| Labels.NameEndingInIdColonLosesTheId | app.py:191-198 | the name "Sonda ID:" holds neither marker, yet the id read back from its label is "(" |
| Labels.DropFloatSuffix | app.py:56 | re.sub(r'\.0$', '') removes a final ".0", or a ".0" before a final newline, and leaves exactly the strings without such an ending unchanged |
| Labels.NormalizeId | app.py:56 | a normalised id has no surrounding whitespace |
| Labels.NormalizePlainIdIsStrip | app.py:56 | an id without a ".0" ending, before a final newline or not, is only stripped |
| Labels.NormalizeDropsOneSuffix | app.py:56 | exactly one trailing ".0" goes, also before a final newline, and the rest is stripped |
| Labels.NormalizeKeepsPlainIds | app.py:56 | an id without surrounding whitespace and without a ".0" ending is kept |
| Labels.NormalizeIdempotentUnlessFloatSuffix | app.py:56 | normalising a normalised id changes it exactly when it still ends in ".0" |
| Labels.NormalizeNotIdempotent | app.py:56 | "1.0.0" loads as "1.0", which would load as "1" |
| Labels.NormalizeIds | app.py:55-56 | load_data normalises every ID of a non-empty table with an ID column and changes nothing else |
| Labels.Options | app.py:191 | one label per row, name column + " (ID: " + ID + ")", each of which can be decoded; both columns must exist, as df[column] demands |
| Reservations.SpanOf | app.py:109-110 | a row's range exists exactly when both date columns are present and parse, and holds the parsed dates |
| Reservations.FirstBlocking | app.py:106-112 | the first row that books the id with readable dates overlapping the request; none exactly when no row does |
| Reservations.Availability | app.py:101-123 | an empty table or one without ID_Sprzetu always answers (True, ""); a free answer has an empty reason |
| Reservations.CheckAvailability | app.py:101-123 | the two scans with early return give exactly the verdict Availability specifies |
| Reservations.BlockedIff | app.py:104-123 | the answer is "not free" exactly when the table is scanned and some row is a whole-lab booking, or a booking of a target other than CALE_LAB, whose dates parse and overlap |
| Reservations.WholeLabTakesPrecedence | app.py:106-111 | an overlapping whole-lab row decides for every target, and the reason names the first such row's user |
| Reservations.FirstDeviceRowNamesHolder | app.py:115-121 | without a whole-lab clash, the reason is "user (type)" of the device's first overlapping row |
| Reservations.FirstBlockingAppend | app.py:106-112 | a row that does not block leaves the first blocking row where it was |
| Reservations.WholeLabIgnoresDeviceRows | app.py:115 | adding a device booking never changes the answer for CALE_LAB |
| Reservations.WholeLabRowBlocksEveryone | app.py:111 | once a whole-lab booking is written, every request whose range meets it, for any target, is refused with a "CAŁE LABO: " reason |
| Reservations.OverlapIsSharedDay | app.py:111 | the test start <= r_e and end >= r_s holds exactly when some day lies in both closed ranges |
| Reservations.AdmittedRowKeepsNoDoubleBooking | app.py:178-182 | a booking the check admits keeps the table free of double bookings |
| Reservations.AdmittedBatchKeepsNoDoubleBooking | app.py:195-201 | a batch of device bookings admitted against one table keeps it free of double bookings when the devices are distinct |
| Calendar.ReservationEventShape | app.py:71-85 | Calendar.ReservationEvent, the body of the try for one reservation row: it has an event exactly when both dates are there and Data_Do parses and is not date.max; the event starts on Data_Od as written and ends the day after Data_Do; its colour is #ff9f89 exactly for whole-lab rows, #3788d8 otherwise |
| Calendar.LoanEvent | app.py:88-98 | a loan event exists exactly for a row on loan with a return date; it ends on the return date and starts on the checkout date, or today when that is empty |
| Calendar.PrepareEvents | app.py:68-99 | the two loops produce the reservation events in table order followed by the loan events |
| Calendar.EveryReadableReservationShows | app.py:72-85 | an event is on the reservation half of the calendar exactly when some row of the sheet produces it; rows whose dates cannot be read never show |
| Calendar.LoanEventsComeFromLoans | app.py:87-98 | an event is on the loan half of the calendar exactly when the table has a Status column and some row produces it: every row on loan with a return date shows, and every loan event comes from such a row |
| Calendar.BookingShowsItsDays | app.py:82 | a booking the forms wrote for [d1, d2] shows from str(d1) to the day after d2, in the colour of its kind |
| Forms.IdsOfOptions | app.py:191-198 | selecting labels built from the sheet reads back exactly the sheet's ids, in order, when names and ids meet the label round-trip conditions |
| Forms.ReservationRowBooks | app.py:182 | the row a form appends reads back as a booking of its id for [d1, d2] |
| Forms.PlanOf | app.py:198-201 | a selected option yields a row exactly when its device is free in the snapshot, and the row carries the decoded id and name |
| Forms.PlannedRowsStep | app.py:197-201 | each further selected option adds its row, if any, at the end |
| Forms.PlannedRowsExactly | app.py:195-201 | a row is appended exactly for each selected device that is free in the snapshot |
| Forms.PlanningKeepsNoDoubleBooking | app.py:195-201 | planning against a current snapshot keeps the reservations free of double bookings when the selected devices are distinct and none is CALE_LAB |
| Forms.LabBlockKeepsNoDoubleBooking | app.py:178-182 | blocking the lab against a current snapshot keeps the reservations free of double bookings |
| Forms.CheckoutRowCells | app.py:226-230 | checkout sets status, borrower, due date and checkout date in columns 4-7 and keeps every other column |
| Forms.ReturnRowCells | app.py:248-251 | a return sets "Dostępny" in column 4, empties columns 5-7 and keeps every other column |
| Forms.ReturnUndoesCheckout | app.py:226-251 | returning a device that was available with empty loan columns gives a row that reads cell by cell as before, and exactly the old row when it had seven cells |
| Forms.CheckoutOne | app.py:222-231 | a device is skipped exactly when it is booked, not found exactly when it is free and find() fails, and only a checkout changes the sheet, at the row find() locates |
| Forms.CheckoutAll | app.py:220-231 | the sheet keeps its size and there is one outcome per selected id |
| Forms.CheckoutOneKeepsIds | app.py:225-230 | checking one device out leaves find() giving the same row for every id |
| Forms.CheckoutKeepsIds | app.py:220-231 | the whole checkout form leaves find() giving the same row for every id |
| Forms.CheckoutOutcomes | app.py:220-231 | each device's outcome depends only on the snapshot and the sheet before the form, not on the devices handled before it |
| Forms.ReturnFrom | app.py:245-251 | the sheet keeps its size and no more devices are returned than were selected |
| Forms.ReturnKeepsIds | app.py:247-251 | a return leaves find() giving the same row for every id |
| Forms.ReturnCompletes | app.py:245-251 | the return form returns every selected device exactly when find() locates each of them |
| Forms.CheckoutThenReturn | app.py:222-251 | checking out an available device with empty loan columns and returning it completes and leaves a sheet that reads as before, and the same sheet when the row had seven cells |
| Forms.MarkInRepair | app.py:269-270 | the fault form changes only column 4 of the row find() locates, to "W naprawie", and nothing when find() fails |
| Forms.ProposalKeepsNumbering | app.py:292-293 | numbering a new proposal len(snapshot) + 1 against a current snapshot keeps the proposals numbered 1, 2, 3, ... |
| Forms.NumberedFind | app.py:303 | under that numbering, find() locates proposal n at row n |
| Forms.DecideProposal | app.py:303-304 | the manager's update changes only columns 7 and 8 of the row find() locates, and nothing when find() fails |
| Forms.DecisionReachesChosenProposal | app.py:298-304 | choosing proposal n by its label updates proposal n and no other row |
| Forms.Spreadsheet.BlockLab | app.py:178-182 | the verdict is the availability of CALE_LAB, and one whole-lab row is appended exactly when it is free |
| Forms.Spreadsheet.PlanOne | app.py:198-201 | one selected option appends its device's row exactly when the device is free |
| Forms.Spreadsheet.PlanClasses | app.py:195-201 | the loop appends exactly the rows of the selected devices that are free in the snapshot, in selection order |
| Forms.Spreadsheet.CheckOut | app.py:218-231 | the loop leaves the equipment sheet and the outcomes exactly as the checkout form over the selected ids specifies |
| Forms.Spreadsheet.ReturnDevices | app.py:243-251 | the loop leaves the equipment sheet and the count exactly as the return form specifies, stopping at the first id not found |
| Forms.Spreadsheet.ReportFault | app.py:263-270 | the fault row is appended in any case, and the device is marked "W naprawie" exactly when find() locates it |
| Forms.Spreadsheet.ProposePurchase | app.py:292-293 | a pending proposal numbered len(snapshot) + 1 is appended and no other sheet changes |
| Forms.Spreadsheet.UpdateProposal | app.py:302-304 | the chosen proposal is decided exactly when find() locates it, and no other sheet changes |
| Forms.Spreadsheet.SubmitRemark | app.py:313-314 | one remark row [today, author, text, kind] is appended and no other sheet changes |

## Left out

- The Streamlit page, the widgets, the messages, the `color_status` and
  `color_prop` styling and the calendar component. They are presentation only.
- The status banner at app.py:158-159. It is `Reservations.Availability` for
  CALE_LAB on today's date, shown as a message.
- Authentication, `client.open`, `worksheet` and the network behaviour of
  `get_all_records`, `find`, `update_cell` and `append_row`. They are foreign
  calls. The model runs them on in-memory tables and grids.
- The 60-second cache and its clearing. They are wall-clock memoisation with no
  logic of their own.
- The arity mismatch of `load_data`'s error returns (app.py:43, 49, 65). It is
  an I/O path.
- Pandas internals. Cells are modelled as the strings `str()` gives, so the
  numeric coercion of `get_all_records()` is not modelled: "007" loads as 7.
  Blank cells load as "" in both. `Text.Show` renders a
  missing key as "None".
- The status filters that build the checkout and return option lists
  (app.py:209, 239). The forms take any selection of labels.
- A selection with an option from which no id can be read. The handlers then
  raise IndexError. The model's forms require decodable labels, which
  `Labels.Options` always produces.
- Labels.Options: requires the name and ID columns. app.py:191, 211, 241, 260 and
  298 read them with `df[column]`, which raises KeyError on a DataFrame
  without them; that uncaught exception is not modelled.
- `datetime.now()`. It is a parameter.
- The leniency of `strptime('%Y-%m-%d')`: it also reads months and days
  written with one digit or padded with a space ("2024-1-5", "2024-01- 5").
  The model's parser accepts exactly `YYYY-MM-DD` with a valid date, so such a
  row, which CPython would read, counts here as unreadable.
- Two users editing the sheet at the same time. Concurrency is not modelled.
- A failed `find()` in the fault and proposal forms (app.py:269-270,
  303-304). It raises an uncaught exception that ends the handler, so the
  cache clearing and the rerun after it never happen. The model records
  whether the row was found and leaves the sheet as far as the handler got.
- Forms.CheckoutAll: its own contract states only sizes. What it does is
  stated by Forms.CheckoutOne, Forms.CheckoutOutcomes and
  Forms.CheckoutKeepsIds.
- Forms.ReturnFrom: its own contract states only sizes. What it does is stated
  by Forms.ReturnCompletes, Forms.ReturnKeepsIds and Forms.CheckoutThenReturn.
