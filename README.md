# Kosthority payment status and room status, modelled in Dafny

Kosthority manages boarding-house ("kost") rentals: buildings, rooms (the
`houses` table), tenants, rentals and monthly payments. This project models four
parts of it and proves properties of the model:

- **the per-rental payment status** of the payment report. It covers the
  rental's payments, the months rented (30-day periods, rounded up), the
  expected total (billed for at least one month), the balance, and the
  `behind` / `current` / `overpaid` status. It also covers the walk over
  calendar months that lists the months with no payment record, the count of
  payment records, and the latest paid-for month (`report.dfy`). The JavaScript
  date arithmetic it relies on is modelled on integers in `calendar.dfy`:
  - UTC day numbers;
  - month steps with year rollover;
  - the `YYYY-MM` text from `toISOString().slice(0, 7)`;
  - `new Date("YYYY-MM")`.
- **the room-status reconciliation** (`syncRoomStatus`). Every room outside
  maintenance is made occupied exactly when an active rental is for it. A failed
  room update is logged, and the walk goes on (`room_sync.dfy`).
- **the table effects of the rental mutations** `create`, `update`,
  `updateStatus` and `delete`. They are modelled as methods of a class holding
  the rentals table and the rooms' status column, with a failure flag for each
  database call. Each method is proved equal to a function of the old tables.
  Lemmas state what changes and what stays (`rental_store.dfy`).
- **the payment form schema**, in particular the `^\d{4}-\d{2}$` shape of
  `for_month` that the report's month matching depends on (`payment_schema.dfy`).

`wrappers.dfy` holds `Option` and `Result`; `domain.dfy` holds the rental and
room records shared by the modules.

Time is an explicit parameter `now`, in integer milliseconds since 1970-01-01
UTC. A move-in date is read at UTC midnight, and money is integral.

Three behaviours of the code that are easy to miss:
- **Months billed.** The code bills `ceil(elapsed / 30 days)` months, floored
  at 1. It does not count calendar months up to the previous month.
- **The walk.** The walk includes the current month, as long as its same-day
  cursor is not after now.
- **Missing months.** Any payment for a month, however small, removes that
  month from the missing list. A partly paid month is not told apart from a
  fully paid one.

For example, moving in on 2024-01-01 and reporting at midnight of 2024-04-01
gives 4 months rented, and January to April are candidates
(`Report.FourMonthsIntoTheYear`). With payments for January and February,
exactly March and April are missing.

## Model

| member | source | states |
|---|---|---|
| `PaymentSchema.IsForMonthText` | src/utils/schemas/payment.ts:10 | the `^\d{4}-\d{2}$` shape: exactly seven characters, four ASCII digits, a dash and two digits; `ForMonthShapeOnly` shows it accepts "2024-13" and refuses "2024-01-15" |
| `PaymentSchema.PaymentIssues` | src/utils/schemas/payment.ts:3-11 | each schema issue is reported exactly when its check fails: id present and below 1, rental_id below 1, empty amount, empty for_month, for_month not four digits, dash, two digits |
| `PaymentSchema.ParsePaymentForm` | src/utils/schemas/payment.ts:3-11 | a form is accepted iff id is absent or at least 1, rental_id is at least 1, amount is non-empty and for_month has the `YYYY-MM` shape; an accepted form is returned unchanged, a refused one with its non-empty issue list |
| `PaymentSchema.EmptyMonthAlsoMisformatted` | src/utils/schemas/payment.ts:8-10 | an empty for_month also fails the format check |
| `PaymentSchema.ForMonthShapeOnly` | src/utils/schemas/payment.ts:10 | the format only checks the shape: "2024-13" and "2024-00" pass, "2024-1", "2024-01-15" and "202a-01" do not |
| `Calendar.Next` | src/server/api/routers/reportRouter.ts:78 | the month step moves the month index up by one, rolling December into January, and is undone by the previous-month step |
| `Calendar.NextMonth` | src/server/api/routers/reportRouter.ts:78 | the same day of the next month is exactly the current month's length in days later, including across a year end |
| `Calendar.DayAtMonotone` | src/server/api/routers/reportRouter.ts:78 | the same day of a month k months later is at least 28·k days later |
| `Calendar.MidnightOf` | src/server/api/routers/reportRouter.ts:75 | a date read at UTC midnight falls on a whole number of days since the epoch; `CursorStartsAtMoveIn` ties it to the walk's first cursor |
| `Calendar.MonthText` | src/server/api/routers/reportRouter.ts:79 | the text is seven characters long, and it has the for_month shape exactly when the year is 0 to 9999 |
| `Calendar.ParseMonthText` | src/server/api/routers/reportRouter.ts:95 | a text names a month only if it has the for_month shape and a four-digit year; a text of that shape names one exactly when its month digits are 01 to 12 |
| `Calendar.MonthTextParses` | src/server/api/routers/reportRouter.ts:79 | for years 0 to 9999 the month text is a valid for_month value that reads back as the same month |
| `Calendar.ParseMonthTextInverse` | src/server/api/routers/reportRouter.ts:95 | a for_month value that `new Date` accepts is the text of the month it denotes |
| `Calendar.MonthTextMatch` | src/server/api/routers/reportRouter.ts:79-80 | for a value of the for_month shape, "month m prints as it" is the same as "it denotes month m", so "2024-13" matches no month |
| `Report.PaymentsOf` | src/server/api/routers/reportRouter.ts:52 | the rental's payments are exactly the payments with its rental id, and never more than all payments |
| `Report.PaymentsOfConcat` | src/server/api/routers/reportRouter.ts:52 | the filter distributes over concatenation |
| `Report.TotalPaid` | src/server/api/routers/reportRouter.ts:62 | the sum of the amounts is not negative when no amount is; `TotalPaidConcat` states how it splits over concatenation |
| `Report.TotalPaidConcat` | src/server/api/routers/reportRouter.ts:62 | the total of concatenated payment lists is the sum of their totals |
| `Report.ForMonths` | src/server/api/routers/reportRouter.ts:70 | the paid-month list has one entry per payment, its for_month, in order |
| `Report.MonthsRented` | src/server/api/routers/reportRouter.ts:57-59 | months rented is the ceiling of the elapsed time over 30 days, and is at most 0 exactly when now is not after move-in |
| `Report.ExpectedTotal` | src/server/api/routers/reportRouter.ts:64 | the expected total is the price for at most one month rented and price × months otherwise, so it is at least the price when the price is non-negative |
| `Report.Classify` | src/server/api/routers/reportRouter.ts:94 | behind iff balance < 0, overpaid iff balance ≥ 0 and balance > price, current iff 0 ≤ balance ≤ price |
| `Report.MonthInstant` | src/server/api/routers/reportRouter.ts:95 | a for_month value has an instant exactly when it names a month, and it is then UTC midnight of that month's first day |
| `Report.LastPaymentOf` | src/server/api/routers/reportRouter.ts:95 | null iff there are no payments; NaN iff some for_month names no month (see `MonthInstant`); otherwise the month instant of one payment that no other payment's is above |
| `Report.CursorAt` | src/server/api/routers/reportRouter.ts:75-78 | the cursor of month m is the move-in day of m at UTC midnight; `CursorStartsAtMoveIn`, `NextCursor` and `CursorIncreasing` state where it starts, how it steps and that it increases |
| `Report.CursorStartsAtMoveIn` | src/server/api/routers/reportRouter.ts:75-78 | the walk's cursor starts at move-in midnight |
| `Report.NextCursor` | src/server/api/routers/reportRouter.ts:78 | one step of the cursor adds the length of the month it leaves, and so moves it forward |
| `Report.CursorIncreasing` | src/server/api/routers/reportRouter.ts:78 | the cursor strictly increases with the month |
| `Report.WalkStopsAt` | src/server/api/routers/reportRouter.ts:78 | a walk that stops at the first month whose cursor is after now has visited exactly the months from the move-in month whose cursor is not after now; when move-in is after now it visits none |
| `Report.MissingMonths` | src/server/api/routers/reportRouter.ts:74-83 | the pushed texts are those of strictly increasing months, and a month is among them iff its cursor is from move-in up to now and its text is not a paid month; empty when move-in is after now |
| `Report.ComputePaymentStatus` | src/server/api/routers/reportRouter.ts:51-96 | every field of the status from the rental's own payments: totals, months, expected total, balance = paid − expected, status, record count, lastPayment, and the missing months (increasing, exactly the unpaid candidates, none equal to any payment's for_month) |
| `Report.PaymentsOfInsert` | src/server/api/routers/reportRouter.ts:52 | a payment inserted anywhere appears in the rental's list at the same place when it is the rental's, and not at all otherwise |
| `Report.OtherRentalPaymentIgnored` | src/server/api/routers/reportRouter.ts:52 | another rental's payment leaves the rental's payments, and so its whole status, unchanged |
| `Report.PaymentOfRentalCounted` | src/server/api/routers/reportRouter.ts:62-92 | a further payment of the rental adds its amount to total paid and balance and one to the record count, even for a month already paid |
| `Report.PaymentNeverLowersTotals` | src/server/api/routers/reportRouter.ts:62-67 | a payment of non-negative amount never lowers total paid or balance |
| `Report.NotYetMovedIn` | src/server/api/routers/reportRouter.ts:57-64 | before or at move-in the months rented are at most 0, yet one month's price is expected |
| `Report.MonthInstantIncreasing` | src/server/api/routers/reportRouter.ts:95 | a later month has a later first instant |
| `Report.LastPaymentIsLatestMonth` | src/server/api/routers/reportRouter.ts:95 | when lastPayment is a number, every for_month names a month and lastPayment is the first instant of the latest of them |
| `Report.ThirteenthMonthPayment` | src/server/api/routers/reportRouter.ts:79-95 | a "2024-13" payment passes the for_month format check, equals the text of no month (so it removes no month from the missing list), and makes lastPayment NaN |
| `Report.FourMonthsIntoTheYear` | src/server/api/routers/reportRouter.ts:57-83 | moving in 2024-01-01 and reporting at 2024-04-01 midnight gives 4 months rented and the candidates January to April 2024 |
| `Report.FourMonthsIntoTheYearTotals` | src/server/api/routers/reportRouter.ts:62-94 | in that setting, with price 1000000 and payments 1000000 for January and 500000 for February: paid 1500000, expected 4000000, behind |
| `Report.FourMonthsIntoTheYearMissing` | src/server/api/routers/reportRouter.ts:74-83 | in that setting exactly March and April 2024 are missing |
| `Domain.ReadRoomStatus` | src/lib/syncRoomStatus.ts:31-32 | a status text reads as available, occupied or maintenance exactly when it is that text; any other text is kept as it is |
| `RoomSync.ActiveRoomIds` | src/lib/syncRoomStatus.ts:19-26 | a room id is in the set iff some active rental is for that room |
| `RoomSync.NeedsUpdate` | src/lib/syncRoomStatus.ts:30-35 | a room is written when it is not under maintenance and "occupied" disagrees with "rented"; `OnlyDisagreeingRoomsWritten` states that these are exactly the rooms that change |
| `RoomSync.Reconciled` | src/lib/syncRoomStatus.ts:35-36 | the status after reconciliation is maintenance exactly when it was before, and outside maintenance it is occupied exactly when the room is rented |
| `RoomSync.Attempted` | src/lib/syncRoomStatus.ts:35-41 | the rooms whose update is sent are rooms of the table and are never under maintenance |
| `RoomSync.SyncedTable` | src/lib/syncRoomStatus.ts:29-47 | the table after the walk; `SyncRoomStatus` is proved to produce it, and `SyncKeepsRooms`, `SyncMakesConsistent`, `FailureIsolated`, `ConsistentIsFixedPoint` and `SecondSyncChangesNothing` state its properties |
| `RoomSync.SyncRoomStatus` | src/lib/syncRoomStatus.ts:10-53 | on a fetch error nothing is written and success is false; otherwise success is true, the table is the reconciled table with failed updates left as they were, and exactly the failed attempted updates are logged |
| `RoomSync.MaintenanceNeverChanged` | src/lib/syncRoomStatus.ts:32-35 | a room under maintenance keeps that status |
| `RoomSync.OnlyDisagreeingRoomsWritten` | src/lib/syncRoomStatus.ts:35-41 | a room changes iff it is outside maintenance, its occupancy disagrees with the rentals and its update did not fail; it then becomes occupied if rented and available if not |
| `RoomSync.UnrentedFreeRoomUntouched` | src/lib/syncRoomStatus.ts:30-35 | a room with no active rental that is not occupied (available, or any other status) is left alone |
| `RoomSync.SyncKeepsRooms` | src/lib/syncRoomStatus.ts:38-41 | no room is added or removed |
| `RoomSync.SyncMakesConsistent` | src/lib/syncRoomStatus.ts:26-47 | when no attempted update fails, every room outside maintenance is occupied iff it is rented |
| `RoomSync.FailureIsolated` | src/lib/syncRoomStatus.ts:43-46 | a failed update affects only its own room |
| `RoomSync.ConsistentIsFixedPoint` | src/lib/syncRoomStatus.ts:30-36 | a table whose rooms outside maintenance already agree with the rentals is left unchanged whatever fails; conversely, a sync in which no update fails changes nothing only when the table already agrees |
| `RoomSync.SecondSyncChangesNothing` | src/lib/syncRoomStatus.ts:29-47 | after a fully successful sync, a second sync changes nothing, whatever fails in it |
| `RentalRouter.SetRoom` | src/server/api/routers/rentalRouter.ts:104-107 | a room status update writes only the given room, and nothing when the room does not exist |
| `RentalRouter.RoomStatusFor` | src/server/api/routers/rentalRouter.ts:204-209 | the room status written is occupied iff the new rental status is active, available otherwise |
| `RentalRouter.NewRental` | src/server/api/routers/rentalRouter.ts:88-98 | the inserted row carries the form's fields with status active unless given; `CreateEffects` states each stored field: house, tenant, move-in, move-out, monthly price, status and note |
| `RentalRouter.UpdatedRental` | src/server/api/routers/rentalRouter.ts:136-144 | the updated row carries the form's fields, with the stored note kept when the form has none; `UpdateEffects` states each stored field: house, tenant, move-in, move-out, monthly price, status and note |
| `RentalRouter.FlipsActivity` | src/server/api/routers/rentalRouter.ts:212-213 | the room follows a status change exactly when being active differs between the old and the new status |
| `RentalRouter.Created` | src/server/api/routers/rentalRouter.ts:86-116 | the effect of create on the tables; `RentalStore.Create` is proved to produce it and `CreateEffects` states what it changes |
| `RentalRouter.Updated` | src/server/api/routers/rentalRouter.ts:124-171 | the effect of update; `RentalStore.Update` produces it, `UpdateEffects` and `UpdateFailureBeforeWrite` state what it changes |
| `RentalRouter.StatusUpdated` | src/server/api/routers/rentalRouter.ts:194-222 | the effect of updateStatus; `RentalStore.UpdateStatus` produces it and `UpdateStatusEffects` states what it changes |
| `RentalRouter.Deleted` | src/server/api/routers/rentalRouter.ts:233-261 | the effect of delete; `RentalStore.Delete` produces it and `DeleteEffects` states what it changes |
| `RentalRouter.RentalStore.Create` | src/server/api/routers/rentalRouter.ts:79-117 | the tables and outcome after create are those of `Created` on the old tables |
| `RentalRouter.RentalStore.Update` | src/server/api/routers/rentalRouter.ts:119-174 | the tables and outcome after update are those of `Updated` on the old tables |
| `RentalRouter.RentalStore.UpdateStatus` | src/server/api/routers/rentalRouter.ts:177-225 | the tables and outcome after updateStatus are those of `StatusUpdated` on the old tables |
| `RentalRouter.RentalStore.Delete` | src/server/api/routers/rentalRouter.ts:228-262 | the tables and outcome after delete are those of `Deleted` on the old tables |
| `RentalRouter.CreateEffects` | src/server/api/routers/rentalRouter.ts:86-116 | create fails with nothing changed iff the insert fails; otherwise it inserts the rental with the form's house, tenant, move-in, move-out, monthly price and note and status active unless given, it succeeds iff neither the insert nor the room update fails; the rental stays when the room update fails, its room becomes occupied on success, and no other row or room changes |
| `RentalRouter.UpdateEffects` | src/server/api/routers/rentalRouter.ts:133-171 | a found and written rental gets the form's house, tenant, move-in, move-out and monthly price, status active unless given, and its note kept when none is sent; it succeeds iff the room is the same or neither room update fails; with the same room no room changes; with a new room, a failed old-room update leaves the rooms as they were, a failed new-room update leaves the old room available, and success makes the old room available and the new one occupied; nothing else changes |
| `RentalRouter.UpdateFailureBeforeWrite` | src/server/api/routers/rentalRouter.ts:124-148 | an update whose fetch or write fails changes nothing and reports failure |
| `RentalRouter.UpdateStatusEffects` | src/server/api/routers/rentalRouter.ts:194-222 | updateStatus changes only the rental's status field; it succeeds iff there is no flip between active and not active or the room update does not fail; rooms change only on a flip, and then, unless the room update fails, the room is occupied iff the new status is active; on failure no room changes |
| `RentalRouter.StatusUpdateFailureBeforeWrite` | src/server/api/routers/rentalRouter.ts:186-201 | an updateStatus whose fetch fails, whose rental is missing or whose status write fails changes neither table, and reports the step that failed |
| `RentalRouter.DeleteEffects` | src/server/api/routers/rentalRouter.ts:233-261 | delete changes nothing when the fetch fails; when fetch and delete succeed the rental is removed; it succeeds iff fetch, delete and room update all succeed, and then its room becomes available whatever the rental's status; a failed room update leaves the rooms as they were; no other row or room changes |
| `RentalRouter.DeleteFailureBeforeWrite` | src/server/api/routers/rentalRouter.ts:234-249 | a delete whose fetch fails, whose rental is missing or whose delete call fails changes neither table, and reports the step that failed |

## Left out

- Floating point: amounts and prices are integers. `parseFloat` rounding and NaN amounts or prices are not modelled.
- Wall-clock time: `new Date()` is the parameter `now`. The code reads the clock three times for one rental (reportRouter.ts:56, 71, 76); the model uses one `now` for all three, so a report computed across a month or 30-day boundary is not modelled.
- Time zones: the server is taken to run in UTC. `setMonth` works in local time while `toISOString` prints UTC. With another time zone the two can disagree around midnight and daylight-saving changes; that is not modelled.
- Report.MissingMonths: does not model `setMonth` day overflow. For a move-in day of 29 to 31, JavaScript rolls a short month's date into the following month and continues from there, printing that month's text. The model keeps the move-in day in every month and labels each step with the month it advanced to.
- Report.LastPaymentOf: a for_month text without the `YYYY-MM` shape is treated as an invalid date (NaN). JavaScript also reads other texts, such as "2024" or "2024-01-15", as dates, and then gives a number. Payments are written only through the payment form schema, which refuses such texts, so stored rows have the shape.
- Report.LastPaymentIsLatestMonth: "every for_month names a month" is stated under the same reading: a text without the `YYYY-MM` shape counts as naming no month, although JavaScript reads some of them as dates.
- Calendar.ParseMonthText: only the `YYYY-MM` shape is read; the other date texts `new Date` accepts (a year alone, a full date, a date and time, and the forms each engine reads in its own way) are taken as invalid.
- Report.MonthInstant: inherits that reading; its instant is None for every text `ParseMonthText` does not read.
- PaymentSchema.ParsePaymentForm: the fields are taken as already well-typed. The schema's type checks are not modelled: a rental_id sent as the text "5", or a non-number id, yields a type issue in the code, and a fractional id such as 1.5 passes `min(1)` there but cannot be written here, where ids are integers.
- Dates outside years 0 to 9999 for parsing: `new Date("YYYY-MM")` only sees four-digit years. The extended `+YYYYYY` text is modelled, but the JavaScript date range limit (±275760 years) is not.
- Report.MissingMonths: an invalid move-in date (NaN cursor) is not modelled; move-in is a valid calendar date.
- `Math.max` over a very large argument list (engine argument limits) is not modelled.
- The `rental` field of each report entry (reportRouter.ts:86), the rental row passed through unchanged, is not part of `PaymentStatus`; the rental is an input of `ComputePaymentStatus`.
- The list level of the report is not modelled: the query for active rentals, the payments query and the map over rentals (reportRouter.ts:10-49, 97). The model computes the status of one rental.
- The unused `currentMonth` (reportRouter.ts:71) is not modelled.
- The `.sort()` of the paid months (reportRouter.ts:70) is not modelled. It changes neither `includes` nor the length, which are all that is used.
- `rentalPaymentDetail` and the `list` / `get*` queries only fetch data, so they are not modelled.
- The Supabase client and network are reduced to one success/failure flag per call. A fetch by id also fails when the id is not a key.
- Rental and room ids are plain values; rental ids are modelled as integers.
- Foreign-key constraints between rentals, rooms and tenants are not modelled.
- Database-generated ids: create takes the new id as a parameter. The insert fails when that id is already a key.
- The `user_id` and `created_at` columns and the returned rows are not modelled. Error messages are reduced to the step that failed.
- A room update that matches no room writes nothing and reports no error, as an update with a filter that matches no row does.
- Rental statuses are the four values the schemas allow. Room statuses are available, occupied, maintenance, or any other text; a stored text is read by `Domain.ReadRoomStatus`, so `Other` never holds one of the three named values.
- The order in which `syncRoomStatus` visits rooms is not modelled. The model visits each room once in an arbitrary order. Each room's update depends only on that room's own status, so the result does not depend on the order.
- Logging (`console.error`) is modelled as the set of rooms whose update failed. The catch-block log of a failed fetch (syncRoomStatus.ts:51) is not modelled: that run returns an empty set, and success false is its only trace.
- The remaining zod schemas and the CRUD routers for apartments, tenants, rooms and payments only pass fields through, so they are not modelled.
