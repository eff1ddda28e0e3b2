/** The records shared by the report, the room sync and the rental mutations. */
module Domain {
  import opened Wrappers
  import opened Calendar

  type RentalId = int
  /** A room is a row of the `houses` table. */
  type RoomId = string

  datatype RentalStatus = Active | Completed | Terminated | Cancelled

  /**
   * A room's status column: the three values the application writes, or any
   * other text. `Other` never holds "available", "occupied" or "maintenance",
   * which are read as their own constructors (see ReadRoomStatus).
   */
  datatype RoomStatus = Available | Occupied | Maintenance | Other(text: string)

  /** The status column's text as a status; the string comparisons read exactly these three texts. */
  function ReadRoomStatus(text: string): (s: RoomStatus)
    ensures s == Available <==> text == "available"
    ensures s == Occupied <==> text == "occupied"
    ensures s == Maintenance <==> text == "maintenance"
    ensures s.Other? ==> s.text == text
  {
    if text == "available" then Available
    else if text == "occupied" then Occupied
    else if text == "maintenance" then Maintenance
    else Other(text)
  }

  /** A row of the `rentals` table (user_id and created_at left out). */
  datatype Rental = Rental(
    houseId: RoomId,
    tenantId: string,
    moveIn: CalendarDate,
    moveOut: CalendarDate,
    monthlyPrice: int,
    status: RentalStatus,
    note: Option<string>)
}
