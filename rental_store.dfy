/**
 * The effects of the rental mutations (rentalRouter create, update,
 * updateStatus and delete) on the rentals table and on the status column of the
 * houses table. Each database call either succeeds or fails; a failure ends the
 * mutation, and whatever earlier calls wrote stays written, since there is no
 * transaction. Failures are given as flags; a fetch by id finds nothing when the
 * id is not a key of the rentals table.
 */
module RentalRouter {
  import opened Wrappers
  import opened Calendar
  import opened Domain

  /** The two tables the mutations touch. */
  datatype Tables = Tables(rentals: map<RentalId, Rental>, rooms: map<RoomId, RoomStatus>)

  /** The database call at which a mutation stopped. */
  datatype Step = FetchRental | WriteRental | UpdateRoom | UpdateOldRoom | UpdateNewRoom

  datatype Outcome = Done | Failed(step: Step)

  /** The tables after a mutation, and how it ended. */
  datatype Effect = Effect(tables: Tables, outcome: Outcome)

  /** The fields of a validated rental form; an absent status means the schema's default. */
  datatype RentalInput = RentalInput(
    id: Option<RentalId>,
    houseId: RoomId,
    tenantId: string,
    moveIn: CalendarDate,
    moveOut: CalendarDate,
    monthlyPrice: int,
    status: Option<RentalStatus>,
    note: Option<string>)

  /** `update houses set status = s where id = room`: no row matches a missing room. */
  function SetRoom(rooms: map<RoomId, RoomStatus>, room: RoomId, s: RoomStatus): (r: map<RoomId, RoomStatus>)
    ensures r.Keys == rooms.Keys
    ensures forall k :: k in r ==> r[k] == if k == room then s else rooms[k]
  {
    if room in rooms then rooms[room := s] else rooms
  }

  /** The row that create inserts: the form's fields, status active unless given. */
  function NewRental(input: RentalInput): Rental {
    Rental(input.houseId, input.tenantId, input.moveIn, input.moveOut, input.monthlyPrice,
           input.status.GetOr(Active), input.note)
  }

  /** The row after update: the form's fields, the note kept when the form has none. */
  function UpdatedRental(previous: Rental, input: RentalInput): Rental {
    Rental(input.houseId, input.tenantId, input.moveIn, input.moveOut, input.monthlyPrice,
           input.status.GetOr(Active), if input.note.Some? then input.note else previous.note)
  }

  /** The room status that updateStatus writes for a rental status. */
  function RoomStatusFor(s: RentalStatus): (r: RoomStatus)
    ensures r == Occupied <==> s == Active
    ensures r == Available <==> s != Active
  {
    if s == Active then Occupied else Available
  }

  /** A status change the room follows: from active to not active, or back. */
  predicate FlipsActivity(from: RentalStatus, to: RentalStatus)
    ensures FlipsActivity(from, to) <==> (from == Active) != (to == Active)
  {
    (from == Active && to != Active) || (from != Active && to == Active)
  }

  // ---- the effect of each mutation on the tables ----

  function Created(t: Tables, newId: RentalId, input: RentalInput, insertFails: bool, roomFails: bool): Effect {
    if insertFails || newId in t.rentals then Effect(t, Failed(WriteRental))
    else
      var rentals := t.rentals[newId := NewRental(input)];
      if roomFails then Effect(Tables(rentals, t.rooms), Failed(UpdateRoom))
      else Effect(Tables(rentals, SetRoom(t.rooms, input.houseId, Occupied)), Done)
  }

  function Updated(t: Tables, input: RentalInput, fetchFails: bool, writeFails: bool,
                   oldRoomFails: bool, newRoomFails: bool): Effect
  {
    if fetchFails || input.id.None? || input.id.value !in t.rentals then Effect(t, Failed(FetchRental))
    else if writeFails then Effect(t, Failed(WriteRental))
    else
      var id := input.id.value;
      var previous := t.rentals[id];
      var rentals := t.rentals[id := UpdatedRental(previous, input)];
      if previous.houseId == input.houseId then Effect(Tables(rentals, t.rooms), Done)
      else if oldRoomFails then Effect(Tables(rentals, t.rooms), Failed(UpdateOldRoom))
      else
        var freed := SetRoom(t.rooms, previous.houseId, Available);
        if newRoomFails then Effect(Tables(rentals, freed), Failed(UpdateNewRoom))
        else Effect(Tables(rentals, SetRoom(freed, input.houseId, Occupied)), Done)
  }

  function StatusUpdated(t: Tables, id: RentalId, status: RentalStatus, fetchFails: bool,
                         writeFails: bool, roomFails: bool): Effect
  {
    if fetchFails || id !in t.rentals then Effect(t, Failed(FetchRental))
    else if writeFails then Effect(t, Failed(WriteRental))
    else
      var previous := t.rentals[id];
      var rentals := t.rentals[id := previous.(status := status)];
      if !FlipsActivity(previous.status, status) then Effect(Tables(rentals, t.rooms), Done)
      else if roomFails then Effect(Tables(rentals, t.rooms), Failed(UpdateRoom))
      else Effect(Tables(rentals, SetRoom(t.rooms, previous.houseId, RoomStatusFor(status))), Done)
  }

  function Deleted(t: Tables, id: RentalId, fetchFails: bool, deleteFails: bool, roomFails: bool): Effect {
    if fetchFails || id !in t.rentals then Effect(t, Failed(FetchRental))
    else if deleteFails then Effect(t, Failed(WriteRental))
    else
      var rentals := t.rentals - {id};
      if roomFails then Effect(Tables(rentals, t.rooms), Failed(UpdateRoom))
      else Effect(Tables(rentals, SetRoom(t.rooms, t.rentals[id].houseId, Available)), Done)
  }

  /** The rentals and houses tables, changed in place by the mutations. */
  class RentalStore {
    var rentals: map<RentalId, Rental>
    var rooms: map<RoomId, RoomStatus>

    constructor (rentals0: map<RentalId, Rental>, rooms0: map<RoomId, RoomStatus>)
      ensures rentals == rentals0 && rooms == rooms0
    {
      rentals := rentals0;
      rooms := rooms0;
    }

    function State(): Tables
      reads this
    {
      Tables(rentals, rooms)
    }

    /** create: insert the rental under the id the database assigns, then occupy its room. */
    method Create(newId: RentalId, input: RentalInput, insertFails: bool, roomFails: bool)
      returns (outcome: Outcome)
      modifies this
      ensures Effect(State(), outcome) == Created(old(State()), newId, input, insertFails, roomFails)
    {
      if insertFails || newId in rentals {
        return Failed(WriteRental);
      }
      rentals := rentals[newId := NewRental(input)];
      if roomFails {
        return Failed(UpdateRoom);
      }
      rooms := SetRoom(rooms, input.houseId, Occupied);
      outcome := Done;
    }

    /** update: rewrite the rental, then move the occupancy when its room changed. */
    method Update(input: RentalInput, fetchFails: bool, writeFails: bool, oldRoomFails: bool, newRoomFails: bool)
      returns (outcome: Outcome)
      modifies this
      ensures Effect(State(), outcome) == Updated(old(State()), input, fetchFails, writeFails, oldRoomFails, newRoomFails)
    {
      if fetchFails || input.id.None? || input.id.value !in rentals {
        return Failed(FetchRental);
      }
      var id := input.id.value;
      var oldHouse := rentals[id].houseId;
      if writeFails {
        return Failed(WriteRental);
      }
      rentals := rentals[id := UpdatedRental(rentals[id], input)];
      if oldHouse != input.houseId {
        if oldRoomFails {
          return Failed(UpdateOldRoom);
        }
        rooms := SetRoom(rooms, oldHouse, Available);
        if newRoomFails {
          return Failed(UpdateNewRoom);
        }
        rooms := SetRoom(rooms, input.houseId, Occupied);
      }
      outcome := Done;
    }

    /** updateStatus: set the rental's status, and its room's when the rental's activity flips. */
    method UpdateStatus(id: RentalId, status: RentalStatus, fetchFails: bool, writeFails: bool, roomFails: bool)
      returns (outcome: Outcome)
      modifies this
      ensures Effect(State(), outcome) == StatusUpdated(old(State()), id, status, fetchFails, writeFails, roomFails)
    {
      if fetchFails || id !in rentals {
        return Failed(FetchRental);
      }
      var rental := rentals[id];
      if writeFails {
        return Failed(WriteRental);
      }
      rentals := rentals[id := rental.(status := status)];
      var newRoomStatus := Available;
      if status == Active {
        newRoomStatus := Occupied;
      } else if status in {Completed, Terminated, Cancelled} {
        newRoomStatus := Available;
      }
      if (rental.status == Active && status != Active) || (rental.status != Active && status == Active) {
        if roomFails {
          return Failed(UpdateRoom);
        }
        rooms := SetRoom(rooms, rental.houseId, newRoomStatus);
      }
      outcome := Done;
    }

    /** delete: remove the rental, then make its room available. */
    method Delete(id: RentalId, fetchFails: bool, deleteFails: bool, roomFails: bool)
      returns (outcome: Outcome)
      modifies this
      ensures Effect(State(), outcome) == Deleted(old(State()), id, fetchFails, deleteFails, roomFails)
    {
      if fetchFails || id !in rentals {
        return Failed(FetchRental);
      }
      var house := rentals[id].houseId;
      if deleteFails {
        return Failed(WriteRental);
      }
      rentals := rentals - {id};
      if roomFails {
        return Failed(UpdateRoom);
      }
      rooms := SetRoom(rooms, house, Available);
      outcome := Done;
    }
  }

  // ---- properties of the mutations ----

  /** Whatever else happens, only the named rental row can change. */
  ghost predicate OtherRentalsKept(before: map<RentalId, Rental>, after: map<RentalId, Rental>, id: RentalId) {
    forall k :: k != id ==> (k in after <==> k in before) && (k in after ==> after[k] == before[k])
  }

  /** Only the named rooms can change status, and no room appears or disappears. */
  predicate OtherRoomsKept(before: map<RoomId, RoomStatus>, after: map<RoomId, RoomStatus>, changed: set<RoomId>) {
    after.Keys == before.Keys && forall k :: k in after && k !in changed ==> after[k] == before[k]
  }

  /**
   * create inserts the rental with status active unless one is given; the rental
   * stays when the room update then fails; on success its room is occupied.
   */
  lemma CreateEffects(t: Tables, newId: RentalId, input: RentalInput, insertFails: bool, roomFails: bool)
    ensures var e := Created(t, newId, input, insertFails, roomFails);
      && OtherRentalsKept(t.rentals, e.tables.rentals, newId)
      && OtherRoomsKept(t.rooms, e.tables.rooms, {input.houseId})
      && (e.outcome == Failed(WriteRental) <==> insertFails || newId in t.rentals)
      && (e.outcome == Failed(WriteRental) ==> e.tables == t)
      && (e.outcome != Failed(WriteRental) ==>
            && newId in e.tables.rentals
            && e.tables.rentals[newId].houseId == input.houseId
            && e.tables.rentals[newId].tenantId == input.tenantId
            && e.tables.rentals[newId].moveIn == input.moveIn
            && e.tables.rentals[newId].moveOut == input.moveOut
            && e.tables.rentals[newId].monthlyPrice == input.monthlyPrice
            && e.tables.rentals[newId].status == (if input.status.Some? then input.status.value else Active)
            && e.tables.rentals[newId].note == input.note)
      && (e.outcome == Done <==> !insertFails && newId !in t.rentals && !roomFails)
      && (e.outcome == Failed(UpdateRoom) ==> e.tables.rooms == t.rooms && newId in e.tables.rentals)
      && (e.outcome == Done ==> input.houseId in t.rooms ==> e.tables.rooms[input.houseId] == Occupied)
  {
  }

  /**
   * update moves the occupancy only when the room changed: the previous room becomes
   * available and the new one occupied. With the same room, no room changes.
   */
  lemma UpdateEffects(t: Tables, input: RentalInput, fetchFails: bool, writeFails: bool,
                      oldRoomFails: bool, newRoomFails: bool)
    requires input.id.Some? && input.id.value in t.rentals && !fetchFails && !writeFails
    ensures var e := Updated(t, input, fetchFails, writeFails, oldRoomFails, newRoomFails);
      var id := input.id.value;
      var oldHouse := t.rentals[id].houseId;
      && OtherRentalsKept(t.rentals, e.tables.rentals, id)
      && id in e.tables.rentals
      && e.tables.rentals[id].houseId == input.houseId
      && e.tables.rentals[id].tenantId == input.tenantId
      && e.tables.rentals[id].moveIn == input.moveIn
      && e.tables.rentals[id].moveOut == input.moveOut
      && e.tables.rentals[id].monthlyPrice == input.monthlyPrice
      && e.tables.rentals[id].status == (if input.status.Some? then input.status.value else Active)
      && e.tables.rentals[id].note == (if input.note.Some? then input.note else t.rentals[id].note)
      && (oldHouse == input.houseId ==> e.tables.rooms == t.rooms && e.outcome == Done)
      && (e.outcome == Done <==> oldHouse == input.houseId || (!oldRoomFails && !newRoomFails))
      && (oldHouse != input.houseId && oldRoomFails ==> e.tables.rooms == t.rooms)
      && (oldHouse != input.houseId && !oldRoomFails && newRoomFails ==>
            e.tables.rooms == SetRoom(t.rooms, oldHouse, Available))
      && OtherRoomsKept(t.rooms, e.tables.rooms, {oldHouse, input.houseId})
      && (oldHouse != input.houseId && e.outcome == Done ==>
            && (oldHouse in t.rooms ==> e.tables.rooms[oldHouse] == Available)
            && (input.houseId in t.rooms ==> e.tables.rooms[input.houseId] == Occupied))
  {
  }

  /** An update that cannot find its rental, or cannot write it, changes nothing. */
  lemma UpdateFailureBeforeWrite(t: Tables, input: RentalInput, fetchFails: bool, writeFails: bool,
                                 oldRoomFails: bool, newRoomFails: bool)
    requires fetchFails || input.id.None? || input.id.value !in t.rentals || writeFails
    ensures Updated(t, input, fetchFails, writeFails, oldRoomFails, newRoomFails).tables == t
    ensures Updated(t, input, fetchFails, writeFails, oldRoomFails, newRoomFails).outcome.Failed?
  {
  }

  /**
   * updateStatus changes only the rental's status field; it writes the room only
   * when the rental flips between active and not active, and then the room is
   * occupied exactly when the new status is active.
   */
  lemma UpdateStatusEffects(t: Tables, id: RentalId, status: RentalStatus, fetchFails: bool,
                            writeFails: bool, roomFails: bool)
    requires id in t.rentals && !fetchFails && !writeFails
    ensures var e := StatusUpdated(t, id, status, fetchFails, writeFails, roomFails);
      var previous := t.rentals[id];
      && OtherRentalsKept(t.rentals, e.tables.rentals, id)
      && id in e.tables.rentals
      && e.tables.rentals[id] == previous.(status := status)
      && OtherRoomsKept(t.rooms, e.tables.rooms, {previous.houseId})
      && (e.tables.rooms != t.rooms ==> FlipsActivity(previous.status, status))
      && (!FlipsActivity(previous.status, status) ==> e.tables.rooms == t.rooms && e.outcome == Done)
      && (e.outcome == Done <==> !FlipsActivity(previous.status, status) || !roomFails)
      && (e.outcome.Failed? ==> e.tables.rooms == t.rooms)
      && (FlipsActivity(previous.status, status) && e.outcome == Done && previous.houseId in t.rooms ==>
            (e.tables.rooms[previous.houseId] == Occupied <==> status == Active))
  {
  }

  /** An updateStatus that cannot find its rental, or cannot write its status, changes nothing. */
  lemma StatusUpdateFailureBeforeWrite(t: Tables, id: RentalId, status: RentalStatus, fetchFails: bool,
                                       writeFails: bool, roomFails: bool)
    requires fetchFails || id !in t.rentals || writeFails
    ensures StatusUpdated(t, id, status, fetchFails, writeFails, roomFails).tables == t
    ensures StatusUpdated(t, id, status, fetchFails, writeFails, roomFails).outcome ==
              if fetchFails || id !in t.rentals then Failed(FetchRental) else Failed(WriteRental)
  {
  }

  /**
   * delete removes the rental and makes its room available, whatever the
   * rental's status was; when the fetch fails nothing changes.
   */
  lemma DeleteEffects(t: Tables, id: RentalId, fetchFails: bool, deleteFails: bool, roomFails: bool)
    ensures var e := Deleted(t, id, fetchFails, deleteFails, roomFails);
      && OtherRentalsKept(t.rentals, e.tables.rentals, id)
      && OtherRoomsKept(t.rooms, e.tables.rooms, if id in t.rentals then {t.rentals[id].houseId} else {})
      && (fetchFails || id !in t.rentals ==> e == Effect(t, Failed(FetchRental)))
      && (!fetchFails && id in t.rentals && !deleteFails ==> id !in e.tables.rentals)
      && (e.outcome == Done <==> !fetchFails && id in t.rentals && !deleteFails && !roomFails)
      && (e.outcome == Failed(UpdateRoom) ==> e.tables.rooms == t.rooms)
      && (e.outcome == Done ==> t.rentals[id].houseId in t.rooms ==>
            e.tables.rooms[t.rentals[id].houseId] == Available)
  {
  }

  /** A delete that cannot find its rental, or whose delete call fails, changes nothing. */
  lemma DeleteFailureBeforeWrite(t: Tables, id: RentalId, fetchFails: bool, deleteFails: bool, roomFails: bool)
    requires fetchFails || id !in t.rentals || deleteFails
    ensures Deleted(t, id, fetchFails, deleteFails, roomFails).tables == t
    ensures Deleted(t, id, fetchFails, deleteFails, roomFails).outcome ==
              if fetchFails || id !in t.rentals then Failed(FetchRental) else Failed(WriteRental)
  {
  }
}
