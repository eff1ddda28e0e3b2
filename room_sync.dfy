/**
 * Room-status reconciliation (syncRoomStatus): every room that is not under
 * maintenance is made occupied exactly when some active rental is for it.
 * The houses table is a map from room id to status; a room whose update fails
 * keeps its status and is logged, and the walk goes on with the other rooms.
 */
module RoomSync {
  import opened Domain

  /** The rooms of the active rentals. */
  function ActiveRoomIds(rentals: map<RentalId, Rental>): (ids: set<RoomId>)
    ensures forall h :: h in ids <==>
              exists k :: k in rentals && rentals[k].status == Active && rentals[k].houseId == h
  {
    set k | k in rentals && rentals[k].status == Active :: rentals[k].houseId
  }

  /** A room is rewritten when it is not under maintenance and its occupancy disagrees. */
  predicate NeedsUpdate(status: RoomStatus, shouldBeOccupied: bool) {
    status != Maintenance && shouldBeOccupied != (status == Occupied)
  }

  /** The status a room has after a successful reconciliation. */
  function Reconciled(status: RoomStatus, shouldBeOccupied: bool): (r: RoomStatus)
    ensures r == Maintenance <==> status == Maintenance
    ensures status != Maintenance ==> (r == Occupied <==> shouldBeOccupied)
  {
    if NeedsUpdate(status, shouldBeOccupied) then (if shouldBeOccupied then Occupied else Available)
    else status
  }

  /** The rooms that the walk tries to update. */
  function Attempted(rooms: map<RoomId, RoomStatus>, active: set<RoomId>): (ids: set<RoomId>)
    ensures ids <= rooms.Keys
    ensures forall k :: k in ids ==> rooms[k] != Maintenance
  {
    set k | k in rooms && NeedsUpdate(rooms[k], k in active)
  }

  /** The table after the walk, when the updates of the rooms in `failing` fail. */
  function SyncedTable(rooms: map<RoomId, RoomStatus>, active: set<RoomId>, failing: set<RoomId>)
    : map<RoomId, RoomStatus>
  {
    map k | k in rooms :: if k in failing then rooms[k] else Reconciled(rooms[k], k in active)
  }

  /** The rooms agree with the rentals: outside maintenance, occupied exactly when rented. */
  predicate Consistent(rooms: map<RoomId, RoomStatus>, active: set<RoomId>) {
    forall k :: k in rooms && rooms[k] != Maintenance ==> (rooms[k] == Occupied <==> k in active)
  }

  /**
   * The reconciliation. Either fetch failing ends it with no update and no
   * success; otherwise each room is visited once, a failed update is logged, and
   * the result is a success however many updates failed.
   */
  method SyncRoomStatus(rooms: map<RoomId, RoomStatus>, rentals: map<RentalId, Rental>,
                        roomsFetchFails: bool, rentalsFetchFails: bool, failing: set<RoomId>)
    returns (newRooms: map<RoomId, RoomStatus>, logged: set<RoomId>, success: bool)
    ensures success <==> !roomsFetchFails && !rentalsFetchFails
    ensures !success ==> newRooms == rooms && logged == {}
    ensures success ==> newRooms == SyncedTable(rooms, ActiveRoomIds(rentals), failing)
    ensures success ==> logged == Attempted(rooms, ActiveRoomIds(rentals)) * failing
  {
    newRooms, logged := rooms, {};
    if roomsFetchFails || rentalsFetchFails {
      return newRooms, logged, false;
    }
    var active := ActiveRoomIds(rentals);
    var pending := rooms.Keys;
    while pending != {}
      invariant pending <= rooms.Keys
      invariant newRooms.Keys == rooms.Keys
      invariant forall k :: k in pending ==> newRooms[k] == rooms[k]
      invariant forall k :: k in rooms && k !in pending ==>
                  newRooms[k] == if k in failing then rooms[k] else Reconciled(rooms[k], k in active)
      invariant forall k :: k in logged <==>
                  k in rooms && k !in pending && k in failing && NeedsUpdate(rooms[k], k in active)
      decreases |pending|
    {
      var id :| id in pending;
      var status := rooms[id];
      var shouldBeOccupied := id in active;
      var currentlyOccupied := status == Occupied;
      var isMaintenance := status == Maintenance;
      assert NeedsUpdate(status, shouldBeOccupied) <==> !isMaintenance && shouldBeOccupied != currentlyOccupied;
      if !isMaintenance && shouldBeOccupied != currentlyOccupied {
        var newStatus := if shouldBeOccupied then Occupied else Available;
        if id in failing {
          logged := logged + {id};
        } else {
          newRooms := newRooms[id := newStatus];
        }
      }
      pending := pending - {id};
    }
    assert newRooms == SyncedTable(rooms, active, failing);
    assert logged == Attempted(rooms, active) * failing;
    success := true;
  }

  // ---- properties of the reconciliation ----

  /** A room under maintenance keeps that status. */
  lemma MaintenanceNeverChanged(rooms: map<RoomId, RoomStatus>, active: set<RoomId>,
                                failing: set<RoomId>, k: RoomId)
    requires k in rooms && rooms[k] == Maintenance
    ensures k in SyncedTable(rooms, active, failing)
    ensures SyncedTable(rooms, active, failing)[k] == Maintenance
  {
  }

  /**
   * A room changes only when its occupancy disagrees with the rentals, and then
   * it becomes occupied when rented and available when not.
   */
  lemma OnlyDisagreeingRoomsWritten(rooms: map<RoomId, RoomStatus>, active: set<RoomId>,
                                    failing: set<RoomId>, k: RoomId)
    requires k in rooms
    ensures SyncedTable(rooms, active, failing)[k] != rooms[k] <==>
              NeedsUpdate(rooms[k], k in active) && k !in failing
    ensures SyncedTable(rooms, active, failing)[k] != rooms[k] ==>
              SyncedTable(rooms, active, failing)[k] == (if k in active then Occupied else Available)
  {
  }

  /** A room that is not rented and not occupied (available, say) is left alone. */
  lemma UnrentedFreeRoomUntouched(rooms: map<RoomId, RoomStatus>, active: set<RoomId>,
                                  failing: set<RoomId>, k: RoomId)
    requires k in rooms && k !in active && rooms[k] != Occupied
    ensures SyncedTable(rooms, active, failing)[k] == rooms[k]
  {
  }

  /** The rooms keep their ids. */
  lemma SyncKeepsRooms(rooms: map<RoomId, RoomStatus>, active: set<RoomId>, failing: set<RoomId>)
    ensures SyncedTable(rooms, active, failing).Keys == rooms.Keys
  {
  }

  /** When no update fails, the rooms afterwards agree with the rentals. */
  lemma {:induction false} SyncMakesConsistent(rooms: map<RoomId, RoomStatus>, active: set<RoomId>,
                                               failing: set<RoomId>)
    requires Attempted(rooms, active) * failing == {}
    ensures Consistent(SyncedTable(rooms, active, failing), active)
  {
    var synced := SyncedTable(rooms, active, failing);
    forall k | k in synced && synced[k] != Maintenance
      ensures synced[k] == Occupied <==> k in active
    {
      if NeedsUpdate(rooms[k], k in active) {
        assert k in Attempted(rooms, active);
        assert k !in Attempted(rooms, active) * failing;
      }
    }
  }

  /** A failed update affects its own room only. */
  lemma FailureIsolated(rooms: map<RoomId, RoomStatus>, active: set<RoomId>,
                        failing: set<RoomId>, k: RoomId)
    requires k in rooms && k !in failing
    ensures SyncedTable(rooms, active, failing)[k] == SyncedTable(rooms, active, {})[k]
  {
  }

  /** The sync changes nothing exactly when the rooms already agree with the rentals. */
  lemma {:induction false} ConsistentIsFixedPoint(rooms: map<RoomId, RoomStatus>, active: set<RoomId>,
                                                  failing: set<RoomId>)
    ensures Consistent(rooms, active) ==> SyncedTable(rooms, active, failing) == rooms
    ensures SyncedTable(rooms, active, {}) == rooms ==> Consistent(rooms, active)
  {
    var synced := SyncedTable(rooms, active, failing);
    if Consistent(rooms, active) {
      forall k | k in rooms
        ensures synced[k] == rooms[k]
      {
        assert !NeedsUpdate(rooms[k], k in active);
      }
    }
    if SyncedTable(rooms, active, {}) == rooms {
      forall k | k in rooms && rooms[k] != Maintenance
        ensures rooms[k] == Occupied <==> k in active
      {
        assert SyncedTable(rooms, active, {})[k] == rooms[k];
      }
    }
  }

  /** After a fully successful sync, a second sync, whatever fails in it, changes nothing. */
  lemma SecondSyncChangesNothing(rooms: map<RoomId, RoomStatus>, active: set<RoomId>,
                                 failing: set<RoomId>)
    ensures SyncedTable(SyncedTable(rooms, active, {}), active, failing) == SyncedTable(rooms, active, {})
  {
    SyncMakesConsistent(rooms, active, {});
    ConsistentIsFixedPoint(SyncedTable(rooms, active, {}), active, failing);
  }
}
