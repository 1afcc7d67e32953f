/** The room-allocation side of the hostel app in the university back end:
    rooms with a capacity and an occupancy counter, allocations that take a
    place and vacating that gives it back, and the violation records kept
    against an allocation. */
module HostelRooms {
  import opened Common

  const RoomNotFoundMsg: string := "Room not found or inactive"
  const NoVacancyMsg: string := "Room has no vacancy"
  const AlreadyInactiveMsg: string := "Allocation already inactive"
  const AllocationNotFoundMsg: string := "No RoomAllocation matches the given query."
  const IntegrityMsg: string := "IntegrityError"

  datatype Room = Room(hostel: nat, number: string, capacity: nat, currentOccupancy: nat, isActive: bool)

  datatype RoomAllocation = RoomAllocation(
    student: nat,
    room: nat,
    startDate: Date,
    endDate: Option<Date>,
    isActive: bool)

  datatype HostelViolation = HostelViolation(allocation: nat, date: Date, fineCents: int, isResolved: bool)

  /** A room as created from the defaults: two places, empty, active. */
  function NewRoom(hostel: nat, number: string): (r: Room)
    ensures r.capacity == 2 && r.currentOccupancy == 0 && r.isActive
    ensures HasVacancy(r)
  {
    Room(hostel, number, 2, 0, true)
  }

  /** An allocation as created: always active; the end date is writable
      and stored as sent, none by default. */
  function NewAllocation(student: nat, room: nat, start: Date, end: Option<Date>): (a: RoomAllocation)
    ensures a.student == student && a.room == room && a.startDate == start
    ensures a.isActive && a.endDate == end
  {
    RoomAllocation(student, room, start, end, true)
  }

  /** A violation as recorded from the defaults: no fine, unresolved. */
  function NewViolation(allocation: nat, date: Date): (v: HostelViolation)
    ensures v.fineCents == 0 && !v.isResolved
  {
    HostelViolation(allocation, date, 0, false)
  }

  /** `Room.has_vacancy`. */
  predicate HasVacancy(r: Room)
  {
    r.currentOccupancy < r.capacity
  }

  /** The occupancy counter after an allocation. */
  function Occupy(r: Room): (r': Room)
    ensures r'.currentOccupancy == r.currentOccupancy + 1
    ensures r' == r.(currentOccupancy := r'.currentOccupancy)
  {
    r.(currentOccupancy := r.currentOccupancy + 1)
  }

  /** The occupancy counter after vacating: one less, never below zero. */
  function Release(r: Room): (r': Room)
    ensures r.currentOccupancy > 0 ==> r'.currentOccupancy + 1 == r.currentOccupancy
    ensures r.currentOccupancy == 0 ==> r'.currentOccupancy == 0
    ensures r' == r.(currentOccupancy := r'.currentOccupancy)
  {
    r.(currentOccupancy := Max0(r.currentOccupancy - 1))
  }

  /** Allocating only into a room with a vacancy keeps occupancy within
      capacity; vacating never breaks it either. */
  lemma OccupancyStaysWithinCapacity(r: Room)
    ensures HasVacancy(r) ==> Occupy(r).currentOccupancy <= Occupy(r).capacity
    ensures r.currentOccupancy <= r.capacity ==> Release(r).currentOccupancy <= Release(r).capacity
  {
  }

  /** Vacating undoes an allocation. */
  lemma ReleaseUndoesOccupy(r: Room)
    ensures Release(Occupy(r)) == r
  {
  }

  /** A room has a vacancy exactly while a bed is free; after one more
      allocation it still has one exactly when two were free. */
  lemma VacancyCountsFreeBeds(r: Room)
    ensures HasVacancy(r) <==> r.capacity - r.currentOccupancy >= 1
    ensures HasVacancy(Occupy(r)) <==> r.capacity - r.currentOccupancy >= 2
    ensures r.currentOccupancy > 0 ==> (HasVacancy(Release(r)) <==> r.capacity - r.currentOccupancy >= 0)
  {
  }

  predicate WithinCapacity(rooms: map<nat, Room>)
  {
    forall id :: id in rooms ==> rooms[id].currentOccupancy <= rooms[id].capacity
  }

  predicate RoomNumbersUnique(rooms: map<nat, Room>)
  {
    forall i, j :: i in rooms && j in rooms && i != j ==>
      (rooms[i].hostel, rooms[i].number) != (rooms[j].hostel, rooms[j].number)
  }

  class RoomsDb {
    var rooms: map<nat, Room>
    var allocations: map<nat, RoomAllocation>
    var violations: map<nat, HostelViolation>
    var nextId: nat

    ghost predicate Valid()
      reads this
    {
      RoomNumbersUnique(rooms)
      && (forall id :: id in allocations ==> allocations[id].room in rooms)
      && (forall id :: id in violations ==> violations[id].allocation in allocations)
      && (forall id :: id in allocations ==> id < nextId)
    }

    constructor()
      ensures Valid()
      ensures rooms == map[] && allocations == map[] && violations == map[]
    {
      rooms := map[];
      allocations := map[];
      violations := map[];
      nextId := 0;
    }

    /** Creating a room: a second room with the same number in the same
        hostel is refused by the database. */
    method AddRoom(id: nat, r: Room) returns (resp: Response)
      requires Valid() && id !in rooms
      modifies this
      ensures Valid()
      ensures allocations == old(allocations) && violations == old(violations)
      ensures var clash := (exists j :: j in old(rooms) && (old(rooms)[j].hostel, old(rooms)[j].number) == (r.hostel, r.number));
              (clash ==> resp == ServerError(IntegrityMsg) && rooms == old(rooms))
              && (!clash ==> resp == Created && rooms == old(rooms)[id := r])
    {
      if exists j | j in rooms :: (rooms[j].hostel, rooms[j].number) == (r.hostel, r.number) {
        return ServerError(IntegrityMsg);
      }
      rooms := rooms[id := r];
      resp := Created;
    }

    /** `RoomAllocateView.create`: an active room with a vacancy gets a new
        active allocation and one more occupant. */
    method Allocate(roomId: nat, student: nat, start: Date, end: Option<Date>) returns (resp: Response, id: nat)
      requires Valid()
      modifies this
      ensures Valid()
      ensures violations == old(violations)
      ensures roomId !in old(rooms) || !old(rooms)[roomId].isActive ==> resp == NotFound(RoomNotFoundMsg)
      ensures roomId in old(rooms) && old(rooms)[roomId].isActive && !HasVacancy(old(rooms)[roomId]) ==>
                resp == BadRequest(NoVacancyMsg)
      ensures !resp.IsSuccess() ==> rooms == old(rooms) && allocations == old(allocations)
      ensures resp.IsSuccess() <==> roomId in old(rooms) && old(rooms)[roomId].isActive && HasVacancy(old(rooms)[roomId])
      ensures resp.IsSuccess() ==>
                resp == Created && id !in old(allocations)
                && allocations == old(allocations)[id := NewAllocation(student, roomId, start, end)]
                && rooms == old(rooms)[roomId := Occupy(old(rooms)[roomId])]
      ensures WithinCapacity(old(rooms)) ==> WithinCapacity(rooms)
    {
      id := nextId;
      if roomId !in rooms || !rooms[roomId].isActive {
        return NotFound(RoomNotFoundMsg), id;
      }
      if !HasVacancy(rooms[roomId]) {
        return BadRequest(NoVacancyMsg), id;
      }
      allocations := allocations[id := NewAllocation(student, roomId, start, end)];
      nextId := nextId + 1;
      rooms := rooms[roomId := Occupy(rooms[roomId])];
      resp := Created;
    }

    /** `RoomVacateView.update`: ends an active allocation on the requested
        date (today when none is given) and frees its place. */
    method Vacate(id: nat, requestedEnd: Option<Date>, today: Date) returns (resp: Response)
      requires Valid()
      modifies this
      ensures Valid()
      ensures violations == old(violations)
      ensures id !in old(allocations) ==> resp == NotFound(AllocationNotFoundMsg)
      ensures id in old(allocations) && !old(allocations)[id].isActive ==> resp == BadRequest(AlreadyInactiveMsg)
      ensures !resp.IsSuccess() ==> rooms == old(rooms) && allocations == old(allocations)
      ensures resp.IsSuccess() <==> id in old(allocations) && old(allocations)[id].isActive
      ensures resp.IsSuccess() ==>
                var a := old(allocations)[id];
                resp == Ok
                && allocations == old(allocations)[id := a.(isActive := false, endDate := Some(EndDateOrToday(requestedEnd, today)))]
                && rooms == old(rooms)[a.room := Release(old(rooms)[a.room])]
      ensures WithinCapacity(old(rooms)) ==> WithinCapacity(rooms)
    {
      if id !in allocations {
        return NotFound(AllocationNotFoundMsg);
      }
      var a := allocations[id];
      if !a.isActive {
        return BadRequest(AlreadyInactiveMsg);
      }
      allocations := allocations[id := a.(isActive := false, endDate := Some(EndDateOrToday(requestedEnd, today)))];
      rooms := rooms[a.room := Release(rooms[a.room])];
      resp := Ok;
    }
  }
}
