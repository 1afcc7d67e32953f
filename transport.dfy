/** The transport app: vehicles with a seat capacity and a passenger
    counter, and transport passes whose issue takes a seat and whose
    revocation gives it back. */
module Transport {
  import opened Common

  const NotAvailableMsg: string := "Vehicle not available or full."
  const AlreadyInactiveMsg: string := "Pass already inactive."
  const PassNotFoundMsg: string := "No TransportPass matches the given query."
  const DuplicatePassMsg: string := "The fields student, vehicle, start_date must make a unique set."
  const IntegrityMsg: string := "IntegrityError"

  datatype Vehicle = Vehicle(vehicleNumber: string, capacity: nat, currentPassengers: nat, isActive: bool)

  datatype TransportPass = TransportPass(
    student: nat,
    vehicle: nat,
    startDate: Date,
    endDate: Date,
    isActive: bool,
    monthlyFeeCents: int)

  /** A vehicle as created: no passengers, active. */
  function NewVehicle(number: string, capacity: nat): (v: Vehicle)
    ensures v.currentPassengers == 0 && v.isActive && v.capacity == capacity
    ensures capacity > 0 ==> HasVacancy(v)
  {
    Vehicle(number, capacity, 0, true)
  }

  /** A pass as issued: always active; the monthly fee is writable and
      stored as sent, zero by default. */
  function NewPass(student: nat, vehicle: nat, start: Date, end: Date, feeCents: Option<int>): (p: TransportPass)
    ensures p.student == student && p.vehicle == vehicle && p.startDate == start && p.endDate == end
    ensures p.isActive && p.monthlyFeeCents == (if feeCents.Some? then feeCents.value else 0)
  {
    TransportPass(student, vehicle, start, end, true, if feeCents.Some? then feeCents.value else 0)
  }

  /** `Vehicle.has_vacancy`. */
  predicate HasVacancy(v: Vehicle)
  {
    v.currentPassengers < v.capacity
  }

  /** The passenger counter after a pass is issued. */
  function Board(v: Vehicle): (v': Vehicle)
    ensures v'.currentPassengers == v.currentPassengers + 1
    ensures v' == v.(currentPassengers := v'.currentPassengers)
  {
    v.(currentPassengers := v.currentPassengers + 1)
  }

  /** The passenger counter after a pass is revoked: one less, never below
      zero. */
  function Alight(v: Vehicle): (v': Vehicle)
    ensures v.currentPassengers > 0 ==> v'.currentPassengers + 1 == v.currentPassengers
    ensures v.currentPassengers == 0 ==> v'.currentPassengers == 0
    ensures v' == v.(currentPassengers := v'.currentPassengers)
  {
    v.(currentPassengers := Max0(v.currentPassengers - 1))
  }

  /** Issuing only with a vacancy keeps passengers within capacity, and so
      does revoking; revoking undoes issuing. */
  lemma PassengersStayWithinCapacity(v: Vehicle)
    ensures HasVacancy(v) ==> Board(v).currentPassengers <= Board(v).capacity
    ensures v.currentPassengers <= v.capacity ==> Alight(v).currentPassengers <= Alight(v).capacity
    ensures Alight(Board(v)) == v
  {
  }

  /** A vehicle has a vacancy exactly while a seat is free; after one more
      pass it still has one exactly when two were free. */
  lemma VacancyCountsFreeSeats(v: Vehicle)
    ensures HasVacancy(v) <==> v.capacity - v.currentPassengers >= 1
    ensures HasVacancy(Board(v)) <==> v.capacity - v.currentPassengers >= 2
    ensures v.currentPassengers > 0 ==> (HasVacancy(Alight(v)) <==> v.capacity - v.currentPassengers >= 0)
  {
  }

  predicate WithinCapacity(vs: map<nat, Vehicle>)
  {
    forall id :: id in vs ==> vs[id].currentPassengers <= vs[id].capacity
  }

  predicate VehicleNumbersUnique(vs: map<nat, Vehicle>)
  {
    forall i, j :: i in vs && j in vs && i != j ==> vs[i].vehicleNumber != vs[j].vehicleNumber
  }

  predicate PassesUnique(ps: map<nat, TransportPass>)
  {
    forall i, j :: i in ps && j in ps && i != j ==>
      (ps[i].student, ps[i].vehicle, ps[i].startDate) != (ps[j].student, ps[j].vehicle, ps[j].startDate)
  }

  /** Whether some stored pass already has this student, vehicle and start. */
  predicate HasPass(ps: map<nat, TransportPass>, student: nat, vehicle: nat, start: Date)
  {
    exists j :: j in ps && (ps[j].student, ps[j].vehicle, ps[j].startDate) == (student, vehicle, start)
  }

  class TransportDb {
    var vehicles: map<nat, Vehicle>
    var passes: map<nat, TransportPass>
    var nextId: nat

    ghost predicate Valid()
      reads this
    {
      VehicleNumbersUnique(vehicles) && PassesUnique(passes)
      && (forall id :: id in passes ==> passes[id].vehicle in vehicles)
      && (forall id :: id in passes ==> id < nextId)
    }

    constructor()
      ensures Valid()
      ensures vehicles == map[] && passes == map[]
    {
      vehicles := map[];
      passes := map[];
      nextId := 0;
    }

    /** Creating a vehicle: a repeated vehicle number is refused. */
    method AddVehicle(id: nat, v: Vehicle) returns (resp: Response)
      requires Valid() && id !in vehicles
      modifies this
      ensures Valid()
      ensures passes == old(passes)
      ensures var clash := (exists j :: j in old(vehicles) && old(vehicles)[j].vehicleNumber == v.vehicleNumber);
              (clash ==> resp == ServerError(IntegrityMsg) && vehicles == old(vehicles))
              && (!clash ==> resp == Created && vehicles == old(vehicles)[id := v])
    {
      if exists j | j in vehicles :: vehicles[j].vehicleNumber == v.vehicleNumber {
        return ServerError(IntegrityMsg);
      }
      vehicles := vehicles[id := v];
      resp := Created;
    }

    /** `IssueTransportPassView.create`: an active vehicle with a free seat
        gets a new active pass and one more passenger; the serializer
        refuses a second pass for the same student, vehicle and start. */
    method Issue(vehicleId: nat, student: nat, start: Date, end: Date, feeCents: Option<int>) returns (resp: Response, id: nat)
      requires Valid()
      modifies this
      ensures Valid()
      ensures vehicleId !in old(vehicles) || !old(vehicles)[vehicleId].isActive || !HasVacancy(old(vehicles)[vehicleId]) ==>
                resp == BadRequest(NotAvailableMsg)
      ensures (vehicleId in old(vehicles) && old(vehicles)[vehicleId].isActive && HasVacancy(old(vehicles)[vehicleId])
               && HasPass(old(passes), student, vehicleId, start)) ==> resp == BadRequest(DuplicatePassMsg)
      ensures !resp.IsSuccess() ==> vehicles == old(vehicles) && passes == old(passes)
      ensures resp.IsSuccess() <==> vehicleId in old(vehicles) && old(vehicles)[vehicleId].isActive
                                    && HasVacancy(old(vehicles)[vehicleId]) && !HasPass(old(passes), student, vehicleId, start)
      ensures resp.IsSuccess() ==>
                resp == Created && id !in old(passes)
                && passes == old(passes)[id := NewPass(student, vehicleId, start, end, feeCents)]
                && vehicles == old(vehicles)[vehicleId := Board(old(vehicles)[vehicleId])]
      ensures WithinCapacity(old(vehicles)) ==> WithinCapacity(vehicles)
    {
      id := nextId;
      if vehicleId !in vehicles || !vehicles[vehicleId].isActive || !HasVacancy(vehicles[vehicleId]) {
        return BadRequest(NotAvailableMsg), id;
      }
      if exists j | j in passes :: (passes[j].student, passes[j].vehicle, passes[j].startDate) == (student, vehicleId, start) {
        return BadRequest(DuplicatePassMsg), id;
      }
      passes := passes[id := NewPass(student, vehicleId, start, end, feeCents)];
      nextId := nextId + 1;
      vehicles := vehicles[vehicleId := Board(vehicles[vehicleId])];
      resp := Created;
    }

    /** `RevokeTransportPassView.update`: ends an active pass on the
        requested date (today when none is given) and frees its seat. */
    method Revoke(id: nat, requestedEnd: Option<Date>, today: Date) returns (resp: Response)
      requires Valid()
      modifies this
      ensures Valid()
      ensures id !in old(passes) ==> resp == NotFound(PassNotFoundMsg)
      ensures id in old(passes) && !old(passes)[id].isActive ==> resp == BadRequest(AlreadyInactiveMsg)
      ensures !resp.IsSuccess() ==> vehicles == old(vehicles) && passes == old(passes)
      ensures resp.IsSuccess() <==> id in old(passes) && old(passes)[id].isActive
      ensures resp.IsSuccess() ==>
                var p := old(passes)[id];
                resp == Ok
                && passes == old(passes)[id := p.(isActive := false, endDate := EndDateOrToday(requestedEnd, today))]
                && vehicles == old(vehicles)[p.vehicle := Alight(old(vehicles)[p.vehicle])]
      ensures WithinCapacity(old(vehicles)) ==> WithinCapacity(vehicles)
    {
      if id !in passes {
        return NotFound(PassNotFoundMsg);
      }
      var p := passes[id];
      if !p.isActive {
        return BadRequest(AlreadyInactiveMsg);
      }
      passes := passes[id := p.(isActive := false, endDate := EndDateOrToday(requestedEnd, today))];
      vehicles := vehicles[p.vehicle := Alight(vehicles[p.vehicle])];
      resp := Ok;
    }
  }
}
