/** The stored tables of the campus hostel app and the operations that
    change them: room and student saves with their counter side effects,
    the view actions on students, maintenance requests, visitors,
    complaints and payments, and the three admin bulk actions. Each method
    runs without a surrounding transaction, so a failing step leaves the
    writes before it in place. */
module Hostel {
  import opened Common
  import opened HostelModels

  const IntegrityMsg: string := "IntegrityError"
  const StudentNotFoundMsg: string := "No Student matches the given query."
  const MaintenanceNotFoundMsg: string := "No Maintenance matches the given query."
  const VisitorNotFoundMsg: string := "No Visitor matches the given query."
  const ComplaintNotFoundMsg: string := "No Complaint matches the given query."
  const PaymentNotFoundMsg: string := "No Payment matches the given query."
  const StaffIdRequiredMsg: string := "Staff ID required"
  const StaffNotFoundMsg: string := "Staff member not found"

  /** The `(hostel, room_number)` pair is unique. */
  predicate RoomNumbersUnique(rooms: map<nat, Room>)
  {
    forall i, j :: i in rooms && j in rooms && i != j ==>
      (rooms[i].hostel, rooms[i].roomNumber) != (rooms[j].hostel, rooms[j].roomNumber)
  }

  // The rows deleting a student cascades to, one filter per table: the
  // visitors, complaints and payments naming the student. The three differ
  // only in the row type, since a datatype field cannot be selected
  // generically.

  function VisitorsOf(vs: map<nat, Visitor>, student: nat): (s: set<nat>)
    ensures forall id :: id in s <==> id in vs && vs[id].student == student
  {
    set id | id in vs && vs[id].student == student
  }

  function ComplaintsOf(cs: map<nat, Complaint>, student: nat): (s: set<nat>)
    ensures forall id :: id in s <==> id in cs && cs[id].student == student
  {
    set id | id in cs && cs[id].student == student
  }

  function PaymentsOf(ps: map<nat, Payment>, student: nat): (s: set<nat>)
    ensures forall id :: id in s <==> id in ps && ps[id].student == student
  {
    set id | id in ps && ps[id].student == student
  }

  /** Every visitor, complaint and payment names a stored student. */
  predicate RowsNameStudents(students: map<nat, Student>, vs: map<nat, Visitor>, cs: map<nat, Complaint>, ps: map<nat, Payment>)
  {
    (forall id :: id in vs ==> vs[id].student in students)
    && (forall id :: id in cs ==> cs[id].student in students)
    && (forall id :: id in ps ==> ps[id].student in students)
  }

  /** Every room lies in a known hostel, and every student in a known hostel
      and, when placed, a known room; room numbers are unique per hostel. */
  predicate PlacesLinked(hostels: map<nat, Hostel>, rooms: map<nat, Room>, students: map<nat, Student>)
  {
    RoomNumbersUnique(rooms)
    && (forall id :: id in rooms ==> rooms[id].hostel in hostels)
    && (forall id :: id in students ==> students[id].hostel in hostels)
    && (forall id :: id in students && students[id].room.Some? ==> students[id].room.value in rooms)
  }

  /** Every assigned request and complaint names a known staff member. */
  predicate StaffLinked(staff: set<nat>, maintenance: map<nat, Maintenance>, complaints: map<nat, Complaint>)
  {
    (forall id :: id in maintenance && maintenance[id].assignedTo.Some? ==> maintenance[id].assignedTo.value in staff)
    && (forall id :: id in complaints && complaints[id].assignedTo.Some? ==> complaints[id].assignedTo.value in staff)
  }

  /** Removing a student and some complaints keeps the other links. */
  lemma RemovalKeepsLinks(hostels: map<nat, Hostel>, rooms: map<nat, Room>, students: map<nat, Student>,
                          staff: set<nat>, maintenance: map<nat, Maintenance>, complaints: map<nat, Complaint>,
                          student: nat, gone: set<nat>)
    requires PlacesLinked(hostels, rooms, students) && StaffLinked(staff, maintenance, complaints)
    ensures PlacesLinked(hostels, rooms, students - {student}) && StaffLinked(staff, maintenance, complaints - gone)
  {
  }

  /** Deleting a student together with the rows that cascade from it
      leaves no row naming a missing student. */
  lemma CascadeKeepsRowsLinked(students: map<nat, Student>, vs: map<nat, Visitor>, cs: map<nat, Complaint>, ps: map<nat, Payment>, student: nat)
    requires RowsNameStudents(students, vs, cs, ps)
    ensures RowsNameStudents(students - {student}, vs - VisitorsOf(vs, student),
                             cs - ComplaintsOf(cs, student), ps - PaymentsOf(ps, student))
  {
  }

  /** A staff id as the two `assign_staff` actions read it: absent or zero
      (both falsy) counts as missing. */
  predicate StaffIdGiven(staffId: Option<nat>)
  {
    staffId.Some? && staffId.value != 0
  }

  class HostelDb {
    var hostels: map<nat, Hostel>
    var rooms: map<nat, Room>
    var students: map<nat, Student>
    var staff: set<nat>
    var maintenance: map<nat, Maintenance>
    var visitors: map<nat, Visitor>
    var complaints: map<nat, Complaint>
    var payments: map<nat, Payment>

    ghost predicate Valid()
      reads this
    {
      PlacesLinked(hostels, rooms, students)
      && StaffLinked(staff, maintenance, complaints)
      && RowsNameStudents(students, visitors, complaints, payments)
    }

    constructor(staffIds: set<nat>)
      ensures Valid()
      ensures hostels == map[] && rooms == map[] && students == map[] && staff == staffIds
      ensures maintenance == map[] && visitors == map[] && complaints == map[] && payments == map[]
    {
      hostels := map[];
      rooms := map[];
      students := map[];
      staff := staffIds;
      maintenance := map[];
      visitors := map[];
      complaints := map[];
      payments := map[];
    }

    /** `Room.save` of a new or edited room: the rent is filled from its
        hostel; a second room with the same number in the hostel is refused
        by the database. */
    method SaveRoom(id: nat, r: Room) returns (resp: Response)
      requires Valid() && r.hostel in hostels
      modifies this
      ensures Valid()
      ensures hostels == old(hostels) && students == old(students)
      ensures var clash := (exists j :: j in old(rooms) && j != id && (old(rooms)[j].hostel, old(rooms)[j].roomNumber) == (r.hostel, r.roomNumber));
              (clash ==> resp == ServerError(IntegrityMsg) && rooms == old(rooms))
              && (!clash ==> resp == Ok && rooms == old(rooms)[id := SavedRoom(r, old(hostels)[r.hostel].monthlyRentCents)])
      ensures unchanged(this`staff) && maintenance == old(maintenance) && visitors == old(visitors)
      ensures complaints == old(complaints) && payments == old(payments)
    {
      if exists j | j in rooms && j != id :: (rooms[j].hostel, rooms[j].roomNumber) == (r.hostel, r.roomNumber) {
        return ServerError(IntegrityMsg);
      }
      rooms := rooms[id := SavedRoom(r, hostels[r.hostel].monthlyRentCents)];
      resp := Ok;
    }

    /** `Student.save`: an active student with a room adds one to the room
        (saved again, so its rent is filled) and one to the student's
        hostel, on every save and without a capacity check. */
    method SaveStudent(id: nat, s: Student)
      requires Valid() && s.hostel in hostels
      requires s.room.Some? ==> s.room.value in rooms
      modifies this
      ensures Valid()
      ensures students == old(students)[id := s]
      ensures !MovesCounters(s) ==> rooms == old(rooms) && hostels == old(hostels)
      ensures MovesCounters(s) ==>
                var room := old(rooms)[s.room.value];
                var h := old(hostels)[s.hostel];
                rooms == old(rooms)[s.room.value := SavedRoom(room.(occupied := OccupiedAfterSave(room.occupied, s)), old(hostels)[room.hostel].monthlyRentCents)]
                && hostels == old(hostels)[s.hostel := h.(occupied := OccupiedAfterSave(h.occupied, s))]
      ensures unchanged(this`staff) && maintenance == old(maintenance) && visitors == old(visitors)
      ensures complaints == old(complaints) && payments == old(payments)
    {
      if MovesCounters(s) {
        var rid := s.room.value;
        var room := rooms[rid];
        rooms := rooms[rid := SavedRoom(room.(occupied := room.occupied + 1), hostels[room.hostel].monthlyRentCents)];
        var h := hostels[s.hostel];
        hostels := hostels[s.hostel := h.(occupied := h.occupied + 1)];
      }
      students := students[id := s];
    }

    /** `Student.delete`: an active student with a room takes one from the
        room and then one from the hostel. A counter already at zero cannot
        go negative: the database refuses that write, and a refusal at the
        hostel leaves the room's decrement in place and the student stored.
        Once the student row goes, its visitors, complaints and payments go
        with it (every one of those foreign keys cascades). */
    method DeleteStudent(id: nat) returns (resp: Response)
      requires Valid()
      modifies this
      ensures Valid()
      ensures id !in old(students) ==> resp == NotFound(StudentNotFoundMsg) && rooms == old(rooms) && hostels == old(hostels) && students == old(students)
      ensures id in old(students) && !MovesCounters(old(students)[id]) ==>
                resp == Ok && students == old(students) - {id} && rooms == old(rooms) && hostels == old(hostels)
      ensures id in old(students) && MovesCounters(old(students)[id]) ==>
                var s := old(students)[id];
                var room := old(rooms)[s.room.value];
                var h := old(hostels)[s.hostel];
                (room.occupied == 0 ==>
                   resp == ServerError(IntegrityMsg) && rooms == old(rooms) && hostels == old(hostels) && students == old(students))
                && (room.occupied > 0 ==>
                   rooms == old(rooms)[s.room.value := SavedRoom(room.(occupied := room.occupied - 1), old(hostels)[room.hostel].monthlyRentCents)]
                   && (h.occupied == 0 ==> resp == ServerError(IntegrityMsg) && hostels == old(hostels) && students == old(students))
                   && (h.occupied > 0 ==>
                         resp == Ok && hostels == old(hostels)[s.hostel := h.(occupied := h.occupied - 1)] && students == old(students) - {id}))
      ensures resp == Ok ==>
                visitors == old(visitors) - VisitorsOf(old(visitors), id)
                && complaints == old(complaints) - ComplaintsOf(old(complaints), id)
                && payments == old(payments) - PaymentsOf(old(payments), id)
      ensures resp != Ok ==> visitors == old(visitors) && complaints == old(complaints) && payments == old(payments)
      ensures unchanged(this`staff) && maintenance == old(maintenance)
    {
      if id !in students {
        return NotFound(StudentNotFoundMsg);
      }
      var s := students[id];
      if MovesCounters(s) {
        var ok := ReleasePlace(s);
        if !ok {
          return ServerError(IntegrityMsg);
        }
      }
      RemoveStudentRows(id);
      resp := Ok;
    }

    /** The row half of `Student.delete`: the student row goes, and with it
        every visitor, complaint and payment naming it. */
    method RemoveStudentRows(id: nat)
      requires Valid()
      modifies this
      ensures Valid()
      ensures students == old(students) - {id}
      ensures visitors == old(visitors) - VisitorsOf(old(visitors), id)
      ensures complaints == old(complaints) - ComplaintsOf(old(complaints), id)
      ensures payments == old(payments) - PaymentsOf(old(payments), id)
      ensures hostels == old(hostels) && rooms == old(rooms) && unchanged(this`staff) && maintenance == old(maintenance)
    {
      CascadeKeepsRowsLinked(students, visitors, complaints, payments, id);
      RemovalKeepsLinks(hostels, rooms, students, staff, maintenance, complaints, id, ComplaintsOf(complaints, id));
      visitors, complaints, payments, students :=
        visitors - VisitorsOf(visitors, id), complaints - ComplaintsOf(complaints, id),
        payments - PaymentsOf(payments, id), students - {id};
    }

    /** The counter half of `Student.delete`: one place is taken from the
        student's room and then from the hostel; a counter at zero refuses
        its write, and a refusal at the hostel keeps the room's decrement. */
    method ReleasePlace(s: Student) returns (ok: bool)
      requires Valid() && MovesCounters(s) && s.room.value in rooms && s.hostel in hostels
      modifies this
      ensures Valid()
      ensures var room := old(rooms)[s.room.value];
              var h := old(hostels)[s.hostel];
              (room.occupied == 0 ==> !ok && rooms == old(rooms) && hostels == old(hostels))
              && (room.occupied > 0 ==>
                   rooms == old(rooms)[s.room.value := SavedRoom(room.(occupied := room.occupied - 1), old(hostels)[room.hostel].monthlyRentCents)]
                   && (h.occupied == 0 ==> !ok && hostels == old(hostels))
                   && (h.occupied > 0 ==> ok && hostels == old(hostels)[s.hostel := h.(occupied := h.occupied - 1)]))
      ensures students == old(students) && unchanged(this`staff) && maintenance == old(maintenance)
      ensures visitors == old(visitors) && complaints == old(complaints) && payments == old(payments)
    {
      var rid := s.room.value;
      var room := rooms[rid];
      if room.occupied == 0 {
        return false;
      }
      rooms := rooms[rid := SavedRoom(room.(occupied := room.occupied - 1), hostels[room.hostel].monthlyRentCents)];
      var h := hostels[s.hostel];
      if h.occupied == 0 {
        return false;
      }
      hostels := hostels[s.hostel := h.(occupied := h.occupied - 1)];
      ok := true;
    }

    /** `check_out`: an active student is marked checked out today and
        saved; being inactive now, the save moves no counter. */
    method CheckOut(id: nat, today: Date) returns (resp: Response)
      requires Valid()
      modifies this
      ensures Valid()
      ensures rooms == old(rooms) && hostels == old(hostels)
      ensures id !in old(students) ==> resp == NotFound(StudentNotFoundMsg) && students == old(students)
      ensures id in old(students) ==>
                var r := HostelModels.CheckOut(old(students)[id], today);
                (r.Failure? ==> resp == r.error && students == old(students))
                && (r.Success? ==> resp == Ok && students == old(students)[id := r.value])
      ensures unchanged(this`staff) && maintenance == old(maintenance) && visitors == old(visitors)
      ensures complaints == old(complaints) && payments == old(payments)
    {
      if id !in students {
        return NotFound(StudentNotFoundMsg);
      }
      var r := HostelModels.CheckOut(students[id], today);
      if r.Failure? {
        return r.error;
      }
      SaveStudent(id, r.value);
      resp := Ok;
    }

    /** Maintenance `assign_staff`: needs a staff id that names a staff
        member; the request is then assigned and in progress. */
    method AssignMaintenanceStaff(id: nat, staffId: Option<nat>) returns (resp: Response)
      requires Valid()
      modifies this
      ensures Valid()
      ensures id !in old(maintenance) ==> resp == NotFound(MaintenanceNotFoundMsg)
      ensures id in old(maintenance) && !StaffIdGiven(staffId) ==> resp == BadRequest(StaffIdRequiredMsg)
      ensures id in old(maintenance) && StaffIdGiven(staffId) && staffId.value !in staff ==> resp == NotFound(StaffNotFoundMsg)
      ensures resp.IsSuccess() <==> id in old(maintenance) && StaffIdGiven(staffId) && staffId.value in staff
      ensures resp.IsSuccess() ==> resp == Ok && maintenance == old(maintenance)[id := AssignMaintenance(old(maintenance)[id], staffId.value)]
      ensures !resp.IsSuccess() ==> maintenance == old(maintenance)
      ensures unchanged(this`staff) && hostels == old(hostels) && rooms == old(rooms) && students == old(students)
      ensures visitors == old(visitors) && complaints == old(complaints) && payments == old(payments)
    {
      if id !in maintenance {
        return NotFound(MaintenanceNotFoundMsg);
      }
      if !StaffIdGiven(staffId) {
        return BadRequest(StaffIdRequiredMsg);
      }
      if staffId.value !in staff {
        return NotFound(StaffNotFoundMsg);
      }
      maintenance := maintenance[id := AssignMaintenance(maintenance[id], staffId.value)];
      resp := Ok;
    }

    /** `mark_completed`. */
    method MarkCompleted(id: nat, now: Instant, cost: Option<int>, notes: string) returns (resp: Response)
      requires Valid()
      modifies this
      ensures Valid()
      ensures id !in old(maintenance) ==> resp == NotFound(MaintenanceNotFoundMsg) && maintenance == old(maintenance)
      ensures id in old(maintenance) ==> resp == Ok && maintenance == old(maintenance)[id := CompleteMaintenance(old(maintenance)[id], now, cost, notes)]
      ensures unchanged(this`staff) && hostels == old(hostels) && rooms == old(rooms) && students == old(students)
      ensures visitors == old(visitors) && complaints == old(complaints) && payments == old(payments)
    {
      if id !in maintenance {
        return NotFound(MaintenanceNotFoundMsg);
      }
      maintenance := maintenance[id := CompleteMaintenance(maintenance[id], now, cost, notes)];
      resp := Ok;
    }

    /** `check_out_visitor`. */
    method CheckOutVisitor(id: nat, now: Instant) returns (resp: Response)
      requires Valid()
      modifies this
      ensures Valid()
      ensures id !in old(visitors) ==> resp == NotFound(VisitorNotFoundMsg) && visitors == old(visitors)
      ensures id in old(visitors) ==>
                var r := HostelModels.CheckOutVisitor(old(visitors)[id], now);
                (r.Failure? ==> resp == r.error && visitors == old(visitors))
                && (r.Success? ==> resp == Ok && visitors == old(visitors)[id := r.value])
      ensures unchanged(this`staff) && hostels == old(hostels) && rooms == old(rooms) && students == old(students)
      ensures maintenance == old(maintenance) && complaints == old(complaints) && payments == old(payments)
    {
      if id !in visitors {
        return NotFound(VisitorNotFoundMsg);
      }
      var r := HostelModels.CheckOutVisitor(visitors[id], now);
      if r.Failure? {
        return r.error;
      }
      visitors := visitors[id := r.value];
      resp := Ok;
    }

    /** Complaint `assign_staff`. */
    method AssignComplaintStaff(id: nat, staffId: Option<nat>) returns (resp: Response)
      requires Valid()
      modifies this
      ensures Valid()
      ensures id !in old(complaints) ==> resp == NotFound(ComplaintNotFoundMsg)
      ensures id in old(complaints) && !StaffIdGiven(staffId) ==> resp == BadRequest(StaffIdRequiredMsg)
      ensures id in old(complaints) && StaffIdGiven(staffId) && staffId.value !in staff ==> resp == NotFound(StaffNotFoundMsg)
      ensures resp.IsSuccess() <==> id in old(complaints) && StaffIdGiven(staffId) && staffId.value in staff
      ensures resp.IsSuccess() ==> resp == Ok && complaints == old(complaints)[id := AssignComplaint(old(complaints)[id], staffId.value)]
      ensures !resp.IsSuccess() ==> complaints == old(complaints)
      ensures unchanged(this`staff) && hostels == old(hostels) && rooms == old(rooms) && students == old(students)
      ensures visitors == old(visitors) && maintenance == old(maintenance) && payments == old(payments)
    {
      if id !in complaints {
        return NotFound(ComplaintNotFoundMsg);
      }
      if !StaffIdGiven(staffId) {
        return BadRequest(StaffIdRequiredMsg);
      }
      if staffId.value !in staff {
        return NotFound(StaffNotFoundMsg);
      }
      complaints := complaints[id := AssignComplaint(complaints[id], staffId.value)];
      resp := Ok;
    }

    /** `resolve_complaint`. */
    method ResolveComplaint(id: nat, now: Instant, resolution: string) returns (resp: Response)
      requires Valid()
      modifies this
      ensures Valid()
      ensures id !in old(complaints) ==> resp == NotFound(ComplaintNotFoundMsg) && complaints == old(complaints)
      ensures id in old(complaints) ==> resp == Ok && complaints == old(complaints)[id := HostelModels.ResolveComplaint(old(complaints)[id], now, resolution)]
      ensures unchanged(this`staff) && hostels == old(hostels) && rooms == old(rooms) && students == old(students)
      ensures visitors == old(visitors) && maintenance == old(maintenance) && payments == old(payments)
    {
      if id !in complaints {
        return NotFound(ComplaintNotFoundMsg);
      }
      complaints := complaints[id := HostelModels.ResolveComplaint(complaints[id], now, resolution)];
      resp := Ok;
    }

    /** Payment `mark_paid`. */
    method MarkPaymentPaid(id: nat, today: Date, via: string, reference: string) returns (resp: Response)
      requires Valid()
      modifies this
      ensures Valid()
      ensures id !in old(payments) ==> resp == NotFound(PaymentNotFoundMsg) && payments == old(payments)
      ensures id in old(payments) ==> resp == Ok && payments == old(payments)[id := PayPayment(old(payments)[id], today, via, reference)]
      ensures unchanged(this`staff) && hostels == old(hostels) && rooms == old(rooms) && students == old(students)
      ensures visitors == old(visitors) && maintenance == old(maintenance) && complaints == old(complaints)
    {
      if id !in payments {
        return NotFound(PaymentNotFoundMsg);
      }
      payments := payments[id := PayPayment(payments[id], today, via, reference)];
      resp := Ok;
    }

    /** Admin `mark_maintenance_completed`; returns the number of rows
        changed. */
    method MarkMaintenanceCompleted(selected: set<nat>, now: Instant) returns (updated: nat)
      requires Valid()
      modifies this
      ensures Valid()
      ensures maintenance == CompleteSelected(old(maintenance), selected, now)
      ensures updated == |CompletableSelection(old(maintenance), selected)|
      ensures unchanged(this`staff) && hostels == old(hostels) && rooms == old(rooms) && students == old(students)
      ensures visitors == old(visitors) && complaints == old(complaints) && payments == old(payments)
    {
      updated := |CompletableSelection(maintenance, selected)|;
      maintenance := CompleteSelected(maintenance, selected, now);
    }

    /** Admin `mark_complaints_resolved`. */
    method MarkComplaintsResolved(selected: set<nat>, now: Instant) returns (updated: nat)
      requires Valid()
      modifies this
      ensures Valid()
      ensures complaints == ResolveSelected(old(complaints), selected, now)
      ensures updated == |ResolvableSelection(old(complaints), selected)|
      ensures unchanged(this`staff) && hostels == old(hostels) && rooms == old(rooms) && students == old(students)
      ensures visitors == old(visitors) && maintenance == old(maintenance) && payments == old(payments)
    {
      updated := |ResolvableSelection(complaints, selected)|;
      complaints := ResolveSelected(complaints, selected, now);
    }

    /** Admin `mark_payments_paid`. */
    method MarkPaymentsPaid(selected: set<nat>, today: Date) returns (updated: nat)
      requires Valid()
      modifies this
      ensures Valid()
      ensures payments == PaySelected(old(payments), selected, today)
      ensures updated == |PayableSelection(old(payments), selected)|
      ensures unchanged(this`staff) && hostels == old(hostels) && rooms == old(rooms) && students == old(students)
      ensures visitors == old(visitors) && maintenance == old(maintenance) && complaints == old(complaints)
    {
      updated := |PayableSelection(payments, selected)|;
      payments := PaySelected(payments, selected, today);
    }
  }
}
