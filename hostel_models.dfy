/** The records of the campus hostel app (hostels, rooms, resident students,
    maintenance requests, visitors, complaints, payments, notices), their
    derived properties, and the field changes its actions make. Money is in
    integer cents; `Date` is a day number and `Instant` a second number. */
module HostelModels {
  import opened Common

  datatype Hostel = Hostel(capacity: nat, occupied: nat, monthlyRentCents: int)

  /** `monthlyRentCents` is `None` while the column is null. */
  datatype Room = Room(hostel: nat, roomNumber: string, capacity: nat, occupied: nat, monthlyRentCents: Option<int>)

  datatype Student = Student(hostel: nat, room: Option<nat>, isActive: bool, checkOutDate: Option<Date>)

  datatype MaintenanceStatus = MaintenancePending | MaintenanceInProgress | MaintenanceCompleted | MaintenanceCancelled

  datatype Maintenance = Maintenance(
    status: MaintenanceStatus,
    scheduledDate: Option<Instant>,
    completedDate: Option<Instant>,
    assignedTo: Option<nat>,
    actualCostCents: Option<int>,
    notes: string)

  datatype Visitor = Visitor(student: nat, isInside: bool, checkOutTime: Option<Instant>)

  datatype ComplaintStatus = ComplaintOpen | ComplaintInProgress | ComplaintResolved | ComplaintClosed

  datatype Complaint = Complaint(
    student: nat,
    status: ComplaintStatus,
    resolvedDate: Option<Instant>,
    assignedTo: Option<nat>,
    resolution: string)

  datatype PaymentStatus = PaymentPending | PaymentPaid | PaymentOverdue | PaymentCancelled

  datatype Payment = Payment(
    student: nat,
    amountCents: int,
    dueDate: Date,
    paidDate: Option<Date>,
    paymentMethod: string,
    status: PaymentStatus,
    referenceNumber: string)

  datatype Notice = Notice(expiryDate: Option<Instant>)

  // ---------------------------------------------------------------------
  // Capacity properties.
  // ---------------------------------------------------------------------

  /** `Hostel.available_capacity`: free places; negative once the counter
      has run past the capacity, which nothing prevents. */
  function AvailableCapacity(h: Hostel): (n: int)
    ensures n + h.occupied == h.capacity
  {
    h.capacity - h.occupied
  }

  /** `Hostel.occupancy_rate`: the occupied share in percent, zero for a
      hostel without capacity (floating point is modelled as exact). */
  function OccupancyRate(h: Hostel): (r: real)
    ensures h.capacity == 0 ==> r == 0.0
    ensures h.capacity > 0 ==> r * (h.capacity as real) == (h.occupied as real) * 100.0
    ensures h.occupied <= h.capacity ==> 0.0 <= r <= 100.0
  {
    if h.capacity > 0 then (h.occupied as real / h.capacity as real) * 100.0 else 0.0
  }

  /** `Room.available_beds`. */
  function AvailableBeds(r: Room): (n: int)
    ensures n + r.occupied == r.capacity
  {
    r.capacity - r.occupied
  }

  /** `Room.is_full`: exactly when the room has no free bed. */
  predicate IsFull(r: Room)
    ensures IsFull(r) <==> AvailableBeds(r) <= 0
  {
    r.occupied >= r.capacity
  }

  /** The rent `Room.save` stores: a missing or zero rent (both falsy) is
      replaced by the hostel's rent; any other value is kept. */
  function RentOnSave(rent: Option<int>, hostelRent: int): (r: int)
    ensures rent.Some? && rent.value != 0 ==> r == rent.value
    ensures rent.None? || rent.value == 0 ==> r == hostelRent
  {
    if rent.None? || rent.value == 0 then hostelRent else rent.value
  }

  /** Saving a room twice gives the same rent as saving it once. */
  lemma RentOnSaveStable(rent: Option<int>, hostelRent: int)
    ensures RentOnSave(Some(RentOnSave(rent, hostelRent)), hostelRent) == RentOnSave(rent, hostelRent)
  {
  }

  /** A room row as `Room.save` writes it. */
  function SavedRoom(r: Room, hostelRent: int): (r': Room)
    ensures r'.monthlyRentCents == Some(RentOnSave(r.monthlyRentCents, hostelRent))
    ensures r' == r.(monthlyRentCents := r'.monthlyRentCents)
  {
    r.(monthlyRentCents := Some(RentOnSave(r.monthlyRentCents, hostelRent)))
  }

  /** Whether `Student.save` (and `Student.delete`) move the room and hostel
      counters: only for an active student with a room. */
  predicate MovesCounters(s: Student)
  {
    s.room.Some? && s.isActive
  }

  /** An occupancy counter after one `Student.save`. */
  function OccupiedAfterSave(occupied: nat, s: Student): (n: nat)
    ensures MovesCounters(s) ==> n == occupied + 1
    ensures !MovesCounters(s) ==> n == occupied
  {
    if MovesCounters(s) then occupied + 1 else occupied
  }

  /** The counters count saves, not residents: saving an active student a
      second time (any edit) counts them twice, and saving them checked out
      afterwards gives nothing back. */
  lemma CountersCountSaves(occupied: nat, s: Student, today: Date)
    requires MovesCounters(s)
    ensures OccupiedAfterSave(OccupiedAfterSave(occupied, s), s) == occupied + 2
    ensures CheckOut(s, today).Success?
    ensures OccupiedAfterSave(OccupiedAfterSave(occupied, s), CheckOut(s, today).value) == occupied + 1
  {
  }

  /** A place an occupancy counter counts: one room or one hostel. */
  datatype Place = RoomPlace(room: nat) | HostelPlace(hostel: nat)

  /** Whether a stored student record holds a place in `p`. */
  predicate Occupies(s: Student, p: Place)
  {
    MovesCounters(s) && match p
      case RoomPlace(r) => s.room.value == r
      case HostelPlace(h) => s.hostel == h
  }

  /** The stored students holding a place in `p`: what a counter is meant
      to count. */
  function Residents(students: map<nat, Student>, p: Place): (ids: set<nat>)
    ensures forall id :: id in ids <==> id in students && Occupies(students[id], p)
  {
    set id | id in students && Occupies(students[id], p)
  }

  /** The save as written, seen against the residents: a student saved on
      arrival and saved again when checked out leaves the counter at one,
      though nobody lives there any more. */
  lemma CheckOutLeavesCounterRaised(id: nat, s: Student, today: Date, p: Place)
    requires Occupies(s, p)
    ensures CheckOut(s, today).Success?
    ensures var gone := CheckOut(s, today).value;
            OccupiedAfterSave(OccupiedAfterSave(0, s), gone) == 1
            && Residents(map[id := gone], p) == {}
  {
    var gone := CheckOut(s, today).value;
    assert !Occupies(gone, p);
  }

  /** The save as evidently intended: the counter gains one when the saved
      record holds a place in `p` and gives one back when the stored record
      it replaces held one, so a check-out releases the place. */
  function OccupiedAfterReleasingSave(occupied: int, students: map<nat, Student>, id: nat, s: Student, p: Place): (n: int)
    ensures id in students && Occupies(students[id], p) && !Occupies(s, p) ==> n == occupied - 1
    ensures (id !in students || !Occupies(students[id], p)) && Occupies(s, p) ==> n == occupied + 1
    ensures id in students && Occupies(students[id], p) == Occupies(s, p) ==> n == occupied
  {
    occupied + (if Occupies(s, p) then 1 else 0) - (if id in students && Occupies(students[id], p) then 1 else 0)
  }

  /** With the intended save a counter that counts the residents keeps
      counting them, whatever record is saved. */
  lemma ReleasingSaveCountsResidents(occupied: int, students: map<nat, Student>, id: nat, s: Student, p: Place)
    requires occupied == |Residents(students, p)|
    ensures OccupiedAfterReleasingSave(occupied, students, id, s, p) == |Residents(students[id := s], p)|
  {
    var prior := Residents(students, p);
    var after := Residents(students[id := s], p);
    var others := prior - {id};
    assert after - {id} == others by {
      forall x | x in after - {id} ensures x in others {
        assert students[id := s][x] == students[x];
      }
    }
    if Occupies(s, p) {
      assert after == others + {id};
    } else {
      assert after == others;
    }
    if id in students && Occupies(students[id], p) {
      assert prior == others + {id};
    } else {
      assert prior == others;
    }
  }

  /** The lifecycle the hostel's own test walks through: with the intended
      save, arriving and then checking out brings the counter back to zero. */
  lemma ReleasingSaveLifecycle(id: nat, s: Student, today: Date, p: Place)
    requires Occupies(s, p)
    ensures CheckOut(s, today).Success?
    ensures var arrived := OccupiedAfterReleasingSave(0, map[], id, s, p);
            arrived == 1
            && OccupiedAfterReleasingSave(arrived, map[id := s], id, CheckOut(s, today).value, p) == 0
  {
  }

  // ---------------------------------------------------------------------
  // Overdue and expiry predicates.
  // ---------------------------------------------------------------------

  /** `Maintenance.is_overdue`. */
  predicate MaintenanceIsOverdue(m: Maintenance, now: Instant)
  {
    m.scheduledDate.Some? && m.status == MaintenancePending && m.scheduledDate.value < now
  }

  /** `Maintenance.days_overdue`: whole days elapsed since the scheduled
      time while overdue, else zero. */
  function MaintenanceDaysOverdue(m: Maintenance, now: Instant): (d: nat)
    ensures !MaintenanceIsOverdue(m, now) ==> d == 0
    ensures MaintenanceIsOverdue(m, now) ==>
              d * SecondsPerDay <= now - m.scheduledDate.value < (d + 1) * SecondsPerDay
  {
    if MaintenanceIsOverdue(m, now) then (now - m.scheduledDate.value) / SecondsPerDay else 0
  }

  /** An overdue request stays overdue as time passes, until it is assigned
      or completed: neither is ever overdue. */
  lemma MaintenanceOverdueLifecycle(m: Maintenance, now: Instant, later: Instant, staff: nat,
                                    cost: Option<int>, notes: string)
    requires now <= later
    ensures MaintenanceIsOverdue(m, now) ==> MaintenanceIsOverdue(m, later)
    ensures !MaintenanceIsOverdue(AssignMaintenance(m, staff), later)
    ensures !MaintenanceIsOverdue(CompleteMaintenance(m, now, cost, notes), later)
  {
  }

  /** `Payment.is_overdue`. */
  predicate PaymentIsOverdue(p: Payment, today: Date)
  {
    if p.status == PaymentPending then p.dueDate < today else false
  }

  /** `Payment.days_overdue`: positive exactly when overdue. */
  function PaymentDaysOverdue(p: Payment, today: Date): (d: nat)
    ensures d > 0 <==> PaymentIsOverdue(p, today)
    ensures PaymentIsOverdue(p, today) ==> d == today - p.dueDate
  {
    if PaymentIsOverdue(p, today) then today - p.dueDate else 0
  }

  /** An overdue payment stays overdue as days pass, until it is paid: a
      paid payment is never overdue. */
  lemma PaymentOverdueLifecycle(p: Payment, today: Date, later: Date, via: string, reference: string)
    requires today <= later
    ensures PaymentIsOverdue(p, today) ==> PaymentIsOverdue(p, later)
    ensures !PaymentIsOverdue(PayPayment(p, today, via, reference), later)
  {
  }

  /** `Notice.is_expired`: a notice without an expiry never expires. */
  predicate NoticeIsExpired(n: Notice, now: Instant)
  {
    if n.expiryDate.Some? then now > n.expiryDate.value else false
  }

  /** Once expired, a notice stays expired. */
  lemma NoticeExpiryIsPermanent(n: Notice, now: Instant, later: Instant)
    requires NoticeIsExpired(n, now) && now <= later
    ensures NoticeIsExpired(n, later) && n.expiryDate.Some?
  {
  }

  /** A notice is live up to and including its expiry instant, and one
      without an expiry is live forever. */
  lemma NoticeLiveUntilExpiry(n: Notice, now: Instant)
    ensures n.expiryDate.None? ==> !NoticeIsExpired(n, now)
    ensures n.expiryDate.Some? ==> !NoticeIsExpired(n, n.expiryDate.value) && NoticeIsExpired(n, n.expiryDate.value + 1)
  {
  }

  /** The `overdue_payments` query: pending payments due before today. It
      selects exactly the payments `Payment.is_overdue` reports. */
  function OverduePayments(payments: map<nat, Payment>, today: Date): (s: set<nat>)
    ensures forall id :: id in s <==> id in payments && PaymentIsOverdue(payments[id], today)
  {
    set id | id in payments && payments[id].status == PaymentPending && payments[id].dueDate < today
  }

  // ---------------------------------------------------------------------
  // Single-record actions.
  // ---------------------------------------------------------------------

  /** `check_out` on a student record: only an active student is checked
      out, today. */
  function CheckOut(s: Student, today: Date): (r: Result<Student>)
    ensures r.Failure? <==> !s.isActive
    ensures r.Failure? ==> r.error == BadRequest("Student is already checked out")
    ensures r.Success? ==> r.value == s.(isActive := false, checkOutDate := Some(today))
                           && !MovesCounters(r.value)
  {
    if !s.isActive then Failure(BadRequest("Student is already checked out"))
    else Success(s.(isActive := false, checkOutDate := Some(today)))
  }

  /** `check_out_visitor`: a visitor inside is let out now. */
  function CheckOutVisitor(v: Visitor, now: Instant): (r: Result<Visitor>)
    ensures r.Failure? <==> !v.isInside
    ensures r.Failure? ==> r.error == BadRequest("Visitor is already checked out")
    ensures r.Success? ==> !r.value.isInside && r.value.checkOutTime == Some(now) && r.value.student == v.student
  {
    if !v.isInside then Failure(BadRequest("Visitor is already checked out"))
    else Success(v.(isInside := false, checkOutTime := Some(now)))
  }

  /** A visitor can be let out once. */
  lemma VisitorCheckedOutOnce(v: Visitor, now: Instant, later: Instant)
    requires CheckOutVisitor(v, now).Success?
    ensures CheckOutVisitor(CheckOutVisitor(v, now).value, later).Failure?
  {
  }

  /** Maintenance `assign_staff` once the staff member is found: assigned and
      in progress, whatever the status was. */
  function AssignMaintenance(m: Maintenance, staff: nat): (m': Maintenance)
    ensures m'.assignedTo == Some(staff) && m'.status == MaintenanceInProgress
    ensures m' == m.(assignedTo := m'.assignedTo, status := m'.status)
  {
    m.(assignedTo := Some(staff), status := MaintenanceInProgress)
  }

  /** `mark_completed`: completed now from any status; the cost and notes
      are overwritten only when given and truthy (a zero cost and an empty
      note leave the stored value). */
  function CompleteMaintenance(m: Maintenance, now: Instant, cost: Option<int>, notes: string): (m': Maintenance)
    ensures m'.status == MaintenanceCompleted && m'.completedDate == Some(now)
    ensures m'.actualCostCents == (if cost.Some? && cost.value != 0 then cost else m.actualCostCents)
    ensures m'.notes == (if notes != "" then notes else m.notes)
    ensures m'.scheduledDate == m.scheduledDate && m'.assignedTo == m.assignedTo
  {
    m.(status := MaintenanceCompleted, completedDate := Some(now),
       actualCostCents := if cost.Some? && cost.value != 0 then cost else m.actualCostCents,
       notes := if notes != "" then notes else m.notes)
  }

  /** A completed request is never overdue. */
  lemma CompletedNotOverdue(m: Maintenance, now: Instant, cost: Option<int>, notes: string, later: Instant)
    ensures !MaintenanceIsOverdue(CompleteMaintenance(m, now, cost, notes), later)
  {
  }

  /** Complaint `assign_staff` once the staff member is found. */
  function AssignComplaint(c: Complaint, staff: nat): (c': Complaint)
    ensures c'.assignedTo == Some(staff) && c'.status == ComplaintInProgress
    ensures c' == c.(assignedTo := c'.assignedTo, status := c'.status)
  {
    c.(assignedTo := Some(staff), status := ComplaintInProgress)
  }

  /** `resolve_complaint`: resolved now from any status; the resolution text
      is overwritten only when non-empty. */
  function ResolveComplaint(c: Complaint, now: Instant, resolution: string): (c': Complaint)
    ensures c'.status == ComplaintResolved && c'.resolvedDate == Some(now)
    ensures c'.resolution == (if resolution != "" then resolution else c.resolution)
    ensures c'.assignedTo == c.assignedTo && c'.student == c.student
  {
    c.(status := ComplaintResolved, resolvedDate := Some(now),
       resolution := if resolution != "" then resolution else c.resolution)
  }

  /** Payment `mark_paid`: paid today from any status (a paid payment is
      paid again); method and reference are overwritten only when given. */
  function PayPayment(p: Payment, today: Date, via: string, reference: string): (p': Payment)
    ensures p'.status == PaymentPaid && p'.paidDate == Some(today)
    ensures p'.paymentMethod == (if via != "" then via else p.paymentMethod)
    ensures p'.referenceNumber == (if reference != "" then reference else p.referenceNumber)
    ensures p'.amountCents == p.amountCents && p'.dueDate == p.dueDate && p'.student == p.student
  {
    p.(status := PaymentPaid, paidDate := Some(today),
       paymentMethod := if via != "" then via else p.paymentMethod,
       referenceNumber := if reference != "" then reference else p.referenceNumber)
  }

  /** A paid payment is never overdue, and paying it again on a later day
      moves its paid date. */
  lemma PayPaymentNoGuard(p: Payment, d1: Date, d2: Date)
    ensures !PaymentIsOverdue(PayPayment(p, d1, "", ""), d2)
    ensures PayPayment(PayPayment(p, d1, "", ""), d2, "", "").paidDate == Some(d2)
  {
  }

  // ---------------------------------------------------------------------
  // The admin bulk actions.
  // ---------------------------------------------------------------------

  predicate Completable(m: Maintenance)
  {
    m.status == MaintenancePending || m.status == MaintenanceInProgress
  }

  /** `mark_maintenance_completed`: selected pending or in-progress requests
      become completed now; all others stay as they are. */
  function CompleteSelected(t: map<nat, Maintenance>, selected: set<nat>, now: Instant): (t': map<nat, Maintenance>)
    ensures t'.Keys == t.Keys
    ensures forall id :: id in t && id in selected && Completable(t[id]) ==>
              t'[id] == t[id].(status := MaintenanceCompleted, completedDate := Some(now))
    ensures forall id :: id in t && !(id in selected && Completable(t[id])) ==> t'[id] == t[id]
  {
    map id | id in t ::
      if id in selected && Completable(t[id]) then t[id].(status := MaintenanceCompleted, completedDate := Some(now))
      else t[id]
  }

  /** The rows `mark_maintenance_completed` updates. */
  function CompletableSelection(t: map<nat, Maintenance>, selected: set<nat>): (s: set<nat>)
    ensures forall id :: id in s <==> id in t && id in selected && Completable(t[id])
  {
    set id | id in t && id in selected && Completable(t[id])
  }

  /** A second run updates nothing and changes nothing, even at a later
      time. */
  lemma CompleteSelectedIdempotent(t: map<nat, Maintenance>, selected: set<nat>, now: Instant, later: Instant)
    ensures CompletableSelection(CompleteSelected(t, selected, now), selected) == {}
    ensures CompleteSelected(CompleteSelected(t, selected, now), selected, later) == CompleteSelected(t, selected, now)
  {
    var t1 := CompleteSelected(t, selected, now);
    assert forall id :: id in t1 && id in selected ==> !Completable(t1[id]);
  }

  predicate Resolvable(c: Complaint)
  {
    c.status == ComplaintOpen || c.status == ComplaintInProgress
  }

  /** `mark_complaints_resolved`: selected open or in-progress complaints
      become resolved now; all others stay as they are. */
  function ResolveSelected(t: map<nat, Complaint>, selected: set<nat>, now: Instant): (t': map<nat, Complaint>)
    ensures t'.Keys == t.Keys
    ensures forall id :: id in t && id in selected && Resolvable(t[id]) ==>
              t'[id] == t[id].(status := ComplaintResolved, resolvedDate := Some(now))
    ensures forall id :: id in t && !(id in selected && Resolvable(t[id])) ==> t'[id] == t[id]
  {
    map id | id in t ::
      if id in selected && Resolvable(t[id]) then t[id].(status := ComplaintResolved, resolvedDate := Some(now))
      else t[id]
  }

  function ResolvableSelection(t: map<nat, Complaint>, selected: set<nat>): (s: set<nat>)
    ensures forall id :: id in s <==> id in t && id in selected && Resolvable(t[id])
  {
    set id | id in t && id in selected && Resolvable(t[id])
  }

  lemma ResolveSelectedIdempotent(t: map<nat, Complaint>, selected: set<nat>, now: Instant, later: Instant)
    ensures ResolvableSelection(ResolveSelected(t, selected, now), selected) == {}
    ensures ResolveSelected(ResolveSelected(t, selected, now), selected, later) == ResolveSelected(t, selected, now)
  {
    var t1 := ResolveSelected(t, selected, now);
    assert forall id :: id in t1 && id in selected ==> !Resolvable(t1[id]);
  }

  /** `mark_payments_paid`: selected pending payments become paid today; all
      others stay as they are. */
  function PaySelected(t: map<nat, Payment>, selected: set<nat>, today: Date): (t': map<nat, Payment>)
    ensures t'.Keys == t.Keys
    ensures forall id :: id in t && id in selected && t[id].status == PaymentPending ==>
              t'[id] == t[id].(status := PaymentPaid, paidDate := Some(today))
    ensures forall id :: id in t && !(id in selected && t[id].status == PaymentPending) ==> t'[id] == t[id]
  {
    map id | id in t ::
      if id in selected && t[id].status == PaymentPending then t[id].(status := PaymentPaid, paidDate := Some(today))
      else t[id]
  }

  function PayableSelection(t: map<nat, Payment>, selected: set<nat>): (s: set<nat>)
    ensures forall id :: id in s <==> id in t && id in selected && t[id].status == PaymentPending
  {
    set id | id in t && id in selected && t[id].status == PaymentPending
  }

  lemma PaySelectedIdempotent(t: map<nat, Payment>, selected: set<nat>, today: Date, later: Date)
    ensures PayableSelection(PaySelected(t, selected, today), selected) == {}
    ensures PaySelected(PaySelected(t, selected, today), selected, later) == PaySelected(t, selected, today)
  {
    var t1 := PaySelected(t, selected, today);
    assert forall id :: id in t1 && id in selected ==> t1[id].status != PaymentPending;
  }

  /** After `mark_payments_paid` no selected payment is overdue any more. */
  lemma PaySelectedClearsOverdue(t: map<nat, Payment>, selected: set<nat>, today: Date, id: nat)
    requires id in selected && id in OverduePayments(t, today)
    ensures id !in OverduePayments(PaySelected(t, selected, today), today)
  {
  }
}
