/** The fee app of the campus management system: fee structures whose total
    is the sum of their components, challans whose remaining amount is
    recomputed on every save, payments that drive a challan's paid amount
    and status, the overdue marking done by a view and by an admin action,
    and the per-student and per-department summaries. Money is integer
    cents. */
module Fees {
  import opened Common

  const DuplicateStructureMsg: string := "The fields program, semester, academic_year must make a unique set."
  const InvalidChallanMsg: string := "Invalid pk - object does not exist."
  const DuplicateChallanMsg: string := "fee challan with this challan number already exists."
  const DuplicateReceiptMsg: string := "payment with this receipt number already exists."
  const ChallanNotFoundMsg: string := "No FeeChallan matches the given query."
  const StudentIdRequiredMsg: string := "student_id parameter is required"
  const DepartmentIdRequiredMsg: string := "department_id parameter is required"

  datatype FeeStructure = FeeStructure(
    program: nat,
    semester: nat,
    academicYear: string,
    tuitionCents: int,
    labCents: int,
    libraryCents: int,
    examinationCents: int,
    otherCents: int,
    totalCents: int)

  /** `Partial` is written by the payment view although it is not one of
      the field's declared choices. */
  datatype ChallanStatus = Pending | Paid | Overdue | Cancelled | Partial

  datatype Challan = Challan(
    number: string,
    student: nat,
    dueDate: Date,
    totalCents: int,
    paidCents: int,
    remainingCents: int,
    status: ChallanStatus)

  datatype FeePayment = FeePayment(challan: nat, receipt: string, amountCents: int)

  datatype Scholarship = Scholarship(student: nat, amountCents: int, isActive: bool)

  // ---------------------------------------------------------------------
  // Fee structures and challans.
  // ---------------------------------------------------------------------

  /** A structure as entered: only the tuition is required, the other
      components default to zero (the total is set on save). */
  function NewFeeStructure(program: nat, semester: nat, year: string, tuitionCents: int): (f: FeeStructure)
    ensures f.labCents == 0 && f.libraryCents == 0 && f.examinationCents == 0 && f.otherCents == 0
    ensures SavedFeeStructure(f).totalCents == tuitionCents
  {
    FeeStructure(program, semester, year, tuitionCents, 0, 0, 0, 0, 0)
  }

  /** `FeeStructure.save`: the total is recomputed from the five components,
      whatever total was supplied. */
  function SavedFeeStructure(f: FeeStructure): (f': FeeStructure)
    ensures f'.totalCents == f.tuitionCents + f.labCents + f.libraryCents + f.examinationCents + f.otherCents
    ensures f' == f.(totalCents := f'.totalCents)
  {
    f.(totalCents := f.tuitionCents + f.labCents + f.libraryCents + f.examinationCents + f.otherCents)
  }

  /** The stored total never depends on the supplied one. */
  lemma SuppliedTotalIgnored(f: FeeStructure, supplied: int)
    ensures SavedFeeStructure(f.(totalCents := supplied)) == SavedFeeStructure(f)
  {
  }

  /** `FeeChallan.save`: the remaining amount is recomputed, unclamped. */
  function SavedChallan(c: Challan): (c': Challan)
    ensures c'.remainingCents + c.paidCents == c.totalCents
    ensures c' == c.(remainingCents := c'.remainingCents)
    ensures c.paidCents > c.totalCents ==> c'.remainingCents < 0
  {
    c.(remainingCents := c.totalCents - c.paidCents)
  }

  /** Whether a stored challan went through `FeeChallan.save`. */
  predicate Consistent(c: Challan)
  {
    c.remainingCents == c.totalCents - c.paidCents
  }

  /** A challan as issued and saved: the paid amount and status given, or
      nothing paid and pending by default; the remaining amount is
      computed, whatever was sent. */
  function NewChallan(number: string, student: nat, due: Date, totalCents: int, paid: Option<int>, status: Option<ChallanStatus>): (c: Challan)
    ensures c.number == number && c.student == student && c.dueDate == due && c.totalCents == totalCents
    ensures c.paidCents == (if paid.Some? then paid.value else 0)
    ensures c.status == (if status.Some? then status.value else Pending)
    ensures c.remainingCents == totalCents - c.paidCents
    ensures paid.None? ==> c.remainingCents == totalCents
    ensures Consistent(c)
  {
    SavedChallan(Challan(number, student, due, totalCents, if paid.Some? then paid.value else 0, 0,
                         if status.Some? then status.value else Pending))
  }

  /** A challan after an update through the view: the writable fields
      given are replaced and the save recomputes the remaining amount; the
      status is whatever was sent or kept, never derived from the paid
      amount. */
  function EditedChallan(c: Challan, number: Option<string>, student: Option<nat>, due: Option<Date>, totalCents: Option<int>,
                         paid: Option<int>, status: Option<ChallanStatus>): (c': Challan)
    ensures c'.number == (if number.Some? then number.value else c.number)
    ensures c'.student == (if student.Some? then student.value else c.student)
    ensures c'.dueDate == (if due.Some? then due.value else c.dueDate)
    ensures c'.totalCents == (if totalCents.Some? then totalCents.value else c.totalCents)
    ensures c'.paidCents == (if paid.Some? then paid.value else c.paidCents)
    ensures c'.status == (if status.Some? then status.value else c.status)
    ensures Consistent(c')
  {
    SavedChallan(c.(number := if number.Some? then number.value else c.number,
                    student := if student.Some? then student.value else c.student,
                    dueDate := if due.Some? then due.value else c.dueDate,
                    totalCents := if totalCents.Some? then totalCents.value else c.totalCents,
                    paidCents := if paid.Some? then paid.value else c.paidCents,
                    status := if status.Some? then status.value else c.status))
  }

  /** An update that pays a challan in full without sending a status leaves
      it pending, unlike a recorded payment, which marks it paid. */
  lemma EditedPaymentKeepsStatus(c: Challan, paid: int)
    requires c.status == Pending && paid >= c.totalCents > 0
    ensures EditedChallan(c, None, None, None, None, Some(paid), None).status == Pending
    ensures ChallanAfterPayment(c, paid).status == Paid
  {
  }

  // ---------------------------------------------------------------------
  // Overdue marking.
  // ---------------------------------------------------------------------

  /** The filter shared by `overdue_challans` and the admin `mark_overdue`. */
  predicate BecomesOverdue(c: Challan, today: Date)
  {
    c.status == Pending && c.dueDate < today
  }

  /** Admin `mark_overdue` on the selected rows: exactly the pending rows
      due before today become overdue; nothing else changes. */
  function MarkOverdueSelected(cs: seq<Challan>, selected: set<nat>, today: Date): (cs': seq<Challan>)
    ensures |cs'| == |cs|
    ensures forall i :: 0 <= i < |cs| ==>
              cs'[i] == (if i in selected && BecomesOverdue(cs[i], today) then cs[i].(status := Overdue) else cs[i])
  {
    seq(|cs|, i requires 0 <= i < |cs| =>
      if i in selected && BecomesOverdue(cs[i], today) then cs[i].(status := Overdue) else cs[i])
  }

  /** The rows an overdue marking changes. */
  function OverdueSelection(cs: seq<Challan>, selected: set<nat>, today: Date): (s: set<nat>)
    ensures forall i :: i in s <==> i in selected && 0 <= i < |cs| && BecomesOverdue(cs[i], today)
  {
    set i: nat | i in selected && i < |cs| && BecomesOverdue(cs[i], today)
  }

  /** Every row id of a table with `n` rows. */
  function AllRows(n: nat): (s: set<nat>)
    ensures forall i :: i in s <==> 0 <= i < n
    decreases n
  {
    if n == 0 then {} else AllRows(n - 1) + {n - 1}
  }

  /** A second marking on the same day changes nothing; rows in any other
      status than pending are never changed. */
  lemma MarkOverdueIdempotent(cs: seq<Challan>, selected: set<nat>, today: Date)
    ensures OverdueSelection(MarkOverdueSelected(cs, selected, today), selected, today) == {}
    ensures MarkOverdueSelected(MarkOverdueSelected(cs, selected, today), selected, today) == MarkOverdueSelected(cs, selected, today)
    ensures forall i :: 0 <= i < |cs| && cs[i].status != Pending ==> MarkOverdueSelected(cs, selected, today)[i] == cs[i]
  {
    var once := MarkOverdueSelected(cs, selected, today);
    assert forall i :: 0 <= i < |once| && i in selected ==> !BecomesOverdue(once[i], today);
  }

  /** The view marks the same rows the admin action marks when every row is
      selected. */
  lemma ViewMatchesAdmin(cs: seq<Challan>, selected: set<nat>, today: Date, i: nat)
    requires i < |cs|
    ensures i in OverdueSelection(cs, AllRows(|cs|), today) <==> BecomesOverdue(cs[i], today)
    ensures i in selected ==>
              MarkOverdueSelected(cs, selected, today)[i] == MarkOverdueSelected(cs, AllRows(|cs|), today)[i]
  {
  }

  // ---------------------------------------------------------------------
  // Payments.
  // ---------------------------------------------------------------------

  /** The sum of the amounts of a challan's payments. */
  function PaymentsTotal(ps: seq<FeePayment>, challan: nat): (t: int)
    ensures (forall i :: 0 <= i < |ps| ==> ps[i].challan != challan) ==> t == 0
    ensures (forall i :: 0 <= i < |ps| ==> ps[i].challan == challan) ==> t == AmountsOf(ps)
    decreases |ps|
  {
    if |ps| == 0 then 0
    else PaymentsTotal(ps[..|ps| - 1], challan) + (if ps[|ps| - 1].challan == challan then ps[|ps| - 1].amountCents else 0)
  }

  /** The sum of the amounts of all payments. */
  function AmountsOf(ps: seq<FeePayment>): int
    decreases |ps|
  {
    if |ps| == 0 then 0 else AmountsOf(ps[..|ps| - 1]) + ps[|ps| - 1].amountCents
  }

  /** A payment adds exactly its amount to its own challan's total and
      nothing to any other challan's. */
  lemma PaymentsTotalAppend(ps: seq<FeePayment>, p: FeePayment, challan: nat)
    ensures PaymentsTotal(ps + [p], challan) == PaymentsTotal(ps, challan) + (if p.challan == challan then p.amountCents else 0)
  {
    assert (ps + [p])[..|ps|] == ps;
  }

  /** Non-negative payments give a non-negative total. */
  lemma {:induction false} PaymentsTotalNonNegative(ps: seq<FeePayment>, challan: nat)
    requires forall i :: 0 <= i < |ps| ==> ps[i].amountCents >= 0
    ensures PaymentsTotal(ps, challan) >= 0
    decreases |ps|
  {
    if |ps| > 0 {
      PaymentsTotalNonNegative(ps[..|ps| - 1], challan);
    }
  }

  /** The status `PaymentViewSet.perform_create` leaves: paid once the
      payments cover the total, partial while something is paid, and
      otherwise unchanged. */
  function StatusAfterPayment(paid: int, total: int, status: ChallanStatus): (s: ChallanStatus)
    ensures paid >= total ==> s == Paid
    ensures paid < total && paid > 0 ==> s == Partial
    ensures paid < total && paid <= 0 ==> s == status
  {
    if paid >= total then Paid else if paid > 0 then Partial else status
  }

  /** The challan after a payment has been stored: the paid amount is the
      sum of all its payments, the status follows, and the save recomputes
      the remaining amount. */
  function ChallanAfterPayment(c: Challan, paid: int): (c': Challan)
    ensures c'.paidCents == paid && c'.status == StatusAfterPayment(paid, c.totalCents, c.status)
    ensures Consistent(c') && c'.remainingCents == c.totalCents - paid
    ensures c'.totalCents == c.totalCents && c'.dueDate == c.dueDate && c'.student == c.student && c'.number == c.number
    ensures c'.remainingCents <= 0 ==> c'.status == Paid
  {
    SavedChallan(c.(paidCents := paid, status := StatusAfterPayment(paid, c.totalCents, c.status)))
  }

  // ---------------------------------------------------------------------
  // Summaries.
  // ---------------------------------------------------------------------

  /** Sum of a student's challan totals. */
  function FeesOf(cs: seq<Challan>, student: nat): (t: int)
    ensures (forall i :: 0 <= i < |cs| ==> cs[i].student != student) ==> t == 0
    ensures (forall i :: 0 <= i < |cs| ==> cs[i].totalCents >= 0) ==> t >= 0
    decreases |cs|
  {
    if |cs| == 0 then 0
    else FeesOf(cs[..|cs| - 1], student) + (if cs[|cs| - 1].student == student then cs[|cs| - 1].totalCents else 0)
  }

  /** Sum of a student's challan paid amounts. */
  function PaidOf(cs: seq<Challan>, student: nat): (t: int)
    ensures (forall i :: 0 <= i < |cs| ==> cs[i].student != student) ==> t == 0
    ensures (forall i :: 0 <= i < |cs| ==> cs[i].paidCents >= 0) ==> t >= 0
    decreases |cs|
  {
    if |cs| == 0 then 0
    else PaidOf(cs[..|cs| - 1], student) + (if cs[|cs| - 1].student == student then cs[|cs| - 1].paidCents else 0)
  }

  /** A new challan adds its total and its paid amount to its own
      student's sums and nothing to anyone else's. */
  lemma FeesAndPaidAppend(cs: seq<Challan>, c: Challan, student: nat)
    ensures FeesOf(cs + [c], student) == FeesOf(cs, student) + (if c.student == student then c.totalCents else 0)
    ensures PaidOf(cs + [c], student) == PaidOf(cs, student) + (if c.student == student then c.paidCents else 0)
  {
    assert (cs + [c])[..|cs|] == cs;
  }

  /** Sum of a student's stored remaining amounts. */
  function RemainingOf(cs: seq<Challan>, student: nat): int
    decreases |cs|
  {
    if |cs| == 0 then 0
    else RemainingOf(cs[..|cs| - 1], student) + (if cs[|cs| - 1].student == student then cs[|cs| - 1].remainingCents else 0)
  }

  /** Sum of a student's active scholarships. */
  function ScholarshipsOf(ss: seq<Scholarship>, student: nat): int
    decreases |ss|
  {
    if |ss| == 0 then 0
    else ScholarshipsOf(ss[..|ss| - 1], student) + (if ss[|ss| - 1].student == student && ss[|ss| - 1].isActive then ss[|ss| - 1].amountCents else 0)
  }

  /** Number of a student's challans in a status. */
  function CountStatus(cs: seq<Challan>, student: nat, status: ChallanStatus): nat
    decreases |cs|
  {
    if |cs| == 0 then 0
    else CountStatus(cs[..|cs| - 1], student, status) + (if cs[|cs| - 1].student == student && cs[|cs| - 1].status == status then 1 else 0)
  }

  datatype StudentSummary = StudentSummary(
    totalFees: int,
    totalPaid: int,
    totalRemaining: int,
    totalScholarships: int,
    netRemaining: int,
    overdueChallans: nat,
    pendingChallans: nat)

  /** `student_summary`: needs a student id; the remaining balance is fees
      less payments, and the net balance after scholarships is floored at
      zero. */
  function SummarizeStudent(cs: seq<Challan>, ss: seq<Scholarship>, studentId: Option<nat>): (r: Result<StudentSummary>)
    ensures studentId.None? <==> r.Failure?
    ensures r.Failure? ==> r.error == BadRequest(StudentIdRequiredMsg)
    ensures r.Success? ==>
              var s := r.value;
              s.totalFees == FeesOf(cs, studentId.value) && s.totalPaid == PaidOf(cs, studentId.value)
              && s.totalRemaining == s.totalFees - s.totalPaid
              && s.totalScholarships == ScholarshipsOf(ss, studentId.value)
              && s.netRemaining >= 0 && s.netRemaining >= s.totalRemaining - s.totalScholarships
              && (s.netRemaining == 0 || s.netRemaining == s.totalRemaining - s.totalScholarships)
              && s.overdueChallans == CountStatus(cs, studentId.value, Overdue)
              && s.pendingChallans == CountStatus(cs, studentId.value, Pending)
  {
    if studentId.None? then Failure(BadRequest(StudentIdRequiredMsg))
    else
      var student := studentId.value;
      var fees := FeesOf(cs, student);
      var paid := PaidOf(cs, student);
      var scholarships := ScholarshipsOf(ss, student);
      Success(StudentSummary(fees, paid, fees - paid, scholarships, Max0(fees - paid - scholarships),
                             CountStatus(cs, student, Overdue), CountStatus(cs, student, Pending)))
  }

  /** When every challan was saved, the summary's remaining balance is the
      sum of the challans' own remaining amounts. */
  lemma {:induction false} RemainingAgrees(cs: seq<Challan>, student: nat)
    requires forall i :: 0 <= i < |cs| ==> Consistent(cs[i])
    ensures RemainingOf(cs, student) == FeesOf(cs, student) - PaidOf(cs, student)
    decreases |cs|
  {
    if |cs| > 0 {
      RemainingAgrees(cs[..|cs| - 1], student);
    }
  }

  /** Sum over a list of students of their challan totals. */
  function FeesOfAll(students: seq<nat>, cs: seq<Challan>): int
    decreases |students|
  {
    if |students| == 0 then 0
    else FeesOfAll(students[..|students| - 1], cs) + FeesOf(cs, students[|students| - 1])
  }

  /** Sum over a list of students of their challan paid amounts. */
  function PaidOfAll(students: seq<nat>, cs: seq<Challan>): int
    decreases |students|
  {
    if |students| == 0 then 0
    else PaidOfAll(students[..|students| - 1], cs) + PaidOf(cs, students[|students| - 1])
  }

  /** Sum of the totals of the challans whose student is in a set. */
  function FeesOfGroup(cs: seq<Challan>, group: set<nat>): int
    decreases |cs|
  {
    if |cs| == 0 then 0
    else FeesOfGroup(cs[..|cs| - 1], group) + (if cs[|cs| - 1].student in group then cs[|cs| - 1].totalCents else 0)
  }

  /** How many times a student is listed. */
  function Occurrences(students: seq<nat>, x: nat): nat
    decreases |students|
  {
    if |students| == 0 then 0
    else Occurrences(students[..|students| - 1], x) + (if students[|students| - 1] == x then 1 else 0)
  }

  /** Adding a challan to the table adds its total once for each time its
      student is listed. */
  lemma {:induction false} FeesOfAllAppend(students: seq<nat>, cs: seq<Challan>, c: Challan)
    ensures FeesOfAll(students, cs + [c]) == FeesOfAll(students, cs) + Occurrences(students, c.student) * c.totalCents
    decreases |students|
  {
    if |students| > 0 {
      var init := students[..|students| - 1];
      var last := students[|students| - 1];
      FeesOfAllAppend(init, cs, c);
      assert (cs + [c])[..|cs|] == cs;
      var k := Occurrences(init, c.student);
      if last == c.student {
        assert (k + 1) * c.totalCents == k * c.totalCents + c.totalCents;
      }
    }
  }

  /** With each student listed once, the department total is the total of
      exactly the challans of the department's students. */
  lemma {:induction false} DepartmentFeesCoverGroup(students: seq<nat>, cs: seq<Challan>)
    requires forall i, j :: 0 <= i < j < |students| ==> students[i] != students[j]
    ensures FeesOfAll(students, cs) == FeesOfGroup(cs, set s | s in students)
    decreases |cs|
  {
    if |cs| == 0 {
      EmptyFeesOfAll(students);
    } else {
      var init := cs[..|cs| - 1];
      var c := cs[|cs| - 1];
      assert cs == init + [c];
      DepartmentFeesCoverGroup(students, init);
      FeesOfAllAppend(students, init, c);
      DistinctOccurrences(students, c.student);
    }
  }

  lemma {:induction false} EmptyFeesOfAll(students: seq<nat>)
    ensures FeesOfAll(students, []) == 0
    decreases |students|
  {
    if |students| > 0 {
      EmptyFeesOfAll(students[..|students| - 1]);
    }
  }

  /** In a list without repeats a value occurs once if listed, else never. */
  lemma {:induction false} DistinctOccurrences(students: seq<nat>, x: nat)
    requires forall i, j :: 0 <= i < j < |students| ==> students[i] != students[j]
    ensures Occurrences(students, x) == (if x in students then 1 else 0)
    decreases |students|
  {
    if |students| > 0 {
      var init := students[..|students| - 1];
      var last := students[|students| - 1];
      assert students == init + [last];
      DistinctOccurrences(init, x);
      assert last !in init;
    }
  }

  datatype DepartmentSummary = DepartmentSummary(
    totalStudents: nat,
    totalFees: int,
    totalPaid: int,
    totalRemaining: int,
    collectionRate: real)

  /** The collection rate in percent, zero when there is nothing to collect. */
  function CollectionRate(paid: int, fees: int): (r: real)
    ensures fees <= 0 ==> r == 0.0
    ensures fees > 0 ==> r * (fees as real) == (paid as real) * 100.0
    ensures fees > 0 && 0 <= paid <= fees ==> 0.0 <= r <= 100.0
  {
    if fees > 0 then (paid as real / fees as real) * 100.0 else 0.0
  }

  /** `department_summary`: needs a department id; adds up, student by
      student, the totals and paid amounts of each student's challans. */
  method SummarizeDepartment(students: seq<nat>, cs: seq<Challan>, departmentId: Option<nat>) returns (r: Result<DepartmentSummary>)
    ensures departmentId.None? <==> r.Failure?
    ensures r.Failure? ==> r.error == BadRequest(DepartmentIdRequiredMsg)
    ensures r.Success? ==>
              r.value.totalStudents == |students|
              && r.value.totalFees == FeesOfAll(students, cs)
              && r.value.totalPaid == PaidOfAll(students, cs)
              && r.value.totalRemaining == r.value.totalFees - r.value.totalPaid
              && r.value.collectionRate == CollectionRate(r.value.totalPaid, r.value.totalFees)
  {
    if departmentId.None? {
      return Failure(BadRequest(DepartmentIdRequiredMsg));
    }
    var fees := 0;
    var paid := 0;
    var i := 0;
    while i < |students|
      invariant 0 <= i <= |students|
      invariant fees == FeesOfAll(students[..i], cs)
      invariant paid == PaidOfAll(students[..i], cs)
    {
      assert students[..i + 1][..i] == students[..i];
      fees := fees + FeesOf(cs, students[i]);
      paid := paid + PaidOf(cs, students[i]);
      i := i + 1;
    }
    assert students[..|students|] == students;
    r := Success(DepartmentSummary(|students|, fees, paid, fees - paid, CollectionRate(paid, fees)));
  }

  // ---------------------------------------------------------------------
  // The stored tables.
  // ---------------------------------------------------------------------

  predicate StructuresUnique(fs: map<nat, FeeStructure>)
  {
    forall i, j :: i in fs && j in fs && i != j ==>
      (fs[i].program, fs[i].semester, fs[i].academicYear) != (fs[j].program, fs[j].semester, fs[j].academicYear)
  }

  /** `challan_number` is unique. */
  predicate ChallanNumbersUnique(cs: seq<Challan>)
  {
    forall i, j :: 0 <= i < |cs| && 0 <= j < |cs| && i != j ==> cs[i].number != cs[j].number
  }

  /** `receipt_number` is unique. */
  predicate ReceiptsUnique(ps: seq<FeePayment>)
  {
    forall i, j :: 0 <= i < |ps| && 0 <= j < |ps| && i != j ==> ps[i].receipt != ps[j].receipt
  }

  /** Some challan other than row `except` already has `number`. */
  predicate ChallanNumberTaken(cs: seq<Challan>, number: string, except: int)
  {
    exists j :: 0 <= j < |cs| && j != except && cs[j].number == number
  }

  /** Some stored payment already has `receipt`. */
  predicate ReceiptTaken(ps: seq<FeePayment>, receipt: string)
  {
    exists j :: 0 <= j < |ps| && ps[j].receipt == receipt
  }

  /** The serializer's uniqueness test is exactly what keeps the numbers
      unique: writing `c` at row `id` (or appending it, when `id` is the
      length) leaves them unique if and only if no other row has its
      number. */
  lemma ChallanNumberCheck(cs: seq<Challan>, id: nat, c: Challan)
    requires ChallanNumbersUnique(cs) && id <= |cs|
    ensures var cs' := if id == |cs| then cs + [c] else cs[id := c];
            ChallanNumbersUnique(cs') <==> !ChallanNumberTaken(cs, c.number, id)
  {
    var cs' := if id == |cs| then cs + [c] else cs[id := c];
    if ChallanNumberTaken(cs, c.number, id) {
      var j :| 0 <= j < |cs| && j != id && cs[j].number == c.number;
      assert cs'[j].number == cs'[id].number;
    }
  }

  /** Likewise for receipt numbers, which are only ever appended. */
  lemma ReceiptCheck(ps: seq<FeePayment>, p: FeePayment)
    requires ReceiptsUnique(ps)
    ensures ReceiptsUnique(ps + [p]) <==> !ReceiptTaken(ps, p.receipt)
  {
    if ReceiptTaken(ps, p.receipt) {
      var j :| 0 <= j < |ps| && ps[j].receipt == p.receipt;
      assert (ps + [p])[j].receipt == (ps + [p])[|ps|].receipt;
    }
  }

  /** Challans are stored in a sequence indexed by id. */
  class FeesDb {
    var structures: map<nat, FeeStructure>
    var challans: seq<Challan>
    var payments: seq<FeePayment>

    ghost predicate Valid()
      reads this
    {
      StructuresUnique(structures)
      && ChallanNumbersUnique(challans)
      && ReceiptsUnique(payments)
      && (forall i :: 0 <= i < |payments| ==> payments[i].challan < |challans|)
      && (forall i :: 0 <= i < |challans| ==> Consistent(challans[i]))
    }

    constructor()
      ensures Valid()
      ensures structures == map[] && challans == [] && payments == []
    {
      structures := map[];
      challans := [];
      payments := [];
    }

    /** Creating or editing a fee structure: the serializer refuses a second
        structure for the same program, semester and year; the save
        recomputes the total. */
    method SaveStructure(id: nat, f: FeeStructure) returns (resp: Response)
      requires Valid()
      modifies this
      ensures Valid()
      ensures challans == old(challans) && payments == old(payments)
      ensures var clash := (exists j :: j in old(structures) && j != id
                              && (old(structures)[j].program, old(structures)[j].semester, old(structures)[j].academicYear) == (f.program, f.semester, f.academicYear));
              (clash ==> resp == BadRequest(DuplicateStructureMsg) && structures == old(structures))
              && (!clash ==> resp.IsSuccess() && structures == old(structures)[id := SavedFeeStructure(f)])
    {
      if exists j | j in structures && j != id :: (structures[j].program, structures[j].semester, structures[j].academicYear) == (f.program, f.semester, f.academicYear) {
        return BadRequest(DuplicateStructureMsg);
      }
      structures := structures[id := SavedFeeStructure(f)];
      resp := Ok;
    }

    /** Issuing a challan through the challan view; returns its id. A
        challan number already in use is refused by the serializer. */
    method IssueChallan(number: string, student: nat, due: Date, totalCents: int, paid: Option<int>, status: Option<ChallanStatus>)
      returns (resp: Response, id: nat)
      requires Valid()
      modifies this
      ensures Valid()
      ensures ChallanNumberTaken(old(challans), number, -1) ==> resp == BadRequest(DuplicateChallanMsg) && challans == old(challans)
      ensures !ChallanNumberTaken(old(challans), number, -1) ==>
                resp == Created && id == |old(challans)| && challans == old(challans) + [NewChallan(number, student, due, totalCents, paid, status)]
      ensures structures == old(structures) && payments == old(payments)
    {
      id := |challans|;
      var c := NewChallan(number, student, due, totalCents, paid, status);
      if ChallanNumberTaken(challans, number, -1) {
        return BadRequest(DuplicateChallanMsg), id;
      }
      ChallanNumberCheck(challans, id, c);
      challans := challans + [c];
      resp := Created;
    }

    /** Updating a challan through the challan view (PUT or PATCH). A
        challan number sent that another challan already has is refused by
        the serializer; the challan's own number is not a clash. */
    method UpdateChallan(id: nat, number: Option<string>, student: Option<nat>, due: Option<Date>, totalCents: Option<int>,
                         paid: Option<int>, status: Option<ChallanStatus>) returns (resp: Response)
      requires Valid()
      modifies this
      ensures Valid()
      ensures id >= |old(challans)| ==> resp == NotFound(ChallanNotFoundMsg) && challans == old(challans)
      ensures id < |old(challans)| && number.Some? && ChallanNumberTaken(old(challans), number.value, id) ==>
                resp == BadRequest(DuplicateChallanMsg) && challans == old(challans)
      ensures id < |old(challans)| && (number.None? || !ChallanNumberTaken(old(challans), number.value, id)) ==>
                resp == Ok && challans == old(challans)[id := EditedChallan(old(challans)[id], number, student, due, totalCents, paid, status)]
      ensures structures == old(structures) && payments == old(payments)
    {
      if id >= |challans| {
        return NotFound(ChallanNotFoundMsg);
      }
      if number.Some? && ChallanNumberTaken(challans, number.value, id) {
        return BadRequest(DuplicateChallanMsg);
      }
      var c := EditedChallan(challans[id], number, student, due, totalCents, paid, status);
      ChallanNumberCheck(challans, id, c);
      challans := challans[id := c];
      resp := Ok;
    }

    /** `overdue_challans`: every pending challan due before today becomes
        overdue; returns how many did. */
    method OverdueChallans(today: Date) returns (count: nat)
      requires Valid()
      modifies this
      ensures Valid()
      ensures challans == MarkOverdueSelected(old(challans), AllRows(|old(challans)|), today)
      ensures count == |OverdueSelection(old(challans), AllRows(|old(challans)|), today)|
      ensures structures == old(structures) && payments == old(payments)
    {
      count := |OverdueSelection(challans, AllRows(|challans|), today)|;
      challans := MarkOverdueSelected(challans, AllRows(|challans|), today);
    }

    /** Admin `mark_overdue` on the selected challans. */
    method MarkOverdue(selected: set<nat>, today: Date) returns (count: nat)
      requires Valid()
      modifies this
      ensures Valid()
      ensures challans == MarkOverdueSelected(old(challans), selected, today)
      ensures count == |OverdueSelection(old(challans), selected, today)|
      ensures structures == old(structures) && payments == old(payments)
    {
      count := |OverdueSelection(challans, selected, today)|;
      challans := MarkOverdueSelected(challans, selected, today);
    }

    /** `PaymentViewSet.perform_create`: the payment is stored, then its
        challan's paid amount becomes the sum of all its payments, its status
        follows that sum and its remaining amount is recomputed. A payment
        naming no challan, or else repeating a receipt number, is refused by
        the serializer. */
    method RecordPayment(p: FeePayment) returns (resp: Response)
      requires Valid()
      modifies this
      ensures Valid()
      ensures structures == old(structures)
      ensures p.challan >= |old(challans)| ==> resp == BadRequest(InvalidChallanMsg) && challans == old(challans) && payments == old(payments)
      ensures p.challan < |old(challans)| && ReceiptTaken(old(payments), p.receipt) ==>
                resp == BadRequest(DuplicateReceiptMsg) && challans == old(challans) && payments == old(payments)
      ensures p.challan < |old(challans)| && !ReceiptTaken(old(payments), p.receipt) ==>
                resp == Created && payments == old(payments) + [p]
                && challans == old(challans)[p.challan := ChallanAfterPayment(old(challans)[p.challan], PaymentsTotal(old(payments), p.challan) + p.amountCents)]
    {
      if p.challan >= |challans| {
        return BadRequest(InvalidChallanMsg);
      }
      if ReceiptTaken(payments, p.receipt) {
        return BadRequest(DuplicateReceiptMsg);
      }
      ReceiptCheck(payments, p);
      payments := payments + [p];
      PaymentsTotalAppend(old(payments), p, p.challan);
      var total := PaymentsTotal(payments, p.challan);
      challans := challans[p.challan := ChallanAfterPayment(challans[p.challan], total)];
      resp := Created;
    }

    /** `student_summary` over the stored tables. */
    method StudentSummaryView(ss: seq<Scholarship>, studentId: Option<nat>) returns (r: Result<StudentSummary>)
      requires Valid()
      ensures r == SummarizeStudent(challans, ss, studentId)
      ensures r.Success? ==> r.value.totalRemaining == RemainingOf(challans, studentId.value)
    {
      r := SummarizeStudent(challans, ss, studentId);
      if studentId.Some? {
        RemainingAgrees(challans, studentId.value);
      }
    }
  }
}
