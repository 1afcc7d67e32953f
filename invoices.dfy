/** The invoice side of the university back end: invoices with a
    percent-per-day overdue fine, the periodic fine sweep and the reminder
    and alert selections, payments that settle an invoice, and the
    outstanding-balance reports. Decimal amounts are modelled as exact
    reals. */
module Invoices {
  import opened Common

  const DefaultReminderDaysBefore: nat := 3
  const InvalidInvoiceMsg: string := "Invalid pk - object does not exist."
  const DoesNotExistMsg: string := "DoesNotExist"
  const InvoiceNotFoundMsg: string := "No Invoice matches the given query."
  const DuplicateReferenceMsg: string := "invoice with this reference number already exists."
  /** The model's default for `fine_percentage_per_day`. */
  const DefaultFineRate: real := 0.0

  datatype Invoice = Invoice(
    student: nat,
    amount: real,
    dueDate: Date,
    isPaid: bool,
    paidAt: Option<Instant>,
    reference: string,
    finePercentPerDay: real,
    fineAmount: real,
    fineApplied: bool)

  datatype InvoicePayment = InvoicePayment(invoice: nat, amount: real, createdAt: Instant)

  /** An invoice as issued: unpaid, with the given daily fine rate (zero
      when none is given) and no fine. */
  function NewInvoice(student: nat, amount: real, due: Date, reference: string, rate: Option<real>): (inv: Invoice)
    ensures inv.student == student && inv.amount == amount && inv.dueDate == due && inv.reference == reference
    ensures !inv.isPaid && inv.paidAt.None?
    ensures inv.finePercentPerDay == (if rate.Some? then rate.value else 0.0)
    ensures inv.fineAmount == 0.0 && !inv.fineApplied
  {
    Invoice(student, amount, due, false, None, reference, if rate.Some? then rate.value else DefaultFineRate, 0.0, false)
  }

  /** The invoice after an update through the detail view: the writable
      fields given are replaced; payment state and the stored fine are
      read-only and kept. */
  function EditedInvoice(inv: Invoice, student: Option<nat>, amount: Option<real>, due: Option<Date>,
                         reference: Option<string>, rate: Option<real>): (inv': Invoice)
    ensures inv'.student == (if student.Some? then student.value else inv.student)
    ensures inv'.amount == (if amount.Some? then amount.value else inv.amount)
    ensures inv'.dueDate == (if due.Some? then due.value else inv.dueDate)
    ensures inv'.reference == (if reference.Some? then reference.value else inv.reference)
    ensures inv'.finePercentPerDay == (if rate.Some? then rate.value else inv.finePercentPerDay)
    ensures inv'.isPaid == inv.isPaid && inv'.paidAt == inv.paidAt
    ensures inv'.fineAmount == inv.fineAmount && inv'.fineApplied == inv.fineApplied
  {
    inv.(student := if student.Some? then student.value else inv.student,
         amount := if amount.Some? then amount.value else inv.amount,
         dueDate := if due.Some? then due.value else inv.dueDate,
         reference := if reference.Some? then reference.value else inv.reference,
         finePercentPerDay := if rate.Some? then rate.value else inv.finePercentPerDay)
  }

  // ---------------------------------------------------------------------
  // Fine formulas.
  // ---------------------------------------------------------------------

  /** The `calculate_overdue_fine` helper: a percentage of the amount for
      each overdue day. */
  function OverdueFine(amount: real, percentPerDay: real, days: int): (f: real)
    ensures days == 0 || percentPerDay == 0.0 || amount == 0.0 ==> f == 0.0
    ensures amount >= 0.0 && percentPerDay >= 0.0 && days >= 0 ==> f >= 0.0
  {
    amount * (percentPerDay / 100.0) * (days as real)
  }

  /** The helper is additive in the number of days. */
  lemma OverdueFineAdditive(amount: real, percentPerDay: real, d1: int, d2: int)
    ensures OverdueFine(amount, percentPerDay, d1 + d2) == OverdueFine(amount, percentPerDay, d1) + OverdueFine(amount, percentPerDay, d2)
  {
    var k := amount * (percentPerDay / 100.0);
    assert k * ((d1 + d2) as real) == k * (d1 as real) + k * (d2 as real);
  }

  /** Whether an invoice is unpaid and past its due date: the filter of the
      fine sweep and of the overdue alerts. */
  predicate IsOverdue(inv: Invoice, today: Date)
  {
    !inv.isPaid && inv.dueDate < today
  }

  /** `Invoice.calculate_fine`: nothing for a paid invoice or on or before
      the due date; otherwise the helper's fine for the days since the due
      date. */
  function CalculateFine(inv: Invoice, today: Date): (f: real)
    ensures !IsOverdue(inv, today) ==> f == 0.0
    ensures IsOverdue(inv, today) ==> f == OverdueFine(inv.amount, inv.finePercentPerDay, today - inv.dueDate)
    ensures inv.finePercentPerDay == 0.0 ==> f == 0.0
  {
    if inv.isPaid || inv.dueDate >= today then 0.0
    else inv.amount * (inv.finePercentPerDay / 100.0) * ((today - inv.dueDate) as real)
  }

  /** An unpaid invoice stays overdue as days pass; a paid one never is. */
  lemma InvoiceOverdueLifecycle(inv: Invoice, today: Date, later: Date)
    requires today <= later
    ensures IsOverdue(inv, today) ==> IsOverdue(inv, later)
    ensures inv.isPaid ==> !IsOverdue(inv, later) && CalculateFine(inv, later) == 0.0
    ensures !inv.isPaid ==> (IsOverdue(inv, later) <==> inv.dueDate < later)
  {
  }

  /** A positive fine only ever comes from an overdue invoice. */
  lemma PositiveFineIsOverdue(inv: Invoice, today: Date)
    ensures CalculateFine(inv, today) != 0.0 ==> IsOverdue(inv, today)
  {
  }

  /** Each further day adds the same daily fine to an overdue invoice. */
  lemma FineGrowsLinearly(inv: Invoice, today: Date, k: nat)
    requires IsOverdue(inv, today)
    ensures CalculateFine(inv, today + k) == CalculateFine(inv, today) + OverdueFine(inv.amount, inv.finePercentPerDay, k)
  {
    OverdueFineAdditive(inv.amount, inv.finePercentPerDay, today - inv.dueDate, k);
  }

  /** A new invoice carries the fine its creator asked for: none until the
      due date has passed, then the given rate's fine for the days since;
      without a rate it never draws a fine. */
  lemma NewInvoiceFine(student: nat, amount: real, due: Date, reference: string, rate: Option<real>, today: Date)
    ensures CalculateFine(NewInvoice(student, amount, due, reference, rate), today)
            == if due < today && rate.Some? then OverdueFine(amount, rate.value, today - due) else 0.0
  {
  }

  /** An update never changes whether an invoice is paid, so a paid invoice
      still draws no fine; an unpaid one draws the fine of its new amount,
      due date and rate. */
  lemma EditedInvoiceFine(inv: Invoice, student: Option<nat>, amount: Option<real>, due: Option<Date>,
                          reference: Option<string>, rate: Option<real>, today: Date)
    ensures var e := EditedInvoice(inv, student, amount, due, reference, rate);
            CalculateFine(e, today)
            == if inv.isPaid || e.dueDate >= today then 0.0 else OverdueFine(e.amount, e.finePercentPerDay, today - e.dueDate)
    ensures inv.isPaid ==> CalculateFine(EditedInvoice(inv, student, amount, due, reference, rate), today) == 0.0
  {
  }

  // ---------------------------------------------------------------------
  // The fine sweep and the notification selections.
  // ---------------------------------------------------------------------

  /** The invoices `apply_overdue_fines` writes: overdue ones whose fine is
      positive. */
  predicate IsFined(inv: Invoice, today: Date)
  {
    IsOverdue(inv, today) && CalculateFine(inv, today) > 0.0
  }

  /** One invoice after the sweep: a positive fine overwrites the stored one
      and marks it applied; anything else is left alone. */
  function SweptInvoice(inv: Invoice, today: Date): (inv': Invoice)
    ensures IsFined(inv, today) ==> inv' == inv.(fineAmount := CalculateFine(inv, today), fineApplied := true)
    ensures !IsFined(inv, today) ==> inv' == inv
  {
    if IsFined(inv, today) then inv.(fineAmount := CalculateFine(inv, today), fineApplied := true) else inv
  }

  /** The invoice table after a sweep. */
  function Sweep(invs: seq<Invoice>, today: Date): (invs': seq<Invoice>)
    ensures |invs'| == |invs|
    ensures forall i :: 0 <= i < |invs| ==> invs'[i] == SweptInvoice(invs[i], today)
  {
    seq(|invs|, i requires 0 <= i < |invs| => SweptInvoice(invs[i], today))
  }

  /** The fine is overwritten, not added to: a second sweep on the same day
      changes nothing; paid invoices are never touched. */
  lemma SweepIdempotent(invs: seq<Invoice>, today: Date)
    ensures Sweep(Sweep(invs, today), today) == Sweep(invs, today)
    ensures forall i :: 0 <= i < |invs| && invs[i].isPaid ==> Sweep(invs, today)[i] == invs[i]
  {
    var once := Sweep(invs, today);
    assert forall i :: 0 <= i < |invs| ==> SweptInvoice(once[i], today) == once[i];
  }

  /** The ids `apply_overdue_fines` fines. */
  function FinedIds(invs: seq<Invoice>, today: Date): (s: set<nat>)
    ensures forall i :: i in s <==> 0 <= i < |invs| && IsFined(invs[i], today)
  {
    set i: nat | i < |invs| && IsFined(invs[i], today)
  }

  /** `send_due_date_reminders`: unpaid invoices due exactly `daysBefore`
      days from today. */
  function ReminderIds(invs: seq<Invoice>, today: Date, daysBefore: nat): (s: set<nat>)
    ensures forall i :: i in s <==> 0 <= i < |invs| && !invs[i].isPaid && invs[i].dueDate == today + daysBefore
  {
    set i: nat | i < |invs| && !invs[i].isPaid && invs[i].dueDate == today + daysBefore
  }

  /** `send_overdue_alerts`: the sweep's filter. */
  function AlertIds(invs: seq<Invoice>, today: Date): (s: set<nat>)
    ensures forall i :: i in s <==> 0 <= i < |invs| && IsOverdue(invs[i], today)
  {
    set i: nat | i < |invs| && IsOverdue(invs[i], today)
  }

  /** Every fined invoice was alerted about; an invoice reminded of today is
      never alerted about the same day. */
  lemma FinedAreAlerted(invs: seq<Invoice>, today: Date, daysBefore: nat)
    ensures FinedIds(invs, today) <= AlertIds(invs, today)
    ensures ReminderIds(invs, today, daysBefore) * AlertIds(invs, today) == {}
  {
  }

  // ---------------------------------------------------------------------
  // The overdue report.
  // ---------------------------------------------------------------------

  /** `OverdueInvoicesReportView` as written: its filter compares the due
      date with itself. */
  function OverdueReportAsWritten(invs: seq<Invoice>): (s: set<nat>)
    ensures forall i :: i in s <==> 0 <= i < |invs| && !invs[i].isPaid && invs[i].dueDate < invs[i].dueDate
  {
    set i: nat | i < |invs| && !invs[i].isPaid && invs[i].dueDate < invs[i].dueDate
  }

  /** The report as written is empty whatever is stored, even when an
      invoice is long overdue. */
  lemma OverdueReportAlwaysEmpty(invs: seq<Invoice>, today: Date)
    ensures OverdueReportAsWritten(invs) == {}
    ensures var late := [NewInvoice(1, 100.0, today - 30, "INV-1", None)];
            0 in AlertIds(late, today) && OverdueReportAsWritten(late) == {}
  {
    var late := [NewInvoice(1, 100.0, today - 30, "INV-1", None)];
    assert IsOverdue(late[0], today);
  }

  /** The report as evidently intended: unpaid invoices due before today. */
  function OverdueReport(invs: seq<Invoice>, today: Date): (s: set<nat>)
    ensures forall i :: i in s <==> 0 <= i < |invs| && !invs[i].isPaid && invs[i].dueDate < today
  {
    set i: nat | i < |invs| && !invs[i].isPaid && invs[i].dueDate < today
  }

  /** The corrected report lists exactly the invoices the alerts go to, and
      so every invoice the sweep fines. */
  lemma OverdueReportMatchesSweep(invs: seq<Invoice>, today: Date)
    ensures OverdueReport(invs, today) == AlertIds(invs, today)
    ensures FinedIds(invs, today) <= OverdueReport(invs, today)
  {
  }

  // ---------------------------------------------------------------------
  // Payments and balances.
  // ---------------------------------------------------------------------

  /** The sum of an invoice's payments. */
  function PaidFor(ps: seq<InvoicePayment>, invoice: nat): real
    decreases |ps|
  {
    if |ps| == 0 then 0.0
    else PaidFor(ps[..|ps| - 1], invoice) + (if ps[|ps| - 1].invoice == invoice then ps[|ps| - 1].amount else 0.0)
  }

  lemma PaidForAppend(ps: seq<InvoicePayment>, p: InvoicePayment, invoice: nat)
    ensures PaidFor(ps + [p], invoice) == PaidFor(ps, invoice) + (if p.invoice == invoice then p.amount else 0.0)
  {
    assert (ps + [p])[..|ps|] == ps;
  }

  /** The invoice after a payment has been stored, given all its payments:
      paid, at the time of this payment, once they cover the amount (fines
      not counted); otherwise unchanged. */
  function InvoiceAfterPayment(inv: Invoice, paid: real, at: Instant): (inv': Invoice)
    ensures paid >= inv.amount ==> inv' == inv.(isPaid := true, paidAt := Some(at))
    ensures paid < inv.amount ==> inv' == inv
    ensures inv.isPaid ==> inv'.isPaid
  {
    if paid >= inv.amount then inv.(isPaid := true, paidAt := Some(at)) else inv
  }

  /** Sum of the amounts of the invoices of a group of students, over the
      first `n` invoices. */
  function AmountOf(invs: seq<Invoice>, group: set<nat>, n: nat): real
    requires n <= |invs|
    decreases n
  {
    if n == 0 then 0.0
    else AmountOf(invs, group, n - 1) + (if invs[n - 1].student in group then invs[n - 1].amount else 0.0)
  }

  /** Sum of the stored fines of the invoices of a group, over the first `n`. */
  function FineOf(invs: seq<Invoice>, group: set<nat>, n: nat): real
    requires n <= |invs|
    decreases n
  {
    if n == 0 then 0.0
    else FineOf(invs, group, n - 1) + (if invs[n - 1].student in group then invs[n - 1].fineAmount else 0.0)
  }

  /** Sum of the payments against the invoices of a group, over the first
      `n`. */
  function PaidOf(invs: seq<Invoice>, ps: seq<InvoicePayment>, group: set<nat>, n: nat): real
    requires n <= |invs|
    decreases n
  {
    if n == 0 then 0.0
    else PaidOf(invs, ps, group, n - 1) + (if invs[n - 1].student in group then PaidFor(ps, n - 1) else 0.0)
  }

  /** Invoiced amounts plus fines less payments. */
  function Outstanding(invs: seq<Invoice>, ps: seq<InvoicePayment>, group: set<nat>): (b: real)
    ensures b == AmountOf(invs, group, |invs|) + FineOf(invs, group, |invs|) - PaidOf(invs, ps, group, |invs|)
  {
    AmountOf(invs, group, |invs|) + FineOf(invs, group, |invs|) - PaidOf(invs, ps, group, |invs|)
  }

  /** A stored payment lowers the outstanding balance of its invoice's
      group by exactly its amount and leaves every other group's alone. */
  lemma {:induction false} PaidOfAppend(invs: seq<Invoice>, ps: seq<InvoicePayment>, p: InvoicePayment, group: set<nat>, n: nat)
    requires n <= |invs|
    ensures PaidOf(invs, ps + [p], group, n)
            == PaidOf(invs, ps, group, n) + (if p.invoice < n && invs[p.invoice].student in group then p.amount else 0.0)
    decreases n
  {
    if n > 0 {
      PaidOfAppend(invs, ps, p, group, n - 1);
      PaidForAppend(ps, p, n - 1);
    }
  }

  lemma PaymentLowersOutstanding(invs: seq<Invoice>, ps: seq<InvoicePayment>, p: InvoicePayment, group: set<nat>)
    requires p.invoice < |invs|
    ensures invs[p.invoice].student in group ==> Outstanding(invs, ps + [p], group) == Outstanding(invs, ps, group) - p.amount
    ensures invs[p.invoice].student !in group ==> Outstanding(invs, ps + [p], group) == Outstanding(invs, ps, group)
  {
    PaidOfAppend(invs, ps, p, group, |invs|);
  }

  datatype FeeReport = FeeReport(totalInvoiced: real, totalFines: real, totalPaid: real, outstandingBalance: real, invoiceCount: nat)

  /** Number of invoices of a group, over the first `n`. */
  function CountOf(invs: seq<Invoice>, group: set<nat>, n: nat): nat
    requires n <= |invs|
    decreases n
  {
    if n == 0 then 0 else CountOf(invs, group, n - 1) + (if invs[n - 1].student in group then 1 else 0)
  }

  /** The students of a batch. */
  function BatchStudents(studentBatch: map<nat, nat>, batch: nat): (s: set<nat>)
    ensures forall x :: x in s <==> x in studentBatch && studentBatch[x] == batch
  {
    set x | x in studentBatch && studentBatch[x] == batch
  }

  /** `reference_number` is unique. */
  predicate ReferencesUnique(invs: seq<Invoice>)
  {
    forall i, j :: 0 <= i < |invs| && 0 <= j < |invs| && i != j ==> invs[i].reference != invs[j].reference
  }

  /** Some invoice other than row `except` already has `reference`. */
  predicate ReferenceTaken(invs: seq<Invoice>, reference: string, except: int)
  {
    exists j :: 0 <= j < |invs| && j != except && invs[j].reference == reference
  }

  /** The serializer's uniqueness test is exactly what keeps the references
      unique: writing `inv` at row `id` (or appending it, when `id` is the
      length) leaves them unique if and only if no other row has its
      reference. */
  lemma ReferenceCheck(invs: seq<Invoice>, id: nat, inv: Invoice)
    requires ReferencesUnique(invs) && id <= |invs|
    ensures var invs' := if id == |invs| then invs + [inv] else invs[id := inv];
            ReferencesUnique(invs') <==> !ReferenceTaken(invs, inv.reference, id)
  {
    var invs' := if id == |invs| then invs + [inv] else invs[id := inv];
    if ReferenceTaken(invs, inv.reference, id) {
      var j :| 0 <= j < |invs| && j != id && invs[j].reference == inv.reference;
      assert invs'[j].reference == invs'[id].reference;
    }
  }

  class InvoicesDb {
    var invoices: seq<Invoice>
    var payments: seq<InvoicePayment>
    /** Each student's batch; its keys are the stored students. */
    var studentBatch: map<nat, nat>
    var batches: set<nat>

    ghost predicate Valid()
      reads this
    {
      (forall i :: 0 <= i < |payments| ==> payments[i].invoice < |invoices|)
      && (forall i :: 0 <= i < |invoices| ==> invoices[i].student in studentBatch)
      && ReferencesUnique(invoices)
    }

    constructor(students: map<nat, nat>, batchIds: set<nat>)
      ensures Valid()
      ensures invoices == [] && payments == [] && studentBatch == students && batches == batchIds
    {
      invoices := [];
      payments := [];
      studentBatch := students;
      batches := batchIds;
    }

    /** `InvoiceListCreateView.perform_create`; the student is notified.
        The serializer refuses an unknown student first and then a
        reference number already in use. */
    method CreateInvoice(student: nat, amount: real, due: Date, reference: string, rate: Option<real>) returns (resp: Response, id: nat)
      requires Valid()
      modifies this
      ensures Valid()
      ensures payments == old(payments) && studentBatch == old(studentBatch) && batches == old(batches)
      ensures student !in old(studentBatch) ==> resp == BadRequest(InvalidInvoiceMsg) && invoices == old(invoices)
      ensures student in old(studentBatch) && ReferenceTaken(old(invoices), reference, -1) ==>
                resp == BadRequest(DuplicateReferenceMsg) && invoices == old(invoices)
      ensures student in old(studentBatch) && !ReferenceTaken(old(invoices), reference, -1) ==>
                resp == Created && id == |old(invoices)| && invoices == old(invoices) + [NewInvoice(student, amount, due, reference, rate)]
    {
      id := |invoices|;
      if student !in studentBatch {
        return BadRequest(InvalidInvoiceMsg), id;
      }
      if ReferenceTaken(invoices, reference, -1) {
        return BadRequest(DuplicateReferenceMsg), id;
      }
      var inv := NewInvoice(student, amount, due, reference, rate);
      ReferenceCheck(invoices, id, inv);
      invoices := invoices + [inv];
      resp := Created;
    }

    /** `InvoiceDetailView` on PUT or PATCH: the fields given are written,
        a student that does not exist is refused, then a reference number
        another invoice already has (the invoice's own is no clash);
        payment state and the stored fine are kept. */
    method UpdateInvoice(id: nat, student: Option<nat>, amount: Option<real>, due: Option<Date>,
                         reference: Option<string>, rate: Option<real>) returns (resp: Response)
      requires Valid()
      modifies this
      ensures Valid()
      ensures payments == old(payments) && studentBatch == old(studentBatch) && batches == old(batches)
      ensures id >= |old(invoices)| ==> resp == NotFound(InvoiceNotFoundMsg) && invoices == old(invoices)
      ensures id < |old(invoices)| && student.Some? && student.value !in old(studentBatch) ==>
                resp == BadRequest(InvalidInvoiceMsg) && invoices == old(invoices)
      ensures id < |old(invoices)| && (student.None? || student.value in old(studentBatch))
              && reference.Some? && ReferenceTaken(old(invoices), reference.value, id) ==>
                resp == BadRequest(DuplicateReferenceMsg) && invoices == old(invoices)
      ensures id < |old(invoices)| && (student.None? || student.value in old(studentBatch))
              && (reference.None? || !ReferenceTaken(old(invoices), reference.value, id)) ==>
                resp == Ok && invoices == old(invoices)[id := EditedInvoice(old(invoices)[id], student, amount, due, reference, rate)]
    {
      if id >= |invoices| {
        return NotFound(InvoiceNotFoundMsg);
      }
      if student.Some? && student.value !in studentBatch {
        return BadRequest(InvalidInvoiceMsg);
      }
      if reference.Some? && ReferenceTaken(invoices, reference.value, id) {
        return BadRequest(DuplicateReferenceMsg);
      }
      var inv := EditedInvoice(invoices[id], student, amount, due, reference, rate);
      ReferenceCheck(invoices, id, inv);
      invoices := invoices[id := inv];
      resp := Ok;
    }

    /** `apply_overdue_fines`: walks the overdue invoices and writes each
        positive fine; returns the ids whose student is notified. */
    method ApplyOverdueFines(today: Date) returns (fined: set<nat>)
      requires Valid()
      modifies this
      ensures Valid()
      ensures invoices == Sweep(old(invoices), today)
      ensures fined == FinedIds(old(invoices), today)
      ensures payments == old(payments) && studentBatch == old(studentBatch) && batches == old(batches)
    {
      var invs := invoices;
      var out: seq<Invoice> := [];
      fined := {};
      var i := 0;
      while i < |invs|
        invariant 0 <= i <= |invs|
        invariant out == Sweep(invs[..i], today)
        invariant fined == FinedIds(invs[..i], today)
      {
        var inv := invs[i];
        assert invs[..i + 1] == invs[..i] + [inv];
        if inv.isPaid || !(inv.dueDate < today) {
          out := out + [inv];
        } else {
          var fine := CalculateFine(inv, today);
          if fine > 0.0 {
            out := out + [inv.(fineAmount := fine, fineApplied := true)];
            fined := fined + {i};
          } else {
            out := out + [inv];
          }
        }
        i := i + 1;
      }
      assert invs[..|invs|] == invs;
      invoices := out;
    }

    /** `PaymentCreateView.perform_create`: the payment is stored; once the
        invoice's payments cover its amount it is marked paid at this
        payment's time (again on every later payment). */
    method RecordPayment(p: InvoicePayment) returns (resp: Response)
      requires Valid()
      modifies this
      ensures Valid()
      ensures studentBatch == old(studentBatch) && batches == old(batches)
      ensures p.invoice >= |old(invoices)| ==> resp == BadRequest(InvalidInvoiceMsg) && invoices == old(invoices) && payments == old(payments)
      ensures p.invoice < |old(invoices)| ==>
                resp == Created && payments == old(payments) + [p]
                && invoices == old(invoices)[p.invoice := InvoiceAfterPayment(old(invoices)[p.invoice], PaidFor(old(payments), p.invoice) + p.amount, p.createdAt)]
    {
      if p.invoice >= |invoices| {
        return BadRequest(InvalidInvoiceMsg);
      }
      PaidForAppend(payments, p, p.invoice);
      payments := payments + [p];
      var total := PaidFor(payments, p.invoice);
      invoices := invoices[p.invoice := InvoiceAfterPayment(invoices[p.invoice], total, p.createdAt)];
      resp := Created;
    }

    /** `StudentFeeReportView.get`: an unknown student raises. */
    function StudentReport(student: nat): (r: Result<FeeReport>)
      reads this
      ensures student !in studentBatch ==> r == Failure(ServerError(DoesNotExistMsg))
      ensures student in studentBatch ==>
                r.Success? && r.value.outstandingBalance == Outstanding(invoices, payments, {student})
                && r.value.totalPaid == PaidOf(invoices, payments, {student}, |invoices|)
    {
      if student !in studentBatch then Failure(ServerError(DoesNotExistMsg))
      else
        var amount := AmountOf(invoices, {student}, |invoices|);
        var fine := FineOf(invoices, {student}, |invoices|);
        var paid := PaidOf(invoices, payments, {student}, |invoices|);
        Success(FeeReport(amount, fine, paid, amount + fine - paid, CountOf(invoices, {student}, |invoices|)))
    }

    /** `BatchFeeReportView.get`: sums the payments invoice by invoice over
        the batch; an unknown batch raises. */
    method BatchReport(batch: nat) returns (r: Result<FeeReport>)
      requires Valid()
      ensures batch !in batches ==> r == Failure(ServerError(DoesNotExistMsg))
      ensures batch in batches ==>
                var group := BatchStudents(studentBatch, batch);
                r.Success? && r.value.outstandingBalance == Outstanding(invoices, payments, group)
                && r.value.totalPaid == PaidOf(invoices, payments, group, |invoices|)
                && r.value.invoiceCount == CountOf(invoices, group, |invoices|)
    {
      if batch !in batches {
        return Failure(ServerError(DoesNotExistMsg));
      }
      var group := BatchStudents(studentBatch, batch);
      var amount := AmountOf(invoices, group, |invoices|);
      var fine := FineOf(invoices, group, |invoices|);
      var paid := 0.0;
      var i := 0;
      while i < |invoices|
        invariant 0 <= i <= |invoices|
        invariant paid == PaidOf(invoices, payments, group, i)
      {
        if invoices[i].student in group {
          paid := paid + PaidFor(payments, i);
        }
        i := i + 1;
      }
      r := Success(FeeReport(amount, fine, paid, amount + fine - paid, CountOf(invoices, group, |invoices|)));
    }
  }
}
