/** The records of the library app (book, copy, borrowing, reservation,
    fine, library card), their field defaults, and the derived properties the
    models compute: overdue state, days overdue, card expiry and the expiry
    label the admin list shows. Money is in integer cents. */
module LibraryModels {
  import opened Common

  /** Loan length used when a borrowing is saved without a due date, and the
      extension a renewal grants. */
  const LoanDays: int := 14
  /** How long a reservation is held when saved without an expiry. */
  const ReservationHoldSeconds: int := 24 * 3600
  /** Validity of a library card saved without an expiry. */
  const CardValidityDays: int := 365
  const DefaultMaxRenewals: nat := 2
  const DefaultMaxBooks: nat := 5
  const DefaultMaxDays: nat := 14
  /** Cards expiring within this many days are flagged in the admin list. */
  const ExpiryWarningDays: int := 30

  datatype BorrowStatus = Active | Returned | Overdue | Lost | Damaged

  datatype CopyCondition =
    | CopyAvailable | CopyBorrowed | CopyReserved | CopyMaintenance | CopyLost | CopyDamaged

  datatype ReservationStatus = Pending | Fulfilled | Cancelled | Expired

  datatype CardStatus = CardActive | CardSuspended | CardExpired | CardCancelled

  datatype FineType = OverdueFine | LostBook | DamagedBook | OtherFine

  /** The capacity counters of a book (`PositiveIntegerField`s, so never
      negative in the database). */
  datatype Book = Book(totalCopies: nat, availableCopies: nat)

  datatype BookCopy = BookCopy(book: nat, copyNumber: string, condition: CopyCondition)

  datatype Borrowing = Borrowing(
    student: nat,
    copy: nat,
    borrowedDate: Date,
    dueDate: Date,
    returnedDate: Option<Date>,
    status: BorrowStatus,
    renewedCount: nat,
    maxRenewals: nat,
    fineCents: int,
    issuedBy: nat,
    returnedTo: Option<nat>)

  datatype Reservation = Reservation(
    student: nat,
    book: nat,
    reservationTime: Instant,
    expiryTime: Instant,
    status: ReservationStatus)

  datatype Fine = Fine(
    borrowing: nat,
    fineType: FineType,
    amountCents: int,
    isPaid: bool,
    paidDate: Option<Date>,
    paymentMethod: string)

  datatype LibraryCard = LibraryCard(
    student: nat,
    cardNumber: string,
    issueDate: Date,
    expiryDate: Date,
    status: CardStatus,
    maxBooks: nat,
    maxDays: nat)

  // ---------------------------------------------------------------------
  // Book.save: editing total_copies shifts available_copies by the delta.
  // ---------------------------------------------------------------------

  /** The `available_copies` that `Book.save` writes: on an edit of a stored
      book whose total changed it is the submitted value shifted by the change
      of the total; on creation (no stored row) it is the submitted value. The
      result may be negative, which the database then refuses. */
  function AvailableOnSave(stored: Option<Book>, edited: Book): (r: int)
    ensures stored.None? ==> r == edited.availableCopies
    ensures stored.Some? ==> r - edited.availableCopies == edited.totalCopies - stored.value.totalCopies
  {
    if stored.Some? && stored.value.totalCopies != edited.totalCopies then
      edited.availableCopies + (edited.totalCopies - stored.value.totalCopies)
    else
      edited.availableCopies
  }

  /** Editing only the total of a stored book keeps the number of copies that
      are out (total minus available) unchanged: availability is shifted, never
      recomputed. */
  lemma TotalEditKeepsCopiesOut(stored: Book, newTotal: nat)
    ensures var r := AvailableOnSave(Some(stored), stored.(totalCopies := newTotal));
            newTotal - r == stored.totalCopies - stored.availableCopies
            && r - stored.availableCopies == newTotal - stored.totalCopies
  {
  }

  // ---------------------------------------------------------------------
  // Borrowing: defaults, save hook, overdue state.
  // ---------------------------------------------------------------------

  /** The due date `Borrowing.save` stores: the submitted one, or two weeks
      from today when none was given. */
  function DueDateOnSave(submitted: Option<Date>, today: Date): (d: Date)
    ensures submitted.Some? ==> d == submitted.value
    ensures submitted.None? ==> d - today == LoanDays
  {
    match submitted
    case Some(due) => due
    case None => today + LoanDays
  }

  /** The condition `Borrowing.save` gives the related copy object (in memory
      only; the copy row is not saved): borrowed for an active loan, available
      for a returned one, untouched otherwise. */
  function ConditionOnSave(status: BorrowStatus, current: CopyCondition): (c: CopyCondition)
    ensures status == Active ==> c == CopyBorrowed
    ensures status == Returned ==> c == CopyAvailable
    ensures status != Active && status != Returned ==> c == current
  {
    if status == Active then CopyBorrowed
    else if status == Returned then CopyAvailable
    else current
  }

  /** A borrowing as created with the model defaults: active, never renewed,
      at most two renewals, no fine, due as `DueDateOnSave` decides. */
  function NewBorrowing(student: nat, copy: nat, issuedBy: nat, today: Date, submittedDue: Option<Date>): (b: Borrowing)
    ensures b.status == Active && b.renewedCount == 0 && b.maxRenewals == DefaultMaxRenewals
    ensures b.fineCents == 0 && b.returnedDate.None? && b.returnedTo.None?
    ensures b.borrowedDate == today && b.dueDate == DueDateOnSave(submittedDue, today)
  {
    Borrowing(student, copy, today, DueDateOnSave(submittedDue, today), None, Active,
              0, DefaultMaxRenewals, 0, issuedBy, None)
  }

  /** `Borrowing.is_overdue`. */
  predicate IsOverdue(b: Borrowing, today: Date)
  {
    b.status == Active && b.dueDate < today
  }

  /** `Borrowing.days_overdue`: whole days past the due date while the loan is
      overdue, zero otherwise; positive exactly when the loan is overdue. */
  function DaysOverdue(b: Borrowing, today: Date): (d: nat)
    ensures d > 0 <==> IsOverdue(b, today)
    ensures IsOverdue(b, today) ==> d == today - b.dueDate
    ensures b.status != Active ==> d == 0
  {
    if IsOverdue(b, today) then today - b.dueDate else 0
  }

  /** An overdue loan stays overdue as days pass, one more day overdue per
      day; a renewal moves the day it becomes overdue two weeks later. */
  lemma LoanOverdueLifecycle(b: Borrowing, today: Date, later: Date)
    requires today <= later
    ensures IsOverdue(b, today) ==> IsOverdue(b, later) && DaysOverdue(b, later) == DaysOverdue(b, today) + (later - today)
    ensures Renew(b).Success? ==> (IsOverdue(Renew(b).value, today) <==> b.dueDate + 14 < today)
  {
  }

  // ---------------------------------------------------------------------
  // Reservation and LibraryCard save hooks and expiry.
  // ---------------------------------------------------------------------

  /** The expiry `Reservation.save` stores: the submitted one, or 24 hours
      from now. */
  function ReservationExpiryOnSave(submitted: Option<Instant>, now: Instant): (e: Instant)
    ensures submitted.Some? ==> e == submitted.value
    ensures submitted.None? ==> e - now == 86400
  {
    match submitted
    case Some(t) => t
    case None => now + ReservationHoldSeconds
  }

  /** The expiry `LibraryCard.save` stores: the submitted one, or a year
      (365 days) from today. */
  function CardExpiryOnSave(submitted: Option<Date>, today: Date): (e: Date)
    ensures submitted.Some? ==> e == submitted.value
    ensures submitted.None? ==> e - today == 365
  {
    match submitted
    case Some(d) => d
    case None => today + CardValidityDays
  }

  /** A card as created with the model defaults: active, five books, fourteen
      days per loan. */
  function NewCard(student: nat, cardNumber: string, today: Date, submittedExpiry: Option<Date>): (c: LibraryCard)
    ensures c.status == CardActive && c.maxBooks == 5 && c.maxDays == 14
    ensures c.issueDate == today && c.expiryDate == CardExpiryOnSave(submittedExpiry, today)
    ensures c.student == student && c.cardNumber == cardNumber
  {
    LibraryCard(student, cardNumber, today, CardExpiryOnSave(submittedExpiry, today),
                CardActive, DefaultMaxBooks, DefaultMaxDays)
  }

  /** `LibraryCard.is_expired`. */
  predicate CardIsExpired(c: LibraryCard, today: Date)
  {
    c.expiryDate < today
  }

  /** `LibraryCard.days_until_expiry`: negative exactly when the card has
      expired. */
  function DaysUntilExpiry(c: LibraryCard, today: Date): (d: int)
    ensures d < 0 <==> CardIsExpired(c, today)
    ensures d + today == c.expiryDate
  {
    c.expiryDate - today
  }

  /** An expired card stays expired; a card is valid up to and including its
      expiry date. */
  lemma CardExpiryIsPermanent(c: LibraryCard, today: Date, later: Date)
    requires today <= later
    ensures CardIsExpired(c, today) ==> CardIsExpired(c, later)
    ensures !CardIsExpired(c, c.expiryDate) && CardIsExpired(c, c.expiryDate + 1)
  {
  }

  /** A freshly issued card without an explicit expiry is valid for the
      whole next year and expires on day 366. */
  lemma {:induction false} NewCardValidForAYear(student: nat, number: string, today: Date, later: Date)
    ensures var c := NewCard(student, number, today, None);
            (today <= later <= today + 365 ==> !CardIsExpired(c, later))
            && (later > today + 365 ==> CardIsExpired(c, later))
  {
  }

  /** What the admin list shows in its "Expiry Status" column. */
  datatype ExpiryLabel = ExpiredLabel | ExpiresIn(days: int) | ActiveLabel

  /** `LibraryCardAdmin.is_expired_display`: expired cards, cards expiring
      within thirty days (counting today), and the rest. */
  function ExpiryDisplay(c: LibraryCard, today: Date): (l: ExpiryLabel)
    ensures l == ExpiredLabel <==> DaysUntilExpiry(c, today) < 0
    ensures l.ExpiresIn? <==> 0 <= DaysUntilExpiry(c, today) <= 30
    ensures l.ExpiresIn? ==> l.days == DaysUntilExpiry(c, today)
    ensures l == ActiveLabel <==> DaysUntilExpiry(c, today) > 30
  {
    if CardIsExpired(c, today) then ExpiredLabel
    else if DaysUntilExpiry(c, today) <= ExpiryWarningDays then ExpiresIn(DaysUntilExpiry(c, today))
    else ActiveLabel
  }

  // ---------------------------------------------------------------------
  // The three record actions of the library API.
  // ---------------------------------------------------------------------

  const NotBorrowedMsg: string := "Book is not currently borrowed"
  const MaxRenewalsMsg: string := "Maximum renewals reached"
  const FinePaidMsg: string := "Fine is already paid"
  const DefaultPaymentMethod: string := "cash"

  /** `renew_book`: only an active loan with renewals left is renewed; the
      renewal pushes the due date back two weeks and counts itself, whether or
      not the loan is already overdue. */
  function Renew(b: Borrowing): (r: Result<Borrowing>)
    ensures b.status != Active ==> r == Failure(BadRequest(NotBorrowedMsg))
    ensures b.status == Active && b.renewedCount >= b.maxRenewals ==> r == Failure(BadRequest(MaxRenewalsMsg))
    ensures r.Success? <==> b.status == Active && b.renewedCount < b.maxRenewals
    ensures r.Success? ==> (r.value.dueDate == b.dueDate + 14
                        && r.value.renewedCount == b.renewedCount + 1
                        && r.value.(dueDate := b.dueDate, renewedCount := b.renewedCount) == b)
  {
    if b.status != Active then Failure(BadRequest(NotBorrowedMsg))
    else if b.renewedCount >= b.maxRenewals then Failure(BadRequest(MaxRenewalsMsg))
    else Success(b.(dueDate := b.dueDate + LoanDays, renewedCount := b.renewedCount + 1))
  }

  /** `k` renewal requests in a row, stopping at the first refusal. */
  function RenewTimes(b: Borrowing, k: nat): (r: Result<Borrowing>)
    ensures r.Success? <==> k == 0 || (b.status == Active && b.renewedCount + k <= b.maxRenewals)
    ensures r.Success? ==> r.value.renewedCount == b.renewedCount + k && r.value.dueDate == b.dueDate + 14 * k
                           && r.value.status == b.status && r.value.maxRenewals == b.maxRenewals
    ensures r.Failure? ==> r.error == BadRequest(NotBorrowedMsg) || r.error == BadRequest(MaxRenewalsMsg)
    decreases k
  {
    if k == 0 then Success(b)
    else match Renew(b)
      case Failure(e) => Failure(e)
      case Success(b') => RenewTimes(b', k - 1)
  }

  /** A new loan can be renewed exactly `max_renewals` times: that many
      requests all succeed, and one more is refused. */
  lemma {:induction false} RenewalLimitExact(b: Borrowing)
    requires b.status == Active && b.renewedCount == 0
    ensures RenewTimes(b, b.maxRenewals).Success?
    ensures RenewTimes(b, b.maxRenewals).value.dueDate == b.dueDate + 14 * b.maxRenewals
    ensures RenewTimes(b, b.maxRenewals + 1) == Failure(BadRequest(MaxRenewalsMsg))
  {
    RenewTimesAfter(b, b.maxRenewals);
  }

  /** Doing `k` renewals and then one more is the same as doing `k + 1`. */
  lemma {:induction false} RenewTimesAfter(b: Borrowing, k: nat)
    requires RenewTimes(b, k).Success?
    ensures RenewTimes(b, k + 1) == Renew(RenewTimes(b, k).value)
    decreases k
  {
    if k > 0 {
      RenewTimesAfter(Renew(b).value, k - 1);
    }
  }

  /** `return_book` as written: only an active loan is returned; the record
      becomes returned today, received by `user`. The overdue fine branch of
      the view reads `is_overdue` after the status has been set to returned,
      so it never fires and the fine is left as it was. */
  function Return(b: Borrowing, today: Date, user: nat): (r: Result<Borrowing>)
    ensures r.Failure? <==> b.status != Active
    ensures r.Failure? ==> r.error == BadRequest(NotBorrowedMsg)
    ensures r.Success? ==> (r.value.status == Returned && r.value.returnedDate == Some(today)
                        && r.value.returnedTo == Some(user)
                        && r.value.(status := b.status, returnedDate := b.returnedDate, returnedTo := b.returnedTo) == b)
  {
    if b.status != Active then Failure(BadRequest(NotBorrowedMsg))
    else
      var returned := b.(status := Returned, returnedDate := Some(today), returnedTo := Some(user));
      if IsOverdue(returned, today) then
        Success(returned.(fineCents := DaysOverdue(returned, today) * 100))
      else
        Success(returned)
  }

  /** A returned loan cannot be returned again. */
  lemma SecondReturnRejected(b: Borrowing, today: Date, later: Date, user: nat, user': nat)
    requires Return(b, today, user).Success?
    ensures Return(Return(b, today, user).value, later, user') == Failure(BadRequest(NotBorrowedMsg))
  {
  }

  /** The intended return: the fine of one unit (100 cents) per day is taken
      from the loan as it stood before the status change. */
  function ReturnWithFine(b: Borrowing, today: Date, user: nat): (r: Result<Borrowing>)
    ensures r.Failure? <==> b.status != Active
    ensures r.Success? ==> (r.value.status == Returned && r.value.returnedDate == Some(today)
                        && r.value.returnedTo == Some(user))
    ensures r.Success? && IsOverdue(b, today) ==> r.value.fineCents == 100 * (today - b.dueDate)
    ensures r.Success? && !IsOverdue(b, today) ==> r.value.fineCents == b.fineCents
  {
    if b.status != Active then Failure(BadRequest(NotBorrowedMsg))
    else
      var fine := if IsOverdue(b, today) then DaysOverdue(b, today) * 100 else b.fineCents;
      Success(b.(status := Returned, returnedDate := Some(today), returnedTo := Some(user), fineCents := fine))
  }

  /** The as-written return and the intended one differ on every overdue
      loan: a loan due on day 10 returned on day 13 keeps its zero fine
      instead of 300 cents. */
  lemma {:induction false} ReturnFineDiscrepancy()
    ensures var b := NewBorrowing(1, 1, 1, 0, Some(10));
            Return(b, 13, 2).value.fineCents == 0
            && ReturnWithFine(b, 13, 2).value.fineCents == 300
  {
    var b := NewBorrowing(1, 1, 1, 0, Some(10));
    assert IsOverdue(b, 13);
    assert DaysOverdue(b, 13) == 3;
  }

  /** FineViewSet `mark_paid`: a fine is paid once; paying records today's
      date and the given method, cash when none is given. */
  function PayFine(f: Fine, today: Date, via: Option<string>): (r: Result<Fine>)
    ensures r.Failure? <==> f.isPaid
    ensures r.Failure? ==> r.error == BadRequest(FinePaidMsg)
    ensures r.Success? ==> (r.value.isPaid && r.value.paidDate == Some(today)
                        && r.value.amountCents == f.amountCents && r.value.borrowing == f.borrowing
                        && r.value.paymentMethod == (if via.Some? then via.value else "cash"))
    ensures r.Success? ==> r.value == f.(isPaid := true, paidDate := Some(today),
                                         paymentMethod := r.value.paymentMethod)
  {
    if f.isPaid then Failure(BadRequest(FinePaidMsg))
    else
      Success(f.(isPaid := true, paidDate := Some(today),
                 paymentMethod := if via.Some? then via.value else DefaultPaymentMethod))
  }

  /** A fine cannot be paid twice. */
  lemma PayFineOnce(f: Fine, today: Date, later: Date, m: Option<string>, m': Option<string>)
    requires PayFine(f, today, m).Success?
    ensures PayFine(PayFine(f, today, m).value, later, m') == Failure(BadRequest(FinePaidMsg))
  {
  }

  // ---------------------------------------------------------------------
  // The admin "mark overdue" action.
  // ---------------------------------------------------------------------

  /** The ids among the admin's selection that `mark_overdue` updates. */
  function OverdueSelection(m: map<nat, Borrowing>, selected: set<nat>, today: Date): (s: set<nat>)
    ensures forall id :: id in s <==> id in m && id in selected && IsOverdue(m[id], today)
  {
    set id | id in m && id in selected && IsOverdue(m[id], today)
  }

  /** The borrowing table after `mark_overdue`: selected active loans past
      their due date become overdue; every other row is unchanged. */
  function MarkOverdueTable(m: map<nat, Borrowing>, selected: set<nat>, today: Date): (m': map<nat, Borrowing>)
    ensures m'.Keys == m.Keys
    ensures forall id :: id in m ==> (m'[id] != m[id] <==> id in OverdueSelection(m, selected, today))
    ensures forall id :: id in OverdueSelection(m, selected, today) ==> m'[id] == m[id].(status := Overdue)
  {
    map id | id in m :: if id in selected && IsOverdue(m[id], today) then m[id].(status := Overdue) else m[id]
  }

  /** Running the action a second time the same day selects nothing and
      leaves the table as the first run left it. */
  lemma MarkOverdueIdempotent(m: map<nat, Borrowing>, selected: set<nat>, today: Date)
    ensures var m1 := MarkOverdueTable(m, selected, today);
            OverdueSelection(m1, selected, today) == {}
            && MarkOverdueTable(m1, selected, today) == m1
  {
    var m1 := MarkOverdueTable(m, selected, today);
    forall id | id in m1 && id in selected
      ensures !IsOverdue(m1[id], today)
    {
      if IsOverdue(m[id], today) {
        assert m1[id].status == Overdue;
      } else {
        assert m1[id] == m[id];
      }
    }
  }

  /** A loan marked overdue can no longer be renewed or returned through the
      API, since both actions demand an active loan. */
  lemma MarkedOverdueIsStuck(m: map<nat, Borrowing>, selected: set<nat>, today: Date, id: nat, user: nat)
    requires id in OverdueSelection(m, selected, today)
    ensures var b := MarkOverdueTable(m, selected, today)[id];
            Renew(b) == Failure(BadRequest(NotBorrowedMsg))
            && Return(b, today, user) == Failure(BadRequest(NotBorrowedMsg))
  {
  }
}
