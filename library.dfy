/** The library app's tables and the operations that write them: the model
    `save` hooks, the renew / return / pay actions of the API and the admin
    "mark overdue" action. Every operation checks its conditions before its
    single write, so an operation that fails leaves every table as it was. */
module Library {
  import opened Common
  import opened LibraryModels

  const BorrowingNotFound: string := "No Borrowing matches the given query."
  const FineNotFound: string := "No Fine matches the given query."
  const IntegrityMsg: string := "IntegrityError"

  /** Reservations are unique per (student, book, status). */
  predicate ReservationsUnique(m: map<nat, Reservation>)
  {
    forall i, j :: i in m && j in m && i != j ==>
      (m[i].student, m[i].book, m[i].status) != (m[j].student, m[j].book, m[j].status)
  }

  /** Card numbers are unique, and each student holds at most one card. */
  predicate CardsUnique(m: map<nat, LibraryCard>)
  {
    forall i, j :: i in m && j in m && i != j ==>
      m[i].cardNumber != m[j].cardNumber && m[i].student != m[j].student
  }

  class LibraryDb {
    var books: map<nat, Book>
    var copies: map<nat, BookCopy>
    var borrowings: map<nat, Borrowing>
    var reservations: map<nat, Reservation>
    var fines: map<nat, Fine>
    var cards: map<nat, LibraryCard>

    ghost predicate Valid()
      reads this
    {
      ReservationsUnique(reservations) && CardsUnique(cards)
    }

    constructor()
      ensures Valid()
      ensures books == map[] && copies == map[] && borrowings == map[]
      ensures reservations == map[] && fines == map[] && cards == map[]
    {
      books := map[];
      copies := map[];
      borrowings := map[];
      reservations := map[];
      fines := map[];
      cards := map[];
    }

    /** `Book.save`: a new book is stored as given; an edit of a stored book
        whose total changed shifts the submitted availability by the change of
        the total. A shift below zero is refused by the database. */
    method SaveBook(id: nat, edited: Book) returns (resp: Response)
      modifies this
      ensures var avail := AvailableOnSave(if id in old(books) then Some(old(books)[id]) else None, edited);
              (avail >= 0 ==> resp == Ok && books == old(books)[id := edited.(availableCopies := avail)])
              && (avail < 0 ==> resp == ServerError(IntegrityMsg) && books == old(books))
      ensures copies == old(copies) && borrowings == old(borrowings) && reservations == old(reservations)
      ensures fines == old(fines) && cards == old(cards)
    {
      var stored := if id in books then Some(books[id]) else None;
      var avail := AvailableOnSave(stored, edited);
      if avail < 0 {
        return ServerError(IntegrityMsg);
      }
      books := books[id := edited.(availableCopies := avail)];
      resp := Ok;
    }

    /** `Borrowing.save`: stores the borrowing with the due date the hook
        decides and hands back the condition the hook gives the in-memory copy
        object. Neither the copy row nor any book counter is written. */
    method SaveBorrowing(id: nat, b: Borrowing, submittedDue: Option<Date>, today: Date)
      returns (copyCondition: CopyCondition)
      requires b.copy in copies
      modifies this
      ensures borrowings == old(borrowings)[id := b.(dueDate := DueDateOnSave(submittedDue, today))]
      ensures copyCondition == ConditionOnSave(b.status, old(copies)[b.copy].condition)
      ensures copies == old(copies) && books == old(books)
      ensures reservations == old(reservations) && fines == old(fines) && cards == old(cards)
    {
      borrowings := borrowings[id := b.(dueDate := DueDateOnSave(submittedDue, today))];
      copyCondition := ConditionOnSave(b.status, copies[b.copy].condition);
    }

    /** `Reservation.save`: fills in the default expiry, and is refused when
        another reservation already has the same student, book and status. */
    method SaveReservation(id: nat, r: Reservation, submittedExpiry: Option<Instant>, now: Instant)
      returns (resp: Response)
      requires Valid()
      modifies this
      ensures Valid()
      ensures var r' := r.(expiryTime := ReservationExpiryOnSave(submittedExpiry, now));
              var clash := exists j :: j in old(reservations) && j != id
                             && (old(reservations)[j].student, old(reservations)[j].book, old(reservations)[j].status)
                                == (r.student, r.book, r.status);
              (clash ==> resp == ServerError(IntegrityMsg) && reservations == old(reservations))
              && (!clash ==> resp == Ok && reservations == old(reservations)[id := r'])
      ensures books == old(books) && copies == old(copies) && borrowings == old(borrowings)
      ensures fines == old(fines) && cards == old(cards)
    {
      if exists j | j in reservations :: j != id
           && (reservations[j].student, reservations[j].book, reservations[j].status) == (r.student, r.book, r.status) {
        return ServerError(IntegrityMsg);
      }
      reservations := reservations[id := r.(expiryTime := ReservationExpiryOnSave(submittedExpiry, now))];
      resp := Ok;
    }

    /** `LibraryCard.save`: fills in the default expiry, and is refused when
        another card has the same number or belongs to the same student. */
    method SaveCard(id: nat, c: LibraryCard, submittedExpiry: Option<Date>, today: Date)
      returns (resp: Response)
      requires Valid()
      modifies this
      ensures Valid()
      ensures var c' := c.(expiryDate := CardExpiryOnSave(submittedExpiry, today));
              var clash := exists j :: j in old(cards) && j != id
                             && (old(cards)[j].cardNumber == c.cardNumber || old(cards)[j].student == c.student);
              (clash ==> resp == ServerError(IntegrityMsg) && cards == old(cards))
              && (!clash ==> resp == Ok && cards == old(cards)[id := c'])
      ensures books == old(books) && copies == old(copies) && borrowings == old(borrowings)
      ensures reservations == old(reservations) && fines == old(fines)
    {
      if exists j | j in cards :: j != id && (cards[j].cardNumber == c.cardNumber || cards[j].student == c.student) {
        return ServerError(IntegrityMsg);
      }
      cards := cards[id := c.(expiryDate := CardExpiryOnSave(submittedExpiry, today))];
      resp := Ok;
    }

    /** `BorrowingViewSet.renew_book`. */
    method RenewBook(id: nat) returns (resp: Response)
      modifies this
      ensures id !in old(borrowings) ==> resp == NotFound(BorrowingNotFound) && borrowings == old(borrowings)
      ensures id in old(borrowings) && Renew(old(borrowings)[id]).Success? ==>
                resp == Ok && borrowings == old(borrowings)[id := Renew(old(borrowings)[id]).value]
      ensures id in old(borrowings) && Renew(old(borrowings)[id]).Failure? ==>
                resp == Renew(old(borrowings)[id]).error && borrowings == old(borrowings)
      ensures books == old(books) && copies == old(copies) && reservations == old(reservations)
      ensures fines == old(fines) && cards == old(cards)
    {
      if id !in borrowings {
        return NotFound(BorrowingNotFound);
      }
      match Renew(borrowings[id])
      case Failure(e) =>
        resp := e;
      case Success(b) =>
        borrowings := borrowings[id := b];
        resp := Ok;
    }

    /** `BorrowingViewSet.return_book`, by `user` on day `today`. */
    method ReturnBook(id: nat, today: Date, user: nat) returns (resp: Response)
      modifies this
      ensures id !in old(borrowings) ==> resp == NotFound(BorrowingNotFound) && borrowings == old(borrowings)
      ensures id in old(borrowings) && Return(old(borrowings)[id], today, user).Success? ==>
                resp == Ok && borrowings == old(borrowings)[id := Return(old(borrowings)[id], today, user).value]
      ensures id in old(borrowings) && Return(old(borrowings)[id], today, user).Failure? ==>
                resp == Return(old(borrowings)[id], today, user).error && borrowings == old(borrowings)
      ensures books == old(books) && copies == old(copies) && reservations == old(reservations)
      ensures fines == old(fines) && cards == old(cards)
    {
      if id !in borrowings {
        return NotFound(BorrowingNotFound);
      }
      match Return(borrowings[id], today, user)
      case Failure(e) =>
        resp := e;
      case Success(b) =>
        borrowings := borrowings[id := b];
        resp := Ok;
    }

    /** `FineViewSet.mark_paid`. */
    method MarkFinePaid(id: nat, today: Date, via: Option<string>) returns (resp: Response)
      modifies this
      ensures id !in old(fines) ==> resp == NotFound(FineNotFound) && fines == old(fines)
      ensures id in old(fines) && PayFine(old(fines)[id], today, via).Success? ==>
                resp == Ok && fines == old(fines)[id := PayFine(old(fines)[id], today, via).value]
      ensures id in old(fines) && PayFine(old(fines)[id], today, via).Failure? ==>
                resp == PayFine(old(fines)[id], today, via).error && fines == old(fines)
      ensures books == old(books) && copies == old(copies) && borrowings == old(borrowings)
      ensures reservations == old(reservations) && cards == old(cards)
    {
      if id !in fines {
        return NotFound(FineNotFound);
      }
      match PayFine(fines[id], today, via)
      case Failure(e) =>
        resp := e;
      case Success(f) =>
        fines := fines[id := f];
        resp := Ok;
    }

    /** The admin action `mark_overdue` over the selected borrowings; returns
        the number of rows it updated. */
    method MarkOverdue(selected: set<nat>, today: Date) returns (updated: nat)
      modifies this
      ensures borrowings == MarkOverdueTable(old(borrowings), selected, today)
      ensures updated == |OverdueSelection(old(borrowings), selected, today)|
      ensures books == old(books) && copies == old(copies) && reservations == old(reservations)
      ensures fines == old(fines) && cards == old(cards)
    {
      updated := |OverdueSelection(borrowings, selected, today)|;
      borrowings := MarkOverdueTable(borrowings, selected, today);
    }
  }

  /** A second `mark_overdue` on the same day and selection updates nothing. */
  method MarkOverdueTwice(db: LibraryDb, selected: set<nat>, today: Date) returns (first: nat, second: nat)
    modifies db
    ensures second == 0
    ensures db.borrowings == MarkOverdueTable(old(db.borrowings), selected, today)
  {
    first := db.MarkOverdue(selected, today);
    MarkOverdueIdempotent(old(db.borrowings), selected, today);
    second := db.MarkOverdue(selected, today);
  }
}
