/** The counter-based library of the REST back end: books carry an
    available-copies counter that a borrow decrements and a return increments,
    and a daily sweep writes one fine per overdue, unreturned borrow. Money is
    in integer cents. */
module BookLending {
  import opened Common

  /** The default fine per overdue day, 5.00. */
  const DefaultFinePerDayCents: nat := 500

  const BookNotFoundMsg: string := "Book not found"
  const NoCopiesMsg: string := "No available copies"
  const AlreadyReturnedMsg: string := "Already returned"
  const BorrowNotFoundMsg: string := "No BookBorrow matches the given query."
  const IntegrityMsg: string := "IntegrityError"

  /** Both counters are `PositiveIntegerField`s with default 1. */
  datatype Book = Book(totalCopies: nat, availableCopies: nat)

  datatype BookBorrow = BookBorrow(
    student: nat,
    book: nat,
    dueDate: Date,
    returnedAt: Option<Date>,
    isReturned: bool)

  /** A fine, one-to-one with its borrow record (so kept in a table keyed by
      the borrow's id). */
  datatype BookFine = BookFine(fineCents: int, isPaid: bool, waived: bool)

  function NewBook(): (b: Book)
    ensures b.totalCopies == 1 && b.availableCopies == 1
  {
    Book(1, 1)
  }

  /** The fine row `get_or_create` makes: no amount, unpaid, not waived. */
  function NewFine(): (f: BookFine)
    ensures f.fineCents == 0 && !f.isPaid && !f.waived
  {
    BookFine(0, false, false)
  }

  // ---------------------------------------------------------------------
  // The available-copies counter.
  // ---------------------------------------------------------------------

  /** The counter change of a borrow: one copy fewer; below zero the
      database refuses the row. */
  function TakeCopy(b: Book): (r: Result<Book>)
    ensures r.Success? <==> b.availableCopies >= 1
    ensures r.Success? ==> r.value.availableCopies + 1 == b.availableCopies
                           && r.value.totalCopies == b.totalCopies
  {
    if b.availableCopies >= 1 then Success(b.(availableCopies := b.availableCopies - 1))
    else Failure(ServerError(IntegrityMsg))
  }

  /** The counter change of a return: one copy more, with no cap at the
      total. */
  function PutBackCopy(b: Book): (r: Book)
    ensures r.availableCopies == b.availableCopies + 1 && r.totalCopies == b.totalCopies
  {
    b.(availableCopies := b.availableCopies + 1)
  }

  /** Returning a borrowed copy restores the counter the borrow took. */
  lemma BorrowThenReturnRestores(b: Book)
    requires TakeCopy(b).Success?
    ensures PutBackCopy(TakeCopy(b).value) == b
  {
  }

  /** Since a return is not capped, a return without a matching borrow can
      push availability above the total. */
  lemma ReturnIsUncapped(b: Book)
    requires b.availableCopies == b.totalCopies
    ensures PutBackCopy(b).availableCopies > PutBackCopy(b).totalCopies
  {
  }

  /** `BookReturnView` sends a fine reminder only for a fine that exists, is
      positive, unpaid and not waived. */
  predicate NotifiesOnReturn(fine: Option<BookFine>)
  {
    fine.Some? && fine.value.fineCents > 0 && !fine.value.isPaid && !fine.value.waived
  }

  // ---------------------------------------------------------------------
  // The daily fine sweep.
  // ---------------------------------------------------------------------

  /** The borrows the sweep visits: not returned and due before today. */
  function OverdueBorrows(borrows: map<nat, BookBorrow>, today: Date): (s: set<nat>)
    ensures forall id :: id in s <==> id in borrows && !borrows[id].isReturned && borrows[id].dueDate < today
  {
    set id | id in borrows && !borrows[id].isReturned && borrows[id].dueDate < today
  }

  /** The amount written for a borrow overdue since `due`: whole days late
      times the rate (an exact number of cents, so the two-place quantize
      changes nothing). */
  function FineAmount(due: Date, today: Date, ratePerDayCents: nat): (c: int)
    requires due < today
    ensures c >= ratePerDayCents && c == (today - due) * ratePerDayCents
  {
    AtLeastOneDay(today - due, ratePerDayCents);
    (today - due) * ratePerDayCents
  }

  lemma AtLeastOneDay(days: int, rate: nat)
    requires days >= 1
    ensures days * rate >= rate
  {
    assert days * rate - rate == (days - 1) * rate;
  }

  /** One borrow's fine after the sweep: a waived fine is skipped; any other
      (or a fresh one) gets the day's amount and is marked unpaid. */
  function SweptFine(existing: Option<BookFine>, amount: int): (f: BookFine)
    ensures existing.Some? && existing.value.waived ==> f == existing.value
    ensures !(existing.Some? && existing.value.waived) ==> f.fineCents == amount && !f.isPaid && !f.waived
  {
    var fine := if existing.Some? then existing.value else NewFine();
    if fine.waived then fine else fine.(fineCents := amount, isPaid := false)
  }

  function Lookup(fines: map<nat, BookFine>, id: nat): Option<BookFine>
  {
    if id in fines then Some(fines[id]) else None
  }

  /** The fines table once the borrows in `done` (all of them overdue) have
      been visited. */
  function SweepPart(borrows: map<nat, BookBorrow>, fines: map<nat, BookFine>, today: Date,
                     rate: nat, done: set<nat>): (m: map<nat, BookFine>)
    requires done <= OverdueBorrows(borrows, today)
    ensures m.Keys == fines.Keys + done
  {
    map id | id in fines.Keys + done ::
      if id in done then SweptFine(Lookup(fines, id), FineAmount(borrows[id].dueDate, today, rate))
      else fines[id]
  }

  /** Visiting one more overdue borrow updates only that borrow's fine,
      computed from the fine as it stood before the sweep. */
  lemma SweepPartStep(borrows: map<nat, BookBorrow>, fines: map<nat, BookFine>, today: Date,
                      rate: nat, done: set<nat>, id: nat)
    requires done <= OverdueBorrows(borrows, today)
    requires id in OverdueBorrows(borrows, today) && id !in done
    ensures Lookup(SweepPart(borrows, fines, today, rate, done), id) == Lookup(fines, id)
    ensures SweepPart(borrows, fines, today, rate, done + {id})
            == SweepPart(borrows, fines, today, rate, done)[id :=
                 SweptFine(Lookup(fines, id), FineAmount(borrows[id].dueDate, today, rate))]
  {
  }

  /** One turn of the sweep loop: the borrow taken from the to-do set is
      overdue, and writing its swept fine into the table visited so far
      gives the table with that borrow visited too. */
  lemma SweepLoopStep(borrows: map<nat, BookBorrow>, fines: map<nat, BookFine>, today: Date, rate: nat,
                      todo: set<nat>, done: set<nat>, id: nat, table: map<nat, BookFine>)
    requires todo + done == OverdueBorrows(borrows, today) && todo !! done && id in todo
    requires table == SweepPart(borrows, fines, today, rate, done)
    ensures (todo - {id}) + (done + {id}) == OverdueBorrows(borrows, today) && (todo - {id}) !! (done + {id})
    ensures id in borrows && borrows[id].dueDate < today
    ensures table[id := SweptFine(Lookup(table, id), FineAmount(borrows[id].dueDate, today, rate))]
            == SweepPart(borrows, fines, today, rate, done + {id})
  {
    MoveOne(todo, done, OverdueBorrows(borrows, today), id);
    SweepPartStep(borrows, fines, today, rate, done, id);
  }

  /** `apply_library_fines` on day `today` with a rate per day. */
  function Sweep(borrows: map<nat, BookBorrow>, fines: map<nat, BookFine>, today: Date, rate: nat)
    : (m: map<nat, BookFine>)
    ensures m.Keys == fines.Keys + OverdueBorrows(borrows, today)
  {
    SweepPart(borrows, fines, today, rate, OverdueBorrows(borrows, today))
  }

  /** After a sweep at a positive rate, returning an overdue borrow whose
      fine is not waived sends the reminder; a waived fine never does. */
  lemma SweptBorrowNotifies(borrows: map<nat, BookBorrow>, fines: map<nat, BookFine>, today: Date, rate: nat, id: nat)
    requires id in OverdueBorrows(borrows, today)
    ensures rate > 0 && (id !in fines || !fines[id].waived) ==> NotifiesOnReturn(Lookup(Sweep(borrows, fines, today, rate), id))
    ensures id in fines && fines[id].waived ==> !NotifiesOnReturn(Lookup(Sweep(borrows, fines, today, rate), id))
  {
    var d := borrows[id].dueDate;
    assert FineAmount(d, today, rate) >= rate;
  }

  /** Fines of borrows that are returned or not yet overdue are left alone,
      and so are waived fines. */
  lemma SweepLeavesOthers(borrows: map<nat, BookBorrow>, fines: map<nat, BookFine>, today: Date, rate: nat, id: nat)
    requires id in fines
    requires id !in OverdueBorrows(borrows, today) || fines[id].waived
    ensures Sweep(borrows, fines, today, rate)[id] == fines[id]
  {
  }

  /** Every overdue, non-waived borrow ends with exactly one fine carrying the
      day's amount, unpaid, even if it had been paid before. */
  lemma SweepOverwrites(borrows: map<nat, BookBorrow>, fines: map<nat, BookFine>, today: Date, rate: nat, id: nat)
    requires id in OverdueBorrows(borrows, today)
    requires id !in fines || !fines[id].waived
    ensures var f := Sweep(borrows, fines, today, rate)[id];
            f.fineCents == (today - borrows[id].dueDate) * rate && !f.isPaid
  {
  }

  /** The sweep overwrites rather than adds: running it twice on one day
      gives the same fines as running it once. */
  lemma SweepIdempotent(borrows: map<nat, BookBorrow>, fines: map<nat, BookFine>, today: Date, rate: nat)
    ensures Sweep(borrows, Sweep(borrows, fines, today, rate), today, rate) == Sweep(borrows, fines, today, rate)
  {
    var once := Sweep(borrows, fines, today, rate);
    var twice := Sweep(borrows, once, today, rate);
    forall id | id in twice
      ensures twice[id] == once[id]
    {
    }
  }

  // ---------------------------------------------------------------------
  // The tables and the operations.
  // ---------------------------------------------------------------------

  /** The loop of `apply_library_fines`: each overdue borrow in turn gets
      its fine created or overwritten, unless the fine is waived. */
  method SweepFines(bs: map<nat, BookBorrow>, fs: map<nat, BookFine>, today: Date, ratePerDayCents: nat)
    returns (table: map<nat, BookFine>)
    ensures table == Sweep(bs, fs, today, ratePerDayCents)
  {
    var overdue := OverdueBorrows(bs, today);
    var todo := overdue;
    ghost var done: set<nat> := {};
    table := fs;
    while todo != {}
      invariant todo + done == overdue && todo !! done
      invariant table == SweepPart(bs, fs, today, ratePerDayCents, done)
      decreases |todo|
    {
      var id :| id in todo;
      SweepLoopStep(bs, fs, today, ratePerDayCents, todo, done, id, table);
      var amount := FineAmount(bs[id].dueDate, today, ratePerDayCents);
      var fine := if id in table then table[id] else NewFine();
      if !fine.waived {
        fine := fine.(fineCents := amount, isPaid := false);
      }
      assert fine == SweptFine(Lookup(table, id), FineAmount(bs[id].dueDate, today, ratePerDayCents));
      table := table[id := fine];
      todo := todo - {id};
      done := done + {id};
    }
  }

  class BookLendingDb {
    var books: map<nat, Book>
    var borrows: map<nat, BookBorrow>
    var fines: map<nat, BookFine>
    var nextBorrowId: nat

    /** Every borrow names a stored book, every fine a stored borrow, and
        new borrow ids are fresh. */
    ghost predicate Valid()
      reads this
    {
      (forall id :: id in borrows ==> borrows[id].book in books)
      && fines.Keys <= borrows.Keys
      && (forall id :: id in borrows ==> id < nextBorrowId)
    }

    constructor()
      ensures Valid()
      ensures books == map[] && borrows == map[] && fines == map[]
    {
      books := map[];
      borrows := map[];
      fines := map[];
      nextBorrowId := 0;
    }

    /** `BookBorrowCreateView.create`: `canBorrow` is the book's own
        `can_borrow()` verdict. A successful borrow adds one record under a
        fresh id and takes one copy; if the counter would go negative the
        whole transaction is rolled back. */
    method Borrow(bookId: nat, student: nat, due: Date, canBorrow: bool) returns (resp: Response, id: nat)
      requires Valid()
      modifies this
      ensures Valid()
      ensures fines == old(fines)
      ensures bookId !in old(books) ==> resp == NotFound(BookNotFoundMsg)
      ensures bookId in old(books) && !canBorrow ==> resp == BadRequest(NoCopiesMsg)
      ensures bookId in old(books) && canBorrow && TakeCopy(old(books)[bookId]).Failure? ==>
                resp == ServerError(IntegrityMsg)
      ensures !resp.IsSuccess() ==> books == old(books) && borrows == old(borrows)
      ensures resp.IsSuccess() <==> bookId in old(books) && canBorrow && TakeCopy(old(books)[bookId]).Success?
      ensures resp.IsSuccess() ==>
                resp == Created && id !in old(borrows)
                && borrows == old(borrows)[id := BookBorrow(student, bookId, due, None, false)]
                && books == old(books)[bookId := TakeCopy(old(books)[bookId]).value]
    {
      id := nextBorrowId;
      if bookId !in books {
        return NotFound(BookNotFoundMsg), id;
      }
      if !canBorrow {
        return BadRequest(NoCopiesMsg), id;
      }
      match TakeCopy(books[bookId])
      case Failure(e) =>
        resp := e;
      case Success(b) =>
        borrows := borrows[id := BookBorrow(student, bookId, due, None, false)];
        nextBorrowId := nextBorrowId + 1;
        books := books[bookId := b];
        resp := Created;
    }

    /** `BookReturnView.update`: marks the borrow returned today and puts
        its copy back. Reports whether a fine reminder goes out; the fine
        itself is not changed. */
    method Return(id: nat, today: Date) returns (resp: Response, notify: bool)
      requires Valid()
      modifies this
      ensures Valid()
      ensures fines == old(fines)
      ensures id !in old(borrows) ==> resp == NotFound(BorrowNotFoundMsg)
      ensures id in old(borrows) && old(borrows)[id].isReturned ==> resp == BadRequest(AlreadyReturnedMsg)
      ensures !resp.IsSuccess() ==> books == old(books) && borrows == old(borrows) && !notify
      ensures resp.IsSuccess() <==> id in old(borrows) && !old(borrows)[id].isReturned
      ensures resp.IsSuccess() ==>
                var bookId := old(borrows)[id].book;
                resp == Ok
                && borrows == old(borrows)[id := old(borrows)[id].(isReturned := true, returnedAt := Some(today))]
                && books == old(books)[bookId := PutBackCopy(old(books)[bookId])]
                && notify == NotifiesOnReturn(Lookup(old(fines), id))
    {
      notify := false;
      if id !in borrows {
        return NotFound(BorrowNotFoundMsg), false;
      }
      var borrow := borrows[id];
      if borrow.isReturned {
        return BadRequest(AlreadyReturnedMsg), false;
      }
      borrows := borrows[id := borrow.(isReturned := true, returnedAt := Some(today))];
      books := books[borrow.book := PutBackCopy(books[borrow.book])];
      notify := NotifiesOnReturn(Lookup(fines, id));
      resp := Ok;
    }

    /** `apply_library_fines`: visits the overdue, unreturned borrows one by
        one, creating a fine where none exists and overwriting every fine
        that is not waived. */
    method ApplyLibraryFines(today: Date, ratePerDayCents: nat)
      requires Valid()
      modifies this
      ensures Valid()
      ensures fines == Sweep(old(borrows), old(fines), today, ratePerDayCents)
      ensures books == old(books) && borrows == old(borrows)
    {
      fines := SweepFines(borrows, fines, today, ratePerDayCents);
    }
  }
}
