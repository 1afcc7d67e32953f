# Campus management core, modelled in Dafny

This project models the decision logic of a Django campus-management system.
The system has three generations of apps: the `CMS_PROJECT` apps, the `ums` apps and the `backend` apps.
The logic modelled is the one piece that recurs across them.
A finite, countable resource is lent or allocated for a bounded time, followed by overdue detection and fine computation.
The resources are library books, sports equipment, hostel rooms and transport seats.
Around that sit fee and invoice arithmetic, payroll, grading, semester promotion, transcript grouping, chatbot intent classification and roll-number formatting.

Each app's tables are a Dafny `class` whose fields are maps keyed by primary key, or sequences where order or sums matter.
The views, admin actions and periodic tasks that write the tables are methods of that class; where a view does two separate kinds of write, a helper method does each.
A view wrapped in `transaction.atomic` (the `ums` and `backend` borrow, allocation and issue views, for instance) changes nothing when it fails. The others run in autocommit mode: a request that fails part-way keeps the writes made before the failure, and the methods' contracts say so:
- `Hostel.HostelDb.DeleteStudent` keeps the room's lowered counter when lowering the hostel's counter raises;
- `Exams.ExamsDb.AddExamResult` stores the result, and the enrollments created before a duplicate one raises, even though the request ends in an `IntegrityError` (`Exams.EnrollAllStops`).

A request refused before its first write (a missing record, an invalid form, a wrong role) changes nothing.
The records are datatypes.
What a view decides is stated by pure functions: the record after a save hook, the guard of an action, a fine, a total.
The lemmas prove properties of those functions:
- round trips and idempotence;
- counters staying within capacity;
- fines growing linearly;
- GPA bounds;
- intent priority.

The class methods are proved against the functions.

Conventions:
- "Today" and "now" are parameters: dates are day numbers, instants are second numbers.
- Money is integer cents where the source works with two-place decimals and whole days.
- Money is `real` where the source divides or takes percentages.
- Two-place rounding (`quantize(Decimal('0.01'))`, `round(x, 2)`) is rounding half to even, in `Common.Round2`.
- An exception that escapes a view (an integrity error, an unparsable number, a division by zero) is a `ServerError` response carrying the exception's name.

Four behaviours deserve a note:
- `CMS_PROJECT/exams/views.py` re-runs the promotion rule after every final-exam result it stores. A student whose results all pass is therefore moved up one semester per final result entered, not once per term (`Exams.PromotionAdvancesSemester`).
- Hostel `Student.save` in `CMS_PROJECT/hostel/models.py` adds one to the room occupancy on every save of an active student. Checking out never lowers it (`HostelModels.CountersCountSaves`). The hostel's own lifecycle test expects the opposite; this is listed under "## Findings", and the tables keep the save as written.
- `calculate_student_cgpa` in `ums/exams/services.py` and `backend/exams/services.py` reads a `credit_hours` attribute the course model does not define, so it raises on the first grade. This is listed under "## Findings"; the CGPA lemmas are about the credit-weighted average it evidently intends (`Grading.CgpaOf`).
- `CMS_PROJECT/chatbot/llm.py` matches greetings as substrings. Any question containing "this" (which contains "hi") is answered with the greeting (`Chatbot.ThisIsAGreeting`).

The code is followed where the tests say otherwise.

## Model

| member | source | states |
|---|---|---|
| LibraryModels.AvailableOnSave | CMS_PROJECT/library/models.py:105-112 | a new book keeps its submitted available count; an edit of a stored book shifts `available_copies` by exactly the change in `total_copies` |
| LibraryModels.TotalEditKeepsCopiesOut | CMS_PROJECT/library/models.py:105-112 | editing only the total of a stored book leaves `total_copies - available_copies` (the copies out) unchanged |
| LibraryModels.DueDateOnSave | CMS_PROJECT/library/models.py:172-175 | a borrowing saved without a due date is due 14 days after today; a submitted due date is kept |
| LibraryModels.ConditionOnSave | CMS_PROJECT/library/models.py:177-181 | saving an active borrowing marks the copy borrowed, a returned one marks it available, any other status leaves the condition alone |
| LibraryModels.NewBorrowing | CMS_PROJECT/library/models.py:156-159 | a new borrowing is active, never renewed, allows 2 renewals, has a zero fine and no return date or receiver |
| LibraryModels.DaysOverdue | CMS_PROJECT/library/models.py:185-195 | `days_overdue` is positive exactly when the loan is overdue (active and past due), equals today minus the due date then, and is 0 for any loan that is not active |
| LibraryModels.LoanOverdueLifecycle | CMS_PROJECT/library/models.py:185-195 | `is_overdue` holds for an active loan past its due date and stays true as days pass, `days_overdue` growing by one a day; after a renewal the loan is overdue only once the new due date, two weeks later, has passed |
| LibraryModels.ReservationExpiryOnSave | CMS_PROJECT/library/models.py:221-226 | a reservation saved without an expiry expires 24 hours after now; a submitted expiry is kept |
| LibraryModels.CardExpiryOnSave | CMS_PROJECT/library/models.py:281-286 | a card saved without an expiry expires 365 days after today; a submitted expiry is kept |
| LibraryModels.NewCard | CMS_PROJECT/library/models.py:267-269 | a new card is active, allows 5 books for 14 days, is issued today and expires as the save hook says |
| LibraryModels.DaysUntilExpiry | CMS_PROJECT/library/models.py:287-293 | `days_until_expiry` is negative exactly when `is_expired` holds, and adds to today to give the expiry date |
| LibraryModels.CardExpiryIsPermanent | CMS_PROJECT/library/models.py:287-289 | an expired card stays expired; a card is still valid on its expiry date and expired the day after |
| LibraryModels.NewCardValidForAYear | CMS_PROJECT/library/models.py:281-293 | a card issued today without an explicit expiry is not expired on any day up to 365 days later and is expired on every later day |
| LibraryModels.ExpiryDisplay | CMS_PROJECT/library/admin.py:236-247 | the admin column reads Expired exactly when days until expiry is negative, "Expires in N days" exactly when it is between 0 and 30 with N that number, and Active exactly when it is above 30 |
| LibraryModels.Renew | CMS_PROJECT/library/views.py:203-225 | renewal fails with "not currently borrowed" unless the loan is active, fails with the limit message when `renewed_count >= max_renewals`, and otherwise adds 14 days and one renewal and leaves status and fine alone |
| LibraryModels.RenewTimes | CMS_PROJECT/library/views.py:213-222 | `k` renewal requests in a row all succeed exactly when `k` is 0 or the loan is active with `renewed_count + k` within `max_renewals`; they then add `k` to the count and `14 * k` days to the due date; a refusal is one of the two BadRequest answers |
| LibraryModels.RenewalLimitExact | CMS_PROJECT/library/views.py:213-222 | a new loan can be renewed exactly `max_renewals` times; the next renewal is refused with the limit message |
| LibraryModels.RenewTimesAfter | CMS_PROJECT/library/views.py:213-222 | `k + 1` renewals are `k` renewals followed by one more |
| LibraryModels.Return | CMS_PROJECT/library/views.py:228-251 | return fails exactly when the loan is not active; a return marks it returned today by the caller and, as written, never changes the fine |
| LibraryModels.SecondReturnRejected | CMS_PROJECT/library/views.py:232-236 | a loan that has been returned cannot be returned again |
| LibraryModels.ReturnWithFine | CMS_PROJECT/library/views.py:238-246 | the intended return: same guard and stamps, and an overdue loan is charged 1.00 per day overdue, measured before the status change |
| LibraryModels.ReturnFineDiscrepancy | CMS_PROJECT/library/views.py:238-246 | a loan due on day 10 and returned on day 13 keeps a zero fine as written but would be fined 3.00 as intended |
| LibraryModels.PayFine | CMS_PROJECT/library/views.py:294-310 | paying fails exactly when the fine is already paid; otherwise it is paid today by the given method, or cash by default, and its amount, type and borrowing stay as they were |
| LibraryModels.PayFineOnce | CMS_PROJECT/library/views.py:298-302 | a fine cannot be paid twice |
| LibraryModels.OverdueSelection | CMS_PROJECT/library/admin.py:251-258 | the admin action touches exactly the selected borrowings that are active and past due |
| LibraryModels.MarkOverdueTable | CMS_PROJECT/library/admin.py:251-258 | after the action the table has the same keys, a row changes exactly when it was selected and overdue, and such a row only changes status to overdue |
| LibraryModels.MarkOverdueIdempotent | CMS_PROJECT/library/admin.py:254-257 | running the action twice on the same day changes nothing the second time |
| LibraryModels.MarkedOverdueIsStuck | CMS_PROJECT/library/views.py:207-211 | a borrowing the action marked overdue is refused by both renew and return |
| Library.LibraryDb.constructor | CMS_PROJECT/library/models.py:56-293 | the library starts with every table empty, and the uniqueness invariants hold |
| Library.LibraryDb.SaveBook | CMS_PROJECT/library/models.py:105-112 | the book is stored with the available count the save hook computes; no other table changes |
| Library.LibraryDb.SaveBorrowing | CMS_PROJECT/library/models.py:172-184 | the borrowing is stored with its defaulted due date; the copy's condition is computed for the in-memory object only, so neither the copy table nor the book's available copies change |
| Library.LibraryDb.SaveReservation | CMS_PROJECT/library/models.py:214-226 | a reservation clashing on (student, book, status) with another one raises an integrity error and nothing is written; otherwise it is stored with its defaulted expiry; uniqueness is preserved |
| Library.LibraryDb.SaveCard | CMS_PROJECT/library/models.py:254-286 | a card whose number or student is already taken raises an integrity error; otherwise it is stored with its defaulted expiry; uniqueness is preserved |
| Library.LibraryDb.RenewBook | CMS_PROJECT/library/views.py:203-225 | an unknown id is not found; otherwise the stored borrowing becomes the result of `Renew` when it succeeds, and nothing changes when it fails |
| Library.LibraryDb.ReturnBook | CMS_PROJECT/library/views.py:228-251 | an unknown id is not found; otherwise the stored borrowing becomes the result of `Return` when it succeeds, and nothing changes when it fails |
| Library.LibraryDb.MarkFinePaid | CMS_PROJECT/library/views.py:294-310 | an unknown id is not found; otherwise the stored fine becomes the result of `PayFine` when it succeeds, and nothing changes when it fails |
| Library.LibraryDb.MarkOverdue | CMS_PROJECT/library/admin.py:251-258 | the borrowing table becomes `MarkOverdueTable` of the old one, and the count reported is the size of the overdue selection |
| Library.MarkOverdueTwice | CMS_PROJECT/library/admin.py:251-258 | a second run of the admin action on the same day and selection reports zero updates and leaves the table as the first run left it |
| BookLending.NewBook | ums/library/models.py:18-19 | a new book has one copy in total and one available |
| BookLending.NewFine | backend/library/tasks.py:24-26 | the fine row `get_or_create` makes has a zero amount and is neither paid nor waived |
| BookLending.TakeCopy | backend/library/views.py:55-57 | a borrow takes exactly one available copy; with none left the positive-integer column refuses the write |
| BookLending.PutBackCopy | backend/library/views.py:86-89 | a return adds exactly one available copy, with no cap at the total, and leaves the total alone |
| BookLending.BorrowThenReturnRestores | backend/library/views.py:56-88 | a borrow followed by its return restores the book's counters exactly |
| BookLending.ReturnIsUncapped | backend/library/views.py:86-89 | a return on a book with every copy in stock pushes the available count above the total |
| BookLending.SweptBorrowNotifies | backend/library/views.py:91-99 | after a sweep at a positive rate, returning an overdue borrow whose fine is not waived sends the fine reminder; a waived fine never does |
| BookLending.OverdueBorrows | backend/library/tasks.py:16-17 | the sweep visits exactly the borrows that are not returned and are due before today |
| BookLending.FineAmount | backend/library/tasks.py:9-21 | the fine written is days overdue times the daily rate, and at least one day's rate |
| BookLending.SweptFine | backend/library/tasks.py:24-30 | a waived fine is left as it is; any other fine, new or old, is overwritten with the amount and set unpaid |
| BookLending.SweepPart | backend/library/tasks.py:19-30 | partway through the sweep the fines table holds the old fines plus one fine per visited borrow |
| BookLending.SweepPartStep | backend/library/tasks.py:19-30 | visiting one more overdue borrow changes only that borrow's fine, to `SweptFine` of what it was |
| BookLending.Sweep | backend/library/tasks.py:11-30 | after the sweep the fines table is keyed by the old fines plus every overdue borrow |
| BookLending.SweepLeavesOthers | backend/library/tasks.py:17-27 | a fine whose borrow is returned or not yet overdue, and any waived fine, comes out of the sweep unchanged |
| BookLending.SweepOverwrites | backend/library/tasks.py:20-30 | every overdue borrow whose fine is not waived ends with one unpaid, unwaived fine of days overdue times the rate, whatever it held before, a paid fine included |
| BookLending.SweepIdempotent | backend/library/tasks.py:28-30 | the sweep overwrites rather than adds, so a second run on the same day leaves the table as the first run left it |
| BookLending.BookLendingDb.constructor | ums/library/models.py:5-56 | the back-end library starts with no books, borrows or fines |
| BookLending.BookLendingDb.Borrow | backend/library/views.py:39-68 | an unknown book is not found, a book that cannot be borrowed is refused, and in both cases nothing changes; otherwise one borrow record is created and the book loses exactly one available copy |
| BookLending.BookLendingDb.Return | backend/library/views.py:77-102 | an unknown record is not found and a returned one is refused, with nothing changed; otherwise the record is marked returned today, the book gains one copy, the fine is untouched, and a reminder goes out exactly when the fine is positive, unpaid and not waived |
| BookLending.BookLendingDb.ApplyLibraryFines | backend/library/tasks.py:11-30 | the fines table becomes `Sweep` of the old one; books and borrows do not change |
| BookLending.SweepFines | backend/library/tasks.py:11-30 | the loop over overdue borrows computes exactly `Sweep`: every overdue borrow gets a fine of days late times the rate, left unpaid, unless waived; other fines stay |
| BookLending.SweepLoopStep | backend/library/tasks.py:17-30 | one turn of the loop: the borrow picked is overdue, and writing its swept fine extends the visited part of the sweep by that borrow |
| Sports.NewEquipment | ums/sports/models.py:45-51 | new equipment has a total and an available quantity of one and is active |
| Sports.NewIssue | ums/sports/models.py:60-69 | a new issue has the equipment, student, quantity and due date given, no return date, and the `returned` flag and fine as sent, or not returned and no fine by default |
| Sports.NewTournament | ums/sports/models.py:76-84 | a new tournament has capacity zero and is active |
| Sports.CanIssueDefault | ums/sports/models.py:56-57 | `can_issue()` with the default quantity of one holds exactly when some item is available |
| Sports.CanIssueMonotone | ums/sports/models.py:56-57 | stock that covers a quantity covers every smaller one; a zero or negative quantity is covered whenever stock is not negative |
| Sports.DaysLate | ums/sports/views.py:104 | days late is today minus the due date when the return is late, and zero otherwise |
| Sports.ReturnFine | ums/sports/views.py:103-106 | the return fine is days late times the daily rate, and zero for a return on or before the due date |
| Sports.ReturnFineGrowsDaily | ums/sports/views.py:103-106 | each further day of lateness adds exactly one day's rate to the return fine |
| Sports.EquipmentSweep | backend/sports/tasks.py:19-26 | the sweep keeps the same issues, sets the fine of every unreturned issue past its due date to days overdue times the rate, and leaves every other issue unchanged |
| Sports.IssueOverdueLifecycle | backend/sports/tasks.py:21-24 | an unreturned issue past its due date stays overdue as days pass, a returned one never is, and an overdue issue owes at least one day's rate |
| Sports.EquipmentSweepIdempotent | backend/sports/tasks.py:25-26 | the sweep overwrites, so a second run on the same day changes nothing |
| Sports.SweepAgreesWithReturn | backend/sports/tasks.py:24-25 | the fine the sweep writes on an overdue issue equals the fine a return on that day would record |
| Sports.RegistrationsOf | ums/sports/models.py:90-92 | the registrations of a tournament are exactly those naming it |
| Sports.RegistrationsCount | ums/sports/models.py:90-92 | `registrations_count` is the number of registrations naming the tournament, and so never exceeds the number of registrations stored |
| Sports.AddRegistrationCount | ums/sports/models.py:90-92 | a new registration adds one to its own tournament's count and nothing to any other's |
| Sports.ExpiringMemberships | backend/sports/tasks.py:6-9 | the reminders go to exactly the active memberships ending `days_before` days after today |
| Sports.RemindedOnce | backend/sports/tasks.py:6-9 | with a fixed lead time, a membership is selected on one day only |
| Sports.SportsDb.constructor | ums/sports/models.py:6-106 | the sports tables start empty |
| Sports.SportsDb.Issue | ums/sports/views.py:63-86 | missing or inactive equipment is not found; a quantity `int()` cannot read raises a value error with nothing written; too large a quantity is refused, and a negative quantity is refused by the positive-integer column; otherwise one issue is created as `NewIssue` of the fields sent and exactly the quantity is taken from the available count, even when the issue is sent as already returned (such an issue is then refused by `Sports.SportsDb.Return`, so that stock never comes back) |
| Sports.SportsDb.Return | ums/sports/views.py:94-123 | an unknown issue is not found and a returned one is refused, with nothing changed; otherwise it is marked returned today with the late fine, its quantity goes back to the equipment uncapped, and a notice is sent exactly when the fine is positive |
| Sports.SportsDb.ApplyEquipmentOverdueFines | backend/sports/tasks.py:19-26 | the issue table becomes `EquipmentSweep` of the old one; nothing else changes |
| Sports.SweepIssues | backend/sports/tasks.py:19-26 | the loop over overdue issues computes exactly `EquipmentSweep`: each overdue issue's fine is overwritten with days late times the rate, and other issues stay |
| Sports.SportsDb.Register | ums/sports/views.py:181-199 | an unknown tournament or a repeated (tournament, student) pair is refused; a tournament whose count has reached capacity is refused; otherwise the registration is stored, the count grows by one and stays within capacity |
| Sports.SportsDb.AddMembership | ums/sports/models.py:22-39 | a membership repeating (student, facility, start date) raises an integrity error and nothing is written; otherwise it is stored |
| HostelRooms.NewRoom | ums/hostel/models.py:26-30 | a new room has two places, no occupants, is active and so has a vacancy |
| HostelRooms.NewAllocation | ums/hostel/models.py:42-51 | a new allocation is for the student, room and start date given, is always active, and has the end date sent, none by default |
| HostelRooms.NewViolation | ums/hostel/models.py:64-73 | a new violation has no fine and is unresolved |
| HostelRooms.Occupy | ums/hostel/views.py:64-66 | an allocation adds exactly one to the room's occupancy and changes nothing else about the room |
| HostelRooms.Release | ums/hostel/views.py:101-104 | vacating takes one from a positive occupancy, keeps a zero occupancy at zero, and changes nothing else |
| HostelRooms.OccupancyStaysWithinCapacity | ums/hostel/models.py:38-39 | allocating only into a room with a vacancy keeps occupancy within capacity, and vacating never breaks that bound |
| HostelRooms.VacancyCountsFreeBeds | ums/hostel/models.py:38-39 | `has_vacancy` holds exactly while a bed is free; after one more allocation it holds exactly when two were free |
| HostelRooms.ReleaseUndoesOccupy | ums/hostel/views.py:65-103 | vacating after an allocation gives back the room as it was |
| Common.EndDateOrToday | ums/hostel/views.py:98 | the end date recorded when a hostel allocation is vacated or a transport pass revoked (`backend/transport/views.py:105`) is the requested one, or today when none is given |
| HostelRooms.RoomsDb.constructor | ums/hostel/models.py:6-77 | the hostel tables start empty |
| HostelRooms.RoomsDb.AddRoom | ums/hostel/models.py:32-33 | a room repeating (hostel, number) raises an integrity error and nothing is written; otherwise it is stored |
| HostelRooms.RoomsDb.Allocate | ums/hostel/views.py:46-83 | a missing or inactive room is not found and a full room is refused, with nothing changed; success happens exactly for an active room with a vacancy, and then one allocation is created as `NewAllocation` of the fields sent (active, with the end date sent) and the occupancy grows by one; occupancy within capacity is preserved |
| HostelRooms.RoomsDb.Vacate | ums/hostel/views.py:92-104 | an unknown allocation is not found and an inactive one is refused, with nothing changed; otherwise it becomes inactive with the requested or current end date and the room is released; occupancy within capacity is preserved |
| Transport.NewVehicle | ums/transport/models.py:18-31 | a new vehicle has no passengers, is active, and has a vacancy when its capacity is positive |
| Transport.NewPass | ums/transport/models.py:40-47 | a new pass is for the student, vehicle and dates given, is always active, and has the monthly fee sent, zero by default |
| Transport.Board | backend/transport/views.py:79-80 | issuing a pass adds exactly one passenger and changes nothing else about the vehicle |
| Transport.Alight | backend/transport/views.py:108-110 | revoking a pass takes one from a positive passenger count, keeps zero at zero, and changes nothing else |
| Transport.PassengersStayWithinCapacity | ums/transport/models.py:36-37 | issuing only with a vacancy keeps passengers within capacity, revoking never breaks it, and revoking undoes issuing |
| Transport.VacancyCountsFreeSeats | ums/transport/models.py:36-37 | `has_vacancy` holds exactly while a seat is free; after one more pass it holds exactly when two were free |
| Transport.TransportDb.constructor | ums/transport/models.py:6-55 | the transport tables start empty |
| Transport.TransportDb.AddVehicle | ums/transport/models.py:25 | a repeated vehicle number raises an integrity error and nothing is written; otherwise the vehicle is stored |
| Transport.TransportDb.Issue | backend/transport/views.py:69-91 | a missing, inactive or full vehicle is refused and a repeated (student, vehicle, start) pass is refused by the uniqueness rule, with nothing changed; otherwise one active pass is created as `NewPass` of the fields sent, monthly fee included, and the vehicle boards one passenger; passengers within capacity is preserved |
| Transport.TransportDb.Revoke | backend/transport/views.py:99-120 | an unknown pass is not found and an inactive one is refused, with nothing changed; otherwise it becomes inactive with the requested or current end date and the vehicle loses one passenger, never below zero |
| HostelModels.AvailableCapacity | CMS_PROJECT/hostel/models.py:39-41 | a hostel's available capacity and its occupied count add up to its capacity, so it goes negative once the counter passes capacity |
| HostelModels.OccupancyRate | CMS_PROJECT/hostel/models.py:43-47 | the occupancy rate is zero for a hostel without capacity; otherwise it is occupied over capacity in percent, within 0 to 100 while occupancy is within capacity |
| HostelModels.AvailableBeds | CMS_PROJECT/hostel/models.py:88-90 | a room's free beds and its occupied count add up to its capacity |
| HostelModels.IsFull | CMS_PROJECT/hostel/models.py:88-94 | a room is full exactly when it has no free bed |
| HostelModels.RentOnSave | CMS_PROJECT/hostel/models.py:96-99 | a room saved with a missing or zero rent (both falsy) takes its hostel's rent; any other rent is kept |
| HostelModels.RentOnSaveStable | CMS_PROJECT/hostel/models.py:96-99 | saving a room twice gives the same rent as saving it once |
| HostelModels.SavedRoom | CMS_PROJECT/hostel/models.py:96-99 | the saved room differs from the submitted one in its rent only |
| HostelModels.OccupiedAfterSave | CMS_PROJECT/hostel/models.py:125-131 | saving an active student with a room adds one to a counter; any other save leaves it alone |
| HostelModels.CountersCountSaves | CMS_PROJECT/hostel/models.py:125-131 | the counters count saves, not residents: saving an active student twice adds two, and checking the student out and saving again still leaves one added |
| HostelModels.Residents | CMS_PROJECT/hostel/models.py:101-115 | the residents of a room or hostel are exactly the stored active students placed there |
| HostelModels.CheckOutLeavesCounterRaised | CMS_PROJECT/hostel/models.py:125-131 | with the save as written, a student saved on arrival and saved again when checked out leaves the counter at one while the place has no resident |
| HostelModels.OccupiedAfterReleasingSave | CMS_PROJECT/hostel/tests.py:442-472 | the intended save gives a place back when the stored record it replaces held one and takes one when the saved record holds one; otherwise the counter stays |
| HostelModels.ReleasingSaveCountsResidents | CMS_PROJECT/hostel/tests.py:442-472 | with the intended save, a counter equal to the number of residents stays equal to it after any save |
| HostelModels.ReleasingSaveLifecycle | CMS_PROJECT/hostel/tests.py:442-472 | with the intended save, arriving raises the counter to one and checking out brings it back to zero |
| HostelModels.MaintenanceDaysOverdue | CMS_PROJECT/hostel/models.py:220-230 | a request that is not overdue has zero days overdue; an overdue one (pending, with a scheduled date in the past) has the whole days elapsed since it was scheduled |
| HostelModels.MaintenanceOverdueLifecycle | CMS_PROJECT/hostel/models.py:220-224 | a pending, scheduled request past its time stays overdue as time passes; an assigned or completed request is never overdue |
| HostelModels.PaymentDaysOverdue | CMS_PROJECT/hostel/models.py:354-364 | days overdue is positive exactly when the payment is pending and past due, and is then today minus the due date |
| HostelModels.PaymentOverdueLifecycle | CMS_PROJECT/hostel/models.py:354-358 | a pending payment past its due date stays overdue as days pass; a paid payment is never overdue |
| HostelModels.NoticeExpiryIsPermanent | CMS_PROJECT/hostel/models.py:394-398 | a notice that has expired has an expiry date and stays expired |
| HostelModels.NoticeLiveUntilExpiry | CMS_PROJECT/hostel/models.py:394-398 | a notice without an expiry never expires; one with an expiry is live at that instant and expired just after |
| HostelModels.OverduePayments | CMS_PROJECT/hostel/views.py:339-344 | the overdue query returns exactly the pending payments due before today |
| HostelModels.CheckOut | CMS_PROJECT/hostel/views.py:137-149 | checking out fails exactly for a student already checked out; otherwise the student becomes inactive with today as check-out date and nothing else changes |
| HostelModels.CheckOutVisitor | CMS_PROJECT/hostel/views.py:252-264 | letting a visitor out fails exactly when the visitor is not inside; otherwise the visitor is outside, checked out at time now |
| HostelModels.VisitorCheckedOutOnce | CMS_PROJECT/hostel/views.py:252-264 | a visitor can be let out only once |
| HostelModels.AssignMaintenance | CMS_PROJECT/hostel/views.py:198-216 | assigning staff to a request records the staff member, sets it in progress and changes nothing else |
| HostelModels.CompleteMaintenance | CMS_PROJECT/hostel/views.py:218-235 | completing a request, from any status, marks it completed now; a given nonzero cost and non-empty notes replace the old ones, and the schedule and assignee stay |
| HostelModels.CompletedNotOverdue | CMS_PROJECT/hostel/models.py:220-224 | a completed request is never overdue |
| HostelModels.AssignComplaint | CMS_PROJECT/hostel/views.py:288-306 | assigning staff to a complaint records the staff member, sets it in progress and changes nothing else |
| HostelModels.ResolveComplaint | CMS_PROJECT/hostel/views.py:308-322 | resolving a complaint, from any status, marks it resolved now; a non-empty resolution replaces the old one and the assignee stays |
| HostelModels.PayPayment | CMS_PROJECT/hostel/views.py:346-363 | paying, from any status, marks the payment paid today; a non-empty method and reference replace the old ones; amount and due date stay |
| HostelModels.PayPaymentNoGuard | CMS_PROJECT/hostel/views.py:346-363 | a paid payment is never overdue, and paying it again on a later day moves its paid date, since the action has no already-paid guard |
| HostelModels.CompleteSelected | CMS_PROJECT/hostel/admin.py:250-257 | the admin action completes now exactly the selected requests that are pending or in progress; every other row stays |
| HostelModels.CompletableSelection | CMS_PROJECT/hostel/admin.py:253 | the rows updated are exactly the selected pending or in-progress requests |
| HostelModels.CompleteSelectedIdempotent | CMS_PROJECT/hostel/admin.py:250-257 | a second run, even at a later time, selects nothing and changes nothing |
| HostelModels.ResolveSelected | CMS_PROJECT/hostel/admin.py:259-266 | the admin action resolves now exactly the selected complaints that are open or in progress; every other row stays |
| HostelModels.ResolvableSelection | CMS_PROJECT/hostel/admin.py:262 | the rows updated are exactly the selected open or in-progress complaints |
| HostelModels.ResolveSelectedIdempotent | CMS_PROJECT/hostel/admin.py:259-266 | a second run, even at a later time, selects nothing and changes nothing |
| HostelModels.PaySelected | CMS_PROJECT/hostel/admin.py:268-275 | the admin action marks paid today exactly the selected pending payments; every other row stays |
| HostelModels.PayableSelection | CMS_PROJECT/hostel/admin.py:271 | the rows updated are exactly the selected pending payments |
| HostelModels.PaySelectedIdempotent | CMS_PROJECT/hostel/admin.py:268-275 | a second run, even on a later day, selects nothing and changes nothing |
| HostelModels.PaySelectedClearsOverdue | CMS_PROJECT/hostel/admin.py:268-275 | a selected overdue payment is no longer overdue after the action |
| Hostel.HostelDb.constructor | CMS_PROJECT/hostel/models.py:7-398 | the hostel tables start empty, with the given staff |
| Hostel.HostelDb.SaveRoom | CMS_PROJECT/hostel/models.py:81-99 | a room repeating (hostel, room number) raises an integrity error and nothing is written; otherwise it is stored with the rent the save hook fills in |
| Hostel.HostelDb.SaveStudent | CMS_PROJECT/hostel/models.py:125-131 | the student is stored; when active with a room, the room and the hostel each gain one occupant with no capacity check (the room re-saved with its rent filled in); otherwise no counter moves |
| Hostel.HostelDb.DeleteStudent | CMS_PROJECT/hostel/models.py:133-139 | deleting an active student with a room takes one from the room, then one from the hostel; a counter at zero refuses the write, and a refusal at the hostel keeps the room's decrement and the student; any other student is deleted without touching counters; a deleted student takes its visitors, complaints and payments with it, and a refused delete removes none of them |
| Hostel.HostelDb.ReleasePlace | CMS_PROJECT/hostel/models.py:134-138 | the room loses one occupant and then the hostel; a counter at zero refuses its write, and a refusal at the hostel keeps the room's decrement |
| Hostel.HostelDb.RemoveStudentRows | CMS_PROJECT/hostel/models.py:139 | the student row is deleted together with exactly the visitors, complaints and payments naming it, and every other row stays |
| Hostel.VisitorsOf | CMS_PROJECT/hostel/models.py:242 | the visitors a student's deletion cascades to are exactly those naming the student |
| Hostel.ComplaintsOf | CMS_PROJECT/hostel/models.py:293 | the complaints a student's deletion cascades to are exactly those naming the student |
| Hostel.PaymentsOf | CMS_PROJECT/hostel/models.py:336 | the payments a student's deletion cascades to are exactly those naming the student |
| Hostel.CascadeKeepsRowsLinked | CMS_PROJECT/hostel/models.py:242-336 | after a student and the rows cascading from it are deleted, every remaining visitor, complaint and payment still names a stored student |
| Hostel.HostelDb.CheckOut | CMS_PROJECT/hostel/views.py:137-149 | an unknown student is not found; otherwise the record becomes the result of `CheckOut`, and no occupancy counter changes |
| Hostel.HostelDb.AssignMaintenanceStaff | CMS_PROJECT/hostel/views.py:198-216 | an unknown request is not found, a missing or zero staff id is refused, and an unknown staff id is not found, all without change; otherwise the request becomes `AssignMaintenance` of it |
| Hostel.HostelDb.MarkCompleted | CMS_PROJECT/hostel/views.py:218-235 | an unknown request is not found; otherwise it becomes `CompleteMaintenance` of it |
| Hostel.HostelDb.CheckOutVisitor | CMS_PROJECT/hostel/views.py:252-264 | an unknown visitor is not found; otherwise the record becomes the result of `CheckOutVisitor`, and nothing changes when that fails |
| Hostel.HostelDb.AssignComplaintStaff | CMS_PROJECT/hostel/views.py:288-306 | an unknown complaint is not found, a missing or zero staff id is refused, and an unknown staff id is not found, all without change; otherwise the complaint becomes `AssignComplaint` of it |
| Hostel.HostelDb.ResolveComplaint | CMS_PROJECT/hostel/views.py:308-322 | an unknown complaint is not found; otherwise it becomes `ResolveComplaint` of it |
| Hostel.HostelDb.MarkPaymentPaid | CMS_PROJECT/hostel/views.py:346-363 | an unknown payment is not found; otherwise it becomes `PayPayment` of it |
| Hostel.HostelDb.MarkMaintenanceCompleted | CMS_PROJECT/hostel/admin.py:250-257 | the maintenance table becomes `CompleteSelected` of the old one, and the count reported is the number of completable selected rows |
| Hostel.HostelDb.MarkComplaintsResolved | CMS_PROJECT/hostel/admin.py:259-266 | the complaint table becomes `ResolveSelected` of the old one, and the count reported is the number of resolvable selected rows |
| Hostel.HostelDb.MarkPaymentsPaid | CMS_PROJECT/hostel/admin.py:268-275 | the payment table becomes `PaySelected` of the old one, and the count reported is the number of pending selected rows |
| Fees.NewFeeStructure | CMS_PROJECT/fees/models.py:5-16 | a structure entered with only its tuition has every other fee at zero, and saving it makes the tuition its total |
| Fees.SavedFeeStructure | CMS_PROJECT/fees/models.py:24-30 | saving a structure sets its total to the sum of the five fee components and changes nothing else |
| Fees.SuppliedTotalIgnored | CMS_PROJECT/fees/models.py:24-30 | the stored total never depends on a total supplied with the structure |
| Fees.SavedChallan | CMS_PROJECT/fees/models.py:58-61 | saving a challan sets the remaining amount so that remaining plus paid is the total, unclamped (negative when overpaid), and changes nothing else |
| Fees.NewChallan | CMS_PROJECT/fees/serializers.py:18-32 | a new challan has the challan number, student, due date and total given, the paid amount and status sent or nothing paid and pending by default, and owes its total less what is paid, whatever remaining amount was sent |
| Fees.EditedChallan | CMS_PROJECT/fees/serializers.py:18-32 | an update replaces exactly the writable fields sent (challan number included), keeps the others, recomputes the remaining amount, and takes the status as sent or kept, never derived from the paid amount |
| Fees.EditedPaymentKeepsStatus | CMS_PROJECT/fees/views.py:88-104 | writing a full paid amount through the challan update leaves a pending challan pending, while recording the same payment marks it paid |
| Fees.MarkOverdueSelected | CMS_PROJECT/fees/admin.py:144-148 | marking keeps the number of rows and turns exactly the selected pending rows due before today to overdue; every other row stays |
| Fees.OverdueSelection | CMS_PROJECT/fees/admin.py:147 | the rows changed are exactly the selected pending rows due before today |
| Fees.AllRows | CMS_PROJECT/fees/views.py:49-52 | the view's queryset is every row of the table |
| Fees.MarkOverdueIdempotent | CMS_PROJECT/fees/admin.py:147 | a second marking on the same day selects nothing and changes nothing, and rows that are not pending are never touched |
| Fees.ViewMatchesAdmin | CMS_PROJECT/fees/views.py:46-52 | the `overdue_challans` view marks a row exactly when the admin action would, and on any selected row the two give the same result |
| Fees.PaymentsTotalAppend | CMS_PROJECT/fees/views.py:94-96 | a new payment adds exactly its amount to its own challan's sum and nothing to any other challan's |
| Fees.PaymentsTotalNonNegative | CMS_PROJECT/fees/views.py:94-96 | non-negative payments give a non-negative paid sum |
| Fees.PaymentsTotal | CMS_PROJECT/fees/views.py:94-96 | the `Sum('amount')` over a challan's payments is 0 when none is for that challan and the sum of all amounts when all are |
| Fees.FeesOf | CMS_PROJECT/fees/views.py:143 | a student's fee total is 0 without challans of theirs and never negative when no total is |
| Fees.PaidOf | CMS_PROJECT/fees/views.py:144 | a student's paid total is 0 without challans of theirs and never negative when no paid amount is |
| Fees.FeesAndPaidAppend | CMS_PROJECT/fees/views.py:143-144 | a new challan adds its total and paid amount to its own student's sums and nothing to anyone else's |
| Fees.StatusAfterPayment | CMS_PROJECT/fees/views.py:98-102 | a challan is paid once the paid sum reaches the total, partial when something but not all is paid, and otherwise keeps its status |
| Fees.ChallanAfterPayment | CMS_PROJECT/fees/views.py:88-104 | after a payment the challan's paid amount is the sum of its payments, its status follows `StatusAfterPayment`, its remaining amount is recomputed (consistent), a challan with nothing remaining is paid, and total, due date and student stay |
| Fees.SummarizeStudent | CMS_PROJECT/fees/views.py:132-174 | a missing student id is refused; otherwise the summary gives the student's total fees, paid sum, remaining as their difference, active scholarships, the net remaining clamped at zero, and the counts of overdue and pending challans |
| Fees.RemainingAgrees | CMS_PROJECT/fees/models.py:58-61 | when every challan went through its save hook, the sum of stored remaining amounts equals fees minus paid, as the summary computes it |
| Fees.FeesOfAllAppend | CMS_PROJECT/fees/views.py:194-197 | a new challan adds its total to the department sum once for each time its student is listed |
| Fees.DepartmentFeesCoverGroup | CMS_PROJECT/fees/views.py:189-197 | with each student listed once, the department total is the sum over the challans of the department's students |
| Fees.EmptyFeesOfAll | CMS_PROJECT/fees/views.py:194-197 | with no challans the department total is zero |
| Fees.DistinctOccurrences | CMS_PROJECT/fees/views.py:189 | in a student list without repeats each student occurs once if listed and otherwise never |
| Fees.CollectionRate | CMS_PROJECT/fees/views.py:208 | the collection rate is zero when there is nothing to collect, and otherwise paid over fees in percent, within 0 to 100 when paid is within the fees |
| Fees.SummarizeDepartment | CMS_PROJECT/fees/views.py:176-209 | a missing department id is refused; otherwise the loop's totals are the department sums over the listed students, the remaining is their difference and the rate is `CollectionRate` of them |
| Fees.FeesDb.constructor | CMS_PROJECT/fees/models.py:5-116 | the fee tables start empty |
| Fees.ChallanNumberCheck | CMS_PROJECT/fees/models.py:46 | writing or appending a challan keeps challan numbers unique if and only if no other challan has its number, so the clash test refuses exactly what the unique column forbids |
| Fees.ReceiptCheck | CMS_PROJECT/fees/models.py:80 | appending a payment keeps receipt numbers unique if and only if no stored payment has its receipt number |
| Fees.FeesDb.SaveStructure | CMS_PROJECT/fees/models.py:20-30 | a structure repeating (program, semester, academic year) is refused and nothing is written; otherwise it is stored with its computed total |
| Fees.FeesDb.IssueChallan | CMS_PROJECT/fees/views.py:31-36 | a challan number another challan already has is refused with a 400 and nothing written; otherwise the new challan is appended with the next id, as `NewChallan` makes it from the fields sent; challan numbers stay unique |
| Fees.FeesDb.UpdateChallan | CMS_PROJECT/fees/views.py:31-36 | an unknown challan is not found, and a challan number sent that another challan has is refused with a 400 (its own is no clash), each with nothing written; otherwise it becomes `EditedChallan` of the fields sent and every other row stays; challan numbers stay unique |
| Fees.FeesDb.OverdueChallans | CMS_PROJECT/fees/views.py:45-59 | every pending challan due before today becomes overdue, and the count returned is the number of such rows |
| Fees.FeesDb.MarkOverdue | CMS_PROJECT/fees/admin.py:144-148 | the table becomes `MarkOverdueSelected` of the old one, and the count reported is the size of the overdue selection |
| Fees.FeesDb.RecordPayment | CMS_PROJECT/fees/views.py:88-104 | a payment naming an unknown challan is refused, and then one repeating a stored receipt number, each with nothing changed; otherwise the payment is appended and its challan becomes `ChallanAfterPayment` of the new paid sum; receipt numbers stay unique |
| Fees.FeesDb.StudentSummaryView | CMS_PROJECT/fees/views.py:132-174 | the view returns `SummarizeStudent` of the stored challans, and its remaining balance equals the sum of the stored remaining amounts |
| Invoices.NewInvoice | ums/fees/models.py:17-41 | a new invoice has the student, amount, due date and reference number given, is unpaid with no payment time, no fine and no fine applied, and its daily fine rate is the one given or zero by default |
| Invoices.EditedInvoice | ums/fees/serializers.py:10-24 | an update replaces exactly the writable fields it names (student, amount, due date, reference number, daily rate) and keeps the read-only payment state and stored fine |
| Invoices.NewInvoiceFine | ums/fees/models.py:31-52 | a new invoice draws no fine until its due date has passed and then the fine of the rate it was created with; without a rate it never draws one |
| Invoices.EditedInvoiceFine | ums/fees/models.py:43-52 | an update never changes whether the invoice is paid, so a paid invoice still draws no fine, and an unpaid one draws the fine of its new amount, due date and rate |
| Invoices.OverdueFine | ums/library/utils.py:4-6 | the percentage fine is zero when the days, the rate or the amount is zero, and non-negative for non-negative inputs |
| Invoices.OverdueFineAdditive | ums/library/utils.py:4-6 | the percentage fine is additive in the number of days |
| Invoices.CalculateFine | ums/fees/models.py:43-52 | `calculate_fine` is zero for a paid invoice or on or before the due date, and otherwise the amount times the daily percentage times the days overdue; a zero rate always gives zero |
| Invoices.PositiveFineIsOverdue | ums/fees/models.py:48-49 | a nonzero fine only ever comes from an unpaid invoice past its due date |
| Invoices.InvoiceOverdueLifecycle | ums/fees/models.py:48-52 | an unpaid invoice is overdue exactly once its due date has passed and stays so; a paid invoice is never overdue and draws no fine |
| Invoices.FineGrowsLinearly | ums/fees/models.py:51-52 | for an overdue invoice each further `k` days add exactly the fine of `k` days |
| Invoices.SweptInvoice | backend/fees/tasks.py:41-46 | an overdue invoice with a positive fine gets that fine stored, overwriting the old one, and is marked fine-applied; any other invoice is unchanged |
| Invoices.Sweep | backend/fees/tasks.py:35-46 | the sweep keeps every invoice's position and applies `SweptInvoice` to each |
| Invoices.SweepIdempotent | backend/fees/tasks.py:43-46 | the fine is overwritten, not added to, so a second sweep on the same day changes nothing; paid invoices are never touched |
| Invoices.FinedIds | backend/fees/tasks.py:37-43 | the invoices fined (and notified) are exactly the overdue ones with a positive fine |
| Invoices.ReminderIds | backend/fees/tasks.py:5-10 | due-date reminders go to exactly the unpaid invoices due `days_before` days after today |
| Invoices.AlertIds | backend/fees/tasks.py:20-25 | overdue alerts go to exactly the unpaid invoices due before today |
| Invoices.FinedAreAlerted | backend/fees/tasks.py:5-43 | every fined invoice also receives an overdue alert, and no invoice is both reminded and alerted on the same day |
| Invoices.OverdueReportAsWritten | ums/fees/views.py:74-75 | the report as written selects the unpaid invoices whose due date is before its own due date |
| Invoices.OverdueReportAlwaysEmpty | ums/fees/views.py:74-75 | the report as written is empty whatever is stored, even with an invoice 30 days overdue that the alerts do select |
| Invoices.OverdueReport | ums/fees/views.py:71-86 | the corrected report selects exactly the unpaid invoices due before today |
| Invoices.OverdueReportMatchesSweep | ums/fees/views.py:71-86 | the corrected report lists exactly the invoices the overdue alerts go to, and includes every invoice the sweep fines |
| Invoices.PaidForAppend | ums/fees/views.py:149 | a new payment adds its amount to its own invoice's paid sum and nothing to any other's |
| Invoices.InvoiceAfterPayment | ums/fees/views.py:145-153 | once the payments reach the amount the invoice is marked paid at the payment's time; below that it is unchanged; a paid invoice stays paid |
| Invoices.Outstanding | ums/fees/views.py:21-24 | the outstanding balance is invoiced amounts plus stored fines less payments, over the group's invoices |
| Invoices.PaidOfAppend | ums/fees/views.py:22 | a stored payment adds its amount to the paid sum of a group exactly when its invoice belongs to the group |
| Invoices.PaymentLowersOutstanding | ums/fees/views.py:21-24 | a payment lowers the outstanding balance of its invoice's student by exactly its amount and leaves other groups' balances alone |
| Invoices.BatchStudents | ums/fees/views.py:51 | the students of a batch are exactly those stored with that batch |
| Invoices.InvoicesDb.constructor | ums/fees/models.py:17-70 | the invoice tables start empty over the given students and batches |
| Invoices.ReferenceCheck | ums/fees/models.py:27 | writing or appending an invoice keeps reference numbers unique if and only if no other invoice has its reference number |
| Invoices.InvoicesDb.CreateInvoice | ums/fees/views.py:110-119 | an invoice for an unknown student is refused, and then one repeating a stored reference number, each with a 400 and nothing written; otherwise `NewInvoice` of the posted fields, including the daily fine rate, is appended with the next id; reference numbers stay unique |
| Invoices.InvoicesDb.UpdateInvoice | ums/fees/views.py:122-133 | an unknown invoice is not found, an unknown student refused, and then a reference number another invoice has refused (its own is no clash), each with nothing written; otherwise the invoice becomes `EditedInvoice` of the fields sent and no other row changes; reference numbers stay unique |
| Invoices.InvoicesDb.ApplyOverdueFines | backend/fees/tasks.py:35-46 | the invoice table becomes `Sweep` of the old one and the set of fined invoices is `FinedIds` |
| Invoices.InvoicesDb.RecordPayment | ums/fees/views.py:145-153 | a payment naming an unknown invoice is refused with nothing changed; otherwise the payment is appended and its invoice becomes `InvoiceAfterPayment` of the new paid sum |
| Invoices.InvoicesDb.StudentReport | ums/fees/views.py:14-43 | an unknown student raises DoesNotExist; otherwise the report's paid sum and outstanding balance are those of the student's invoices |
| Invoices.InvoicesDb.BatchReport | ums/fees/views.py:46-68 | an unknown batch raises DoesNotExist; otherwise the loop's paid sum, the outstanding balance and the invoice count are those of the batch's invoices |
| Payroll.LineAmount | ums/payroll/utils.py:19-22 | a percentage component contributes its value as a percentage of basic; any other contributes its fixed value |
| Payroll.EntryOf | ums/payroll/utils.py:24-29 | a breakdown entry carries the component's type, code and name and its amount |
| Payroll.BreakdownOf | ums/payroll/utils.py:17-29 | the breakdown has one entry per component, in order |
| Payroll.BreakdownAddsUp | ums/payroll/utils.py:17-29 | the earning entries of the breakdown add up to the earnings and the other entries to the deductions |
| Payroll.SumsBounds | ums/payroll/utils.py:17-29 | earnings and deductions are never negative when basic and every component value are not; earnings are zero without earning components and deductions zero without other components |
| Payroll.SumsStep | ums/payroll/utils.py:17-29 | one more component adds its amount to earnings or to deductions and its entry to the breakdown |
| Payroll.PayslipOf | ums/payroll/utils.py:5-37 | gross is basic plus earnings, deductions are the other components, net is their difference, each rounded to cents, and the breakdown is `BreakdownOf` |
| Payroll.ComputePayslip | ums/payroll/utils.py:5-37 | the loop over the components computes exactly `PayslipOf` of the template |
| Payroll.NetIsDifferenceOnCents | ums/payroll/utils.py:31-35 | when gross and deductions are whole cents before rounding, the stored net is exactly gross minus deductions |
| Payroll.NetCanDifferByACent | ums/payroll/utils.py:31-35 | with percentage components the three separate roundings can disagree: basic 1.50 with a 1% earning and a 3% deduction stores gross 1.52 and deductions 0.04 but net 1.47 |
| Payroll.PayslipAmounts | ums/payroll/utils.py:39-63 | an employee without a template gets zero amounts; otherwise the amounts are `PayslipOf` of the template |
| Payroll.Upsert | ums/payroll/utils.py:46-62 | `update_or_create` replaces the three amounts and keeps the processed flag of an existing row (a new row is unprocessed) |
| Payroll.UpsertIdempotent | ums/payroll/utils.py:46-62 | upserting the same amounts twice gives the same row as once |
| Payroll.PayrollDb.constructor | backend/payroll/models.py:75-108 | payroll starts with no runs and no payslips over the given employees |
| Payroll.PayrollDb.CreateRun | backend/payroll/models.py:86 | a new run starts as a draft |
| Payroll.PayrollDb.GeneratePayslip | ums/payroll/utils.py:39-63 | the (run, employee) payslip becomes `Upsert` of the old one with the employee's amounts, so at most one row is added |
| Payroll.PayrollDb.ProcessRun | ums/payroll/views.py:77-91 | an unknown run raises DoesNotExist, and a run that is neither draft nor cancelled is refused, both with nothing changed; otherwise the run is completed and every active employee's payslip is generated |
| Payroll.GeneratePayslips | ums/payroll/views.py:85-88 | the loop over active employees leaves exactly the payslip table in which each active employee's (run, employee) payslip is created or updated with the computed amounts, and every other payslip is unchanged |
| Payroll.ActiveIds | ums/payroll/views.py:85 | the run is processed for exactly the active employees |
| Payroll.Processed | ums/payroll/views.py:85-87 | after generating the payslips of some employees, the table gains one row per such employee, each the upsert of the old row, and every other row stays |
| Payroll.ProcessedNone | ums/payroll/views.py:85-87 | before the loop, the table is unchanged |
| Payroll.ProcessedStep | ums/payroll/views.py:86-87 | generating one more employee's payslip extends the processed table by that employee's upsert |
| Payroll.ProcessAgainKeepsRows | ums/payroll/views.py:85-87 | processing a run again replaces amounts and never adds a second row per employee |
| Payroll.ProcessTwice | ums/payroll/views.py:79-80 | once a run has been processed, processing it again is refused |
| Payroll.ParseMonth | ums/payroll/views.py:101-106 | an empty month applies no filter; a parsed month is the two leading dash-separated numerals; any other value raises a value error or an index error |
| Payroll.ParseYearMonth | ums/payroll/views.py:105-106 | `YYYY-MM` is read back as that year and month |
| Payroll.ParseYearMonthDay | ums/payroll/views.py:105-106 | `YYYY-MM-DD` is read as the same year and month, the day ignored |
| Payroll.ParseYearOnly | ums/payroll/views.py:106 | a year without a month raises an index error |
| Grading.FirstBandAtMostTop | CMS_PROJECT/exams/utils.py:56-67 | on a ladder whose points fall rung by rung, no mark earns more than the top rung |
| Grading.FirstBandMonotone | CMS_PROJECT/exams/utils.py:56-67 | an if-elif ladder of lower bounds read top-down never gives more marks fewer points |
| Grading.LetterOf | CMS_PROJECT/exams/utils.py:56-67 | the letter is F exactly below 50 and A exactly from 85; B+ covers [75, 85), B [65, 75), C+ [55, 65) and C [50, 55) |
| Grading.GradePoints | CMS_PROJECT/exams/utils.py:56-67 | the points lie in [0, 4], are 0 exactly below 50 marks and 4 exactly from 85 |
| Grading.CalculateGrade | CMS_PROJECT/exams/utils.py:49-67 | marks outside [0, 100] raise the "Marks must be between 0 and 100." ValueError and only they do; otherwise the points are the letter's points, lie in [0, 4], and the letter is F exactly below 50 |
| Grading.CmsLadderIsTable | CMS_PROJECT/exams/utils.py:56-67 | the letter ladder is the band table 85/75/65/55/50 giving 4.0/3.5/3.0/2.5/2.0, and 0.0 below |
| Grading.GradePointsMonotone | CMS_PROJECT/exams/utils.py:56-67 | higher marks never earn fewer grade points |
| Grading.GpaOf | CMS_PROJECT/exams/utils.py:69-86 | the GPA fails with the range ValueError exactly when some result's marks are out of range; a GPA returned is a whole number of hundredths |
| Grading.CalculateGpa | CMS_PROJECT/exams/utils.py:69-86 | the loop accumulating points times credits and credits returns exactly `GpaOf` |
| Grading.WeightedPointsBounds | CMS_PROJECT/exams/utils.py:76-80 | the credit-weighted points lie between 0 and 4 times the credits |
| Grading.GpaInRange | CMS_PROJECT/exams/utils.py:82-86 | every GPA returned lies in [0, 4] |
| Grading.CreditsAppend | CMS_PROJECT/exams/utils.py:80 | the credits of two lists of results add up |
| Grading.WeightedPointsAppend | CMS_PROJECT/exams/utils.py:79 | the weighted points of two lists of results add up |
| Grading.GpaOrderIndependent | CMS_PROJECT/exams/utils.py:69-86 | the GPA does not depend on the order in which the results come |
| Grading.AllValidAppend | CMS_PROJECT/exams/utils.py:53-54 | two lists of results are valid together exactly when each is |
| Grading.WeightedPointsUniform | CMS_PROJECT/exams/utils.py:76-80 | when every result earns the same points, the weighted points are those points times the credits |
| Grading.GpaOfUniformResults | CMS_PROJECT/exams/utils.py:69-86 | when every result has the same letter and there are credits, the GPA is exactly that letter's points |
| Grading.PercentageToGradePoint | ums/exams/utils.py:2-24 | the grade point is one of the nine ladder values, 4.0 exactly from 85 percent up, and 0.0 exactly below 50 percent |
| Grading.PercentLadderIsTable | backend/exams/services.py:3-25 | the ladder is the band table 85/80/75/70/65/60/55/50 giving 4.0/3.7/3.3/3.0/2.7/2.3/2.0/1.7, and 0.0 below |
| Grading.GradePointMonotone | ums/exams/utils.py:2-24 | a higher percentage never earns fewer grade points |
| Grading.CgpaOf | backend/exams/services.py:27-43 | the CGPA the service evidently intends, weighting each grade by its course's `credits` (ums/courses/models.py:14): it fails with a division by zero exactly when some exam has zero total marks; otherwise the credits returned are the sum of the courses' credits and the CGPA is a whole number of hundredths |
| Grading.CgpaAsWritten | ums/exams/services.py:12-17 | the service as written succeeds only for a student without grades, answering (0, 0); otherwise the first grade raises: a division by zero when its exam has no total marks, else an attribute error, because the course model defines no `credit_hours` |
| Grading.CgpaAsWrittenAgrees | ums/exams/services.py:4-20 | the service as written and the intended one give the same answer exactly when there is no grade or the first grade's exam has no total marks |
| Grading.CgpaCreditHoursDiscrepancy | backend/exams/services.py:35-40 | one grade of 80 out of 100 in a three-credit course: the service as written raises an attribute error, the intended one answers 3.7 over 3 credits |
| Grading.CalculateStudentCgpa | ums/exams/services.py:4-20 | the loop over the grades, reading each course's `credits`, returns exactly `CgpaOf` |
| Grading.HourPointsBounds | backend/exams/services.py:35-40 | the hour-weighted points lie between 0 and 4 times the credit hours |
| Grading.CgpaInRange | backend/exams/services.py:42 | every CGPA returned lies in [0, 4], whatever the marks |
| Grading.PercentageScaleFree | backend/exams/services.py:36 | scaling an exam's marks and its total marks by the same factor leaves the percentage unchanged |
| Exams.MaxEnrolled | CMS_PROJECT/exams/utils.py:12-16 | no current semester exactly when the student has no enrollment; otherwise the current semester is the number of some enrolled course's semester and no enrolled course's semester is higher |
| Exams.NextCourses | CMS_PROJECT/exams/utils.py:29-36 | a course is among the next courses exactly when it is a course of the given program and semester number; listed in table order, each once |
| Exams.EnrollmentsFor | CMS_PROJECT/exams/utils.py:37-38 | one enrollment of the student per course, in the courses' order |
| Exams.NoneEnrolledSnoc | CMS_PROJECT/enrollments/models.py:15 | the student is enrolled in none of `cs + [c]` exactly when enrolled in none of `cs` and not in `c` |
| Exams.FailedFinalAppend | CMS_PROJECT/exams/utils.py:19-25 | one more result makes the student fail a semester exactly when they already did or the new result is a final of that semester below 50 |
| Exams.EnrollAll | CMS_PROJECT/exams/utils.py:36-38 | the loop of creations keeps every existing enrollment in front and adds at most one enrollment per course, each of the student and for one of the listed courses |
| Exams.Promotion | CMS_PROJECT/exams/utils.py:5-44 | "not promoted" exactly when the student has no enrollment or failed a final of the current semester, and then nothing changes; a failure is the unique-enrollment IntegrityError; only this student changes, and only by graduating when no enrollment was added; new enrollments are the student's, in courses of the next semester, after the existing ones |
| Exams.EnrollAllOk | CMS_PROJECT/exams/utils.py:37-38 | creating the enrollments one by one succeeds exactly when the courses are distinct and the student holds none of them (the unique pair of enrollments/models.py:15); on success the table gains exactly the new enrollments at its end |
| Exams.EnrollAllStops | CMS_PROJECT/exams/utils.py:37-38 | once one `Enrollment.objects.create` raises, the later courses of the loop change nothing |
| Exams.EnrollEach | CMS_PROJECT/exams/utils.py:36-38 | the creation loop computes exactly `EnrollAll`, keeps every enrollment linked to a course and (student, course) unique, and adds only enrollments of the student |
| Exams.PromotionAdvancesSemester | CMS_PROJECT/exams/utils.py:34-38 | after a promotion that created at least one enrollment, the enrollments stay linked to the catalogue and the student's current semester is the next one |
| Exams.MaxAfterAppend | CMS_PROJECT/exams/utils.py:12-16 | appending enrollments all in semester `cur + 1` to a student whose current semester is `cur` makes their current semester `cur + 1` |
| Exams.StudentRows | CMS_PROJECT/exams/views.py:87 | a row appears for every result of the student and every row is the row of one of the student's results, joined with its course's credits and semester |
| Exams.Bucket | CMS_PROJECT/exams/views.py:89-94 | the rows of one semester: only rows of that semester, each row of that semester as often as in the input |
| Exams.GroupByBuckets | CMS_PROJECT/exams/views.py:89-94 | the `semesters` dictionary has a key exactly for each semester present among the rows, and each key maps to that semester's rows in query order |
| Exams.BucketEmpty | CMS_PROJECT/exams/views.py:89-94 | a semester none of the rows belongs to has no rows |
| Exams.BucketInvalid | CMS_PROJECT/exams/views.py:96-103 | a semester list with marks outside 0..100 means the whole result list has such marks, so the overall CGPA raises too |
| Exams.GroupBySemester | CMS_PROJECT/exams/views.py:89-94 | the first transcript loop builds the grouping that `Exams.GroupByBuckets` characterises |
| Exams.SemesterGpas | CMS_PROJECT/exams/views.py:96-99 | the per-semester loop raises the marks-range ValueError exactly when some semester holds marks outside 0..100; otherwise it has a GPA for every semester and each is `calculate_gpa` of that semester's results |
| Exams.ExamsDb.constructor | CMS_PROJECT/exams/models.py:37-40 | an exams database over a valid catalogue starts with no results and no enrollments |
| Exams.SaveResultValid | CMS_PROJECT/exams/models.py:37-40 | saving a result for a known exam and student with no result yet for that exam keeps every table invariant, including unique (exam, student) |
| Exams.PromoteStudentIfPassed | CMS_PROJECT/exams/utils.py:5-44 | no enrollment or a failed final (below 50) in the current semester returns False and changes nothing; with a next semester the student is enrolled in all its courses in order (an existing enrollment raises IntegrityError and stops the loop); without one the student is graduated; True otherwise; the tables stay valid |
| Exams.ExamsDb.AddExamResult | CMS_PROJECT/exams/views.py:7-28 | a role other than faculty or admin is redirected to "unauthorized" and nothing changes; an invalid form changes nothing; otherwise the result is appended, and after a final exam the promotion runs, its IntegrityError escaping the view |
| Exams.ExamsDb.MyTranscript | CMS_PROJECT/exams/views.py:76-109 | non-students are redirected; a user without a student profile raises; otherwise the page raises exactly when some result's marks are outside 0..100, and holds the grouping by semester, each semester's GPA and the overall CGPA over all the student's results |
| Chatbot.LowerChar | CMS_PROJECT/chatbot/llm.py:38 | `str.lower` on one ASCII character: capitals move to the lower-case letter, everything else is kept |
| Chatbot.Lower | CMS_PROJECT/chatbot/llm.py:38 | `question.lower()` keeps the length and lowers each character |
| Chatbot.DropSpaceHead | CMS_PROJECT/chatbot/llm.py:38 | dropping one leading space neither adds nor removes an occurrence of a keyword without spaces |
| Chatbot.DropSpaceTail | CMS_PROJECT/chatbot/llm.py:38 | dropping one trailing space neither adds nor removes an occurrence of a keyword without spaces |
| Chatbot.TrimLeftKeepsWords | CMS_PROJECT/chatbot/llm.py:38 | removing leading whitespace keeps exactly the keyword occurrences |
| Chatbot.TrimRightKeepsWords | CMS_PROJECT/chatbot/llm.py:38 | removing trailing whitespace keeps exactly the keyword occurrences |
| Chatbot.StripKeepsWords | CMS_PROJECT/chatbot/llm.py:38 | `strip()` keeps exactly the keyword occurrences |
| Chatbot.Label | CMS_PROJECT/chatbot/llm.py:35-52 | `detect_intent` answers one of the six labels greeting, gpa, courses, promotion, transcript, general |
| Chatbot.AnyOfTwo | CMS_PROJECT/chatbot/llm.py:45-50 | "some of two keywords occurs" is the `or` of the two `in` tests |
| Chatbot.ClassifyIsFirstRule | CMS_PROJECT/chatbot/llm.py:40-52 | the if-elif chain is the first matching rule of the priority table greetings, gpa, course/subject, promoted/promotion, transcript/result, and general when none matches |
| Chatbot.Classify | CMS_PROJECT/chatbot/llm.py:40-52 | the answer is "greeting" exactly when a greeting word occurs, and "gpa", "courses", "promotion" and "transcript" only when one of that rule's keywords occurs |
| Chatbot.DetectIntent | CMS_PROJECT/chatbot/llm.py:35-52 | the intent of a question is the keyword classification of its lower-cased text (stripping never matters), and it is "greeting" exactly when that text holds a greeting word |
| Chatbot.KeywordsAreWords | CMS_PROJECT/chatbot/llm.py:40-50 | every keyword is non-empty and holds no whitespace |
| Chatbot.StripIrrelevant | CMS_PROJECT/chatbot/llm.py:38 | the `strip()` of `detect_intent` never changes the intent |
| Chatbot.GeneralIffNoKeyword | CMS_PROJECT/chatbot/llm.py:35-52 | the intent is "general" exactly when the lower-cased question contains none of the keywords |
| Chatbot.GreetingWins | CMS_PROJECT/chatbot/llm.py:40-42 | a question containing a greeting is a greeting whatever else it contains |
| Chatbot.ThisIsAGreeting | CMS_PROJECT/chatbot/llm.py:40-42 | any question containing "this" (which contains "hi") is classified as a greeting |
| Chatbot.CaseInsensitive | CMS_PROJECT/chatbot/llm.py:38 | lower-casing the question first does not change its intent |
| Chatbot.GetStudentGpa | CMS_PROJECT/chatbot/llm.py:103-129 | no results answers "No exam results found."; otherwise the CGPA is the credit-weighted mean of the points ladder rounded to two places, 0 without credits |
| Chatbot.ChatGpaAgreesWithTranscript | CMS_PROJECT/chatbot/llm.py:107-129 | on marks within 0..100 the chatbot's CGPA equals `calculate_gpa` of exams/utils.py over the same results |
| Chatbot.GpaReply | CMS_PROJECT/chatbot/llm.py:112-129 | no results gives the "No exam results found." text and any result gives a CGPA; zero total credits gives 0.0; the CGPA lies in [0, 4] even for marks outside 0..100 |
| Chatbot.ProgramSemesterCount | CMS_PROJECT/chatbot/llm.py:161 | the number of semesters of the student's program is at most the number of semesters in the catalogue, and is zero exactly when the program has none |
| Chatbot.PromotionStatus | CMS_PROJECT/chatbot/llm.py:156-166 | "completed all semesters" exactly when the student has an enrollment and its highest semester number is at least the program's semester count |
| Chatbot.CompletedIffNoNextSemester | CMS_PROJECT/chatbot/llm.py:160-166 | when the program's semesters are numbered 1..n, "completed" is said exactly when `promote_student_if_passed` finds no next semester and would graduate the student |
| Chatbot.EnrolledCourses | CMS_PROJECT/chatbot/llm.py:140-145 | the listed courses are exactly the student's enrolled courses; the list is empty exactly when the student has no enrollment |
| Chatbot.HandleRealData | CMS_PROJECT/chatbot/llm.py:75-89 | the question reaches the model, unchanged, exactly when its intent is general; the greeting reply is given exactly for the greeting intent; a CGPA reply comes only for the gpa intent and lies in [0, 4] |
| RollNumbers.RollNo | backend/students/signals.py:11 | a roll number is "ROLL-" followed by at least four decimal digits |
| RollNumbers.ParseRollNo | backend/students/signals.py:11 | a roll number is read back only from text that starts with "ROLL-" |
| RollNumbers.RollNoRoundTrip | backend/students/signals.py:11 | reading back the roll number of user `id` gives `id` |
| RollNumbers.RollNoInjective | backend/students/signals.py:11 | two users never receive the same roll number |
| RollNumbers.ShortIdLength | backend/students/signals.py:11 | ids below 10000 give roll numbers of exactly nine characters |
| RollNumbers.ProfileOnSave | backend/students/signals.py:6-12 | a profile is created exactly when the saved user is new and has the STUDENT role; it belongs to that user and its roll number reads back as the user's id |
| Common.Max0 | CMS_PROJECT/fees/views.py:155 | `max(0, x)` is the larger of 0 and x |
| Common.Round2 | CMS_PROJECT/exams/utils.py:86 | two-place rounding gives a whole number of hundredths within half a hundredth of the input |
| Common.Round2OfCents | ums/payroll/utils.py:33-35 | an amount already in whole cents is unchanged by `quantize(Decimal('0.01'))` |
| Common.Round2Idempotent | ums/payroll/utils.py:33-35 | rounding twice is rounding once |
| Common.Round2Between | CMS_PROJECT/exams/utils.py:86 | rounding a value between two whole-cent bounds stays between them |
| Common.NatToDigits | backend/students/signals.py:11 | the decimal form of a number is a non-empty string of digits |
| Common.ZeroPad | backend/students/signals.py:11 | the `04d` padding keeps digit strings digits and makes them at least four long |
| Common.DigitsRoundTrip | backend/students/signals.py:11 | the value of a number's decimal form is the number |
| Common.ZeroPadValue | backend/students/signals.py:11 | padding a number's decimal form with zeros keeps its value |
| Common.DigitsLengthBound | backend/students/signals.py:11 | a number below 10^k has at most k digits |
| Common.Split | ums/payroll/views.py:106 | `split('-')` always yields at least one piece |
| Common.SplitJoin | ums/payroll/views.py:106 | splitting `a + '-' + b`, with no '-' in `a`, gives `a` followed by the pieces of `b` |
| Common.SplitNoSep | ums/payroll/views.py:106 | text without the separator splits into itself alone |
| Common.ParseInt | ums/sports/views.py:69 | `int()` of a string reads a numeral, or a numeral after '-' as its negative, and fails on anything else |
| Common.IntToString | ums/sports/views.py:69 | the decimal spelling of an integer is a numeral, after a '-' when negative |
| Common.ParseIntRoundTrip | ums/sports/views.py:69 | reading back the decimal spelling of any integer gives the integer |

## Left out

- Django ORM plumbing (querysets, `select_related`, `aggregate`, `get_or_create`, migrations): tables are in-memory maps and sequences. The unique columns the records carry are class invariants, and a request that would break one is refused: room numbers per hostel, library cards and reservations, gym memberships, tournament registrations, vehicle numbers, transport passes, fee structures, exam results per (exam, student), enrollments per (student, course), and challan, receipt and invoice reference numbers; payslips are keyed by their unique (run, employee) pair. Unique columns the records do not carry (ISBNs, copy numbers, the hostel app's student and staff ids, a payroll run's month, a lending's borrow time) are assumed to hold.
- Field validation other than uniqueness and foreign keys (`max_length`, decimal digits, date formats): values are taken as well-formed. When several fields fail, DRF reports them all in one 400 body; the model answers with the first failing field's message in the serializer's field order.
- Concurrency (`transaction.atomic`, `select_for_update`): each method runs alone from start to finish, so row locking and interleavings are not modelled.
- Notifications (`send_notification` and the notification apps): fire-and-forget writes with no effect on the modelled tables.
- Clocks (`date.today()`, `timezone.now()`): today and now are parameters, and calendar arithmetic is integer subtraction of day or second numbers.
- Binary floating point and the storage precision of `DecimalField` (`max_digits`): values are exact reals or integer cents, and two-place rounding is half-to-even on exact values.
- Reply and page text: Python's float formatting in chatbot replies, the course-name list and transcript-summary lines, templates, forms rendering, serializers, urls and admin display columns; replies carry the values they would print.
- `str.lower` and `str.strip` beyond the characters modelled: only ASCII capitals are lowered, and only space, \t, \n, \r, \v and \f are stripped (`str.strip` also removes the separators \x1c-\x1f and non-ASCII whitespace).
- The chatbot's language detection, translation and question-answering pipelines (`CMS_PROJECT/chatbot/llm.py:9-73`): foreign model calls; the question handed to them is the modelled result.
- `Book.can_borrow`: its body is not part of this model, so its verdict is a parameter of the borrow operation.
- Role-string permission classes of the DRF views: not modelled, except the role checks the exams views make themselves.
- GET requests of the form views: only the POST paths that write tables are modelled.
- Result ordering from model `Meta` options: rows are taken in insertion order, and enrollments in the catalogue's course order.
- The text of DRF's 404 and 400 bodies and of `int()` parse errors: a 404 or a parse error is a `NotFound` or `ServerError` response without its exact message; a 400 carries the message alone, without the field name or list around it, and DRF's `Invalid pk "X" - object does not exist.` is kept without the pk (`Fees.InvalidChallanMsg`, `Invoices.InvalidInvoiceMsg`, `Sports.UnknownTournamentMsg`).
- `Sports.SportsDb.AddMembership`, `HostelRooms.RoomsDb.AddRoom`, `Transport.TransportDb.AddVehicle`, `Hostel.HostelDb.SaveRoom`, `Library.LibraryDb.SaveReservation` and `Library.LibraryDb.SaveCard` model the ORM save of the model they cite, which answers a unique clash with an `IntegrityError`; through a DRF `ModelSerializer` the same clash is a 400 carrying the validator's message, refused before any save.
- `int()` on a '+' sign, surrounding spaces or digit underscores, and on a JSON number that is not whole: the sports `quantity` is taken as a string, read as a numeral with an optional '-'.
- Request values of the hostel actions (`Hostel.StaffIdGiven`, the cost and notes of `HostelModels.CompleteMaintenance`, the method and reference of `HostelModels.PayPayment`) are JSON values tested for truth as Python does: a missing value, 0 and the empty string are falsy. A staff id or cost sent as a non-empty string such as "0" is truthy in the source and is not modelled.
- The join from a grade to its course through the enrollment: each grade row carries its marks, its exam's total marks and its course's `credits` as given.
- Dashboards, analytics, parents and CSV export: reporting with no state to protect.
- Files that fail to import as written (`ums/payroll/tasks.py`, `ums/hostel/tasks.py`, `ums/fees/urls.py`, `ums/dashboards/views.py`): they never run.
- `backend/exams/signals.py`: it stores `calculate_student_cgpa`'s answer on the student after every grade save and delete, so with the service as written (`Grading.CgpaAsWritten`) the grade write is followed by an attribute error.
- Framework hooks with no logic of their own (`backend/faculty/signals.py`, `apps.py`, `backend/users/models.py`).
- `CMS_PROJECT/exams/templatetags/filters.py`: a wrapper over `calculate_grade`, which is modelled.

## Findings

| source | as written | input that shows it | evidently intended | confidence | as-written member | corrected member |
|---|---|---|---|---|---|---|
| CMS_PROJECT/library/views.py:238-246 | `return_book` sets the status to returned and then asks `is_overdue`, which is false for a returned loan, so the fine branch never runs | a loan due on day 10 returned on day 13 keeps fine 0.00 | an overdue return is fined 1.00 per day overdue, measured before the status changes (3.00 here) | high, not executed | LibraryModels.ReturnFineDiscrepancy | LibraryModels.ReturnWithFine |
| CMS_PROJECT/hostel/models.py:125-131 | `Student.save` adds one to the room and hostel counters on every save of an active student with a room and never gives one back, so a check-out does not release the place | a student saved on arrival and saved again once checked out leaves room and hostel occupancy at 1, where `CMS_PROJECT/hostel/tests.py:442-472` expects 0 | a save gives the place back when the record it replaces held one, so each counter equals its active residents | high, not executed | HostelModels.CheckOutLeavesCounterRaised | HostelModels.ReleasingSaveCountsResidents |
| ums/exams/services.py:15 and backend/exams/services.py:38 | `calculate_student_cgpa` reads `grade.enrollment.course.credit_hours`, but the course model defines only `credits` (ums/courses/models.py:14), so the first grade whose exam has a non-zero total raises `AttributeError`; the backend signal runs this on every grade save and delete | one grade of 80 out of 100 in a three-credit course raises instead of answering 3.7 over 3 credits | weight each grade by its course's `credits` | high for ums, where the course model is visible; backend/courses/models.py is not part of this model, and its serializer and admin list only `credits`; not executed | Grading.CgpaCreditHoursDiscrepancy | Grading.CgpaOf |
| ums/fees/views.py:74-75 | the overdue report filters `due_date__lt=F('due_date')`, comparing each invoice's due date with itself | an unpaid invoice due 30 days ago is not listed, though the overdue alerts select it | list the unpaid invoices due before today | high, not executed | Invoices.OverdueReportAlwaysEmpty | Invoices.OverdueReport |
