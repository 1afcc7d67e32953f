/** The sports app: equipment lent out in quantities, with an
    available-quantity counter, return fines and a daily fine sweep;
    tournaments with a registration capacity; gym memberships with expiry
    reminders. Money is in integer cents. */
module Sports {
  import opened Common

  /** The default `EQUIPMENT_FINE_PER_DAY`, 5.00. */
  const DefaultEquipmentFinePerDayCents: nat := 500
  /** The default lead time of membership expiry reminders. */
  const DefaultReminderDays: nat := 7

  const EquipmentNotFoundMsg: string := "Equipment not found"
  const NotEnoughMsg: string := "Not enough available quantity"
  const NegativeQuantityMsg: string := "Ensure this value is greater than or equal to 0."
  const AlreadyReturnedMsg: string := "Already returned"
  const IssueNotFoundMsg: string := "No EquipmentIssue matches the given query."
  const CapacityFullMsg: string := "Tournament capacity full."
  const AlreadyRegisteredMsg: string := "The fields tournament, student must make a unique set."
  const UnknownTournamentMsg: string := "Invalid pk - object does not exist."
  const IntegrityMsg: string := "IntegrityError"

  datatype Equipment = Equipment(totalQuantity: nat, availableQuantity: nat, isActive: bool)

  datatype EquipmentIssue = EquipmentIssue(
    equipment: nat,
    issuedTo: nat,
    quantity: nat,
    dueDate: Date,
    returned: bool,
    returnedAt: Option<Date>,
    overdueFineCents: int)

  datatype Tournament = Tournament(capacity: nat, isActive: bool)

  datatype TournamentRegistration = TournamentRegistration(tournament: nat, student: nat)

  datatype GymMembership = GymMembership(student: nat, facility: nat, startDate: Date, endDate: Date, isActive: bool)

  function NewEquipment(): (e: Equipment)
    ensures e.totalQuantity == 1 && e.availableQuantity == 1 && e.isActive
  {
    Equipment(1, 1, true)
  }

  /** An issue as created: the `returned` flag and the fine are writable
      and stored as sent, not returned and no fine by default; the return
      date is read-only and empty. */
  function NewIssue(equipment: nat, student: nat, quantity: nat, due: Date,
                    returned: Option<bool>, fineCents: Option<int>): (i: EquipmentIssue)
    ensures i.equipment == equipment && i.issuedTo == student && i.quantity == quantity && i.dueDate == due
    ensures i.returned == (returned.Some? && returned.value) && i.returnedAt.None?
    ensures i.overdueFineCents == (if fineCents.Some? then fineCents.value else 0)
  {
    EquipmentIssue(equipment, student, quantity, due,
                   if returned.Some? then returned.value else false, None,
                   if fineCents.Some? then fineCents.value else 0)
  }

  /** A tournament as created from the defaults: capacity zero. */
  function NewTournament(): (t: Tournament)
    ensures t.capacity == 0 && t.isActive
  {
    Tournament(0, true)
  }

  /** `Equipment.can_issue(qty)`. */
  predicate CanIssue(e: Equipment, qty: int)
  {
    e.availableQuantity >= qty
  }

  /** `qty` defaults to one. */
  lemma CanIssueDefault(e: Equipment)
    ensures CanIssue(e, 1) <==> e.availableQuantity > 0
  {
  }

  /** Stock that covers a quantity covers every smaller one, and a zero or
      negative quantity is always covered while stock is not negative. */
  lemma CanIssueMonotone(e: Equipment, qty: int, smaller: int)
    ensures CanIssue(e, qty) && smaller <= qty ==> CanIssue(e, smaller)
    ensures e.availableQuantity >= 0 && qty <= 0 ==> CanIssue(e, qty)
  {
  }

  /** Whole days late on `today`, zero when not late. */
  function DaysLate(due: Date, today: Date): (d: nat)
    ensures today > due ==> d == today - due
    ensures today <= due ==> d == 0
  {
    if today > due then today - due else 0
  }

  /** The `overdue_fine` a return records: days late times the rate. */
  function ReturnFine(due: Date, today: Date, ratePerDayCents: nat): (c: nat)
    ensures c == DaysLate(due, today) * ratePerDayCents
    ensures today <= due ==> c == 0
  {
    DaysLate(due, today) * ratePerDayCents
  }

  /** Returning late costs the rate for every day after the due date: one
      more day late costs exactly one more day's rate. */
  lemma ReturnFineGrowsDaily(due: Date, today: Date, rate: nat)
    requires today >= due
    ensures ReturnFine(due, today + 1, rate) == ReturnFine(due, today, rate) + rate
  {
    assert DaysLate(due, today + 1) == DaysLate(due, today) + 1;
  }

  // ---------------------------------------------------------------------
  // The daily equipment fine sweep.
  // ---------------------------------------------------------------------

  predicate IsOverdueIssue(i: EquipmentIssue, today: Date)
  {
    !i.returned && i.dueDate < today
  }

  /** An unreturned issue stays overdue as days pass; a returned one never
      is, and an overdue issue has at least one day's fine to pay. */
  lemma IssueOverdueLifecycle(i: EquipmentIssue, today: Date, later: Date, rate: nat)
    requires today <= later
    ensures IsOverdueIssue(i, today) ==> IsOverdueIssue(i, later)
    ensures i.returned ==> !IsOverdueIssue(i, later)
    ensures IsOverdueIssue(i, today) ==> ReturnFine(i.dueDate, today, rate) >= rate
  {
    if IsOverdueIssue(i, today) {
      assert DaysLate(i.dueDate, today) >= 1;
      assert DaysLate(i.dueDate, today) * rate - rate == (DaysLate(i.dueDate, today) - 1) * rate;
    }
  }

  /** `apply_equipment_overdue_fines`: every unreturned issue past its due
      date gets its fine overwritten with days late times the rate; the
      others are untouched. */
  function EquipmentSweep(issues: map<nat, EquipmentIssue>, today: Date, rate: nat)
    : (m: map<nat, EquipmentIssue>)
    ensures m.Keys == issues.Keys
    ensures forall id :: id in issues && IsOverdueIssue(issues[id], today) ==>
              m[id] == issues[id].(overdueFineCents := (today - issues[id].dueDate) * rate)
    ensures forall id :: id in issues && !IsOverdueIssue(issues[id], today) ==> m[id] == issues[id]
  {
    map id | id in issues ::
      if IsOverdueIssue(issues[id], today) then issues[id].(overdueFineCents := (today - issues[id].dueDate) * rate)
      else issues[id]
  }

  /** The sweep overwrites, so a second run on the same day changes
      nothing. */
  lemma EquipmentSweepIdempotent(issues: map<nat, EquipmentIssue>, today: Date, rate: nat)
    ensures EquipmentSweep(EquipmentSweep(issues, today, rate), today, rate) == EquipmentSweep(issues, today, rate)
  {
    var once := EquipmentSweep(issues, today, rate);
    var twice := EquipmentSweep(once, today, rate);
    forall id | id in twice
      ensures twice[id] == once[id]
    {
      assert IsOverdueIssue(once[id], today) <==> IsOverdueIssue(issues[id], today);
    }
  }

  /** The sweep and a later return agree on the fine: an issue swept on the
      day it is returned is returned with the same fine. */
  lemma SweepAgreesWithReturn(issues: map<nat, EquipmentIssue>, today: Date, rate: nat, id: nat)
    requires id in issues && IsOverdueIssue(issues[id], today)
    ensures EquipmentSweep(issues, today, rate)[id].overdueFineCents == ReturnFine(issues[id].dueDate, today, rate)
  {
  }

  // ---------------------------------------------------------------------
  // Tournament registrations and membership reminders.
  // ---------------------------------------------------------------------

  function RegistrationsOf(regs: map<nat, TournamentRegistration>, t: nat): (s: set<nat>)
    ensures forall id :: id in s <==> id in regs && regs[id].tournament == t
  {
    set id | id in regs && regs[id].tournament == t
  }

  /** `Tournament.registrations_count`. */
  function RegistrationsCount(regs: map<nat, TournamentRegistration>, t: nat): (n: nat)
    ensures n == |RegistrationsOf(regs, t)|
    ensures n <= |regs|
  {
    assert RegistrationsOf(regs, t) <= regs.Keys;
    SubsetCard(RegistrationsOf(regs, t), regs.Keys);
    |RegistrationsOf(regs, t)|
  }

  lemma SubsetCard<T>(a: set<T>, b: set<T>)
    requires a <= b
    ensures |a| <= |b|
  {
    assert b == a + (b - a);
  }

  /** Adding a registration under a fresh id counts once for its tournament
      and not at all for any other. */
  lemma AddRegistrationCount(regs: map<nat, TournamentRegistration>, id: nat, r: TournamentRegistration, t: nat)
    requires id !in regs
    ensures RegistrationsCount(regs[id := r], t)
            == RegistrationsCount(regs, t) + (if r.tournament == t then 1 else 0)
  {
    if r.tournament == t {
      assert RegistrationsOf(regs[id := r], t) == RegistrationsOf(regs, t) + {id};
    } else {
      assert RegistrationsOf(regs[id := r], t) == RegistrationsOf(regs, t);
    }
  }

  /** `send_membership_expiry_reminders`: the active memberships ending
      exactly `daysBefore` days after today. */
  function ExpiringMemberships(ms: map<nat, GymMembership>, today: Date, daysBefore: int): (s: set<nat>)
    ensures forall id :: id in s <==> id in ms && ms[id].isActive && ms[id].endDate - today == daysBefore
  {
    set id | id in ms && ms[id].isActive && ms[id].endDate == today + daysBefore
  }

  /** With a fixed lead time, a membership is reminded on one day only. */
  lemma RemindedOnce(ms: map<nat, GymMembership>, d1: Date, d2: Date, daysBefore: int, id: nat)
    requires id in ExpiringMemberships(ms, d1, daysBefore) && id in ExpiringMemberships(ms, d2, daysBefore)
    ensures d1 == d2
  {
  }

  predicate MembershipsUnique(ms: map<nat, GymMembership>)
  {
    forall i, j :: i in ms && j in ms && i != j ==>
      (ms[i].student, ms[i].facility, ms[i].startDate) != (ms[j].student, ms[j].facility, ms[j].startDate)
  }

  predicate RegistrationsUnique(regs: map<nat, TournamentRegistration>)
  {
    forall i, j :: i in regs && j in regs && i != j ==> regs[i] != regs[j]
  }

  // ---------------------------------------------------------------------
  // The tables and the operations.
  // ---------------------------------------------------------------------

  /** The loop of `apply_equipment_overdue_fines`: each overdue issue in
      turn has its fine overwritten with the days late times the rate. */
  method SweepIssues(before: map<nat, EquipmentIssue>, today: Date, ratePerDayCents: nat)
    returns (table: map<nat, EquipmentIssue>)
    ensures table == EquipmentSweep(before, today, ratePerDayCents)
  {
    var todo := set id | id in before && IsOverdueIssue(before[id], today);
    table := before;
    while todo != {}
      invariant todo <= before.Keys
      invariant forall id :: id in todo ==> IsOverdueIssue(before[id], today)
      invariant table.Keys == before.Keys
      invariant forall id :: id in before && id in todo ==> table[id] == before[id]
      invariant forall id :: id in before && id !in todo ==>
        table[id] == EquipmentSweep(before, today, ratePerDayCents)[id]
      decreases |todo|
    {
      var id :| id in todo;
      var issue := table[id];
      table := table[id := issue.(overdueFineCents := (today - issue.dueDate) * ratePerDayCents)];
      todo := todo - {id};
    }
  }

  class SportsDb {
    var equipment: map<nat, Equipment>
    var issues: map<nat, EquipmentIssue>
    var tournaments: map<nat, Tournament>
    var registrations: map<nat, TournamentRegistration>
    var memberships: map<nat, GymMembership>
    var nextId: nat

    /** Foreign keys resolve, the unique-together rules hold, and `nextId`
        is above every issue and registration id. */
    ghost predicate Valid()
      reads this
    {
      (forall id :: id in issues ==> issues[id].equipment in equipment)
      && (forall id :: id in registrations ==> registrations[id].tournament in tournaments)
      && RegistrationsUnique(registrations)
      && MembershipsUnique(memberships)
      && (forall id :: id in issues ==> id < nextId)
      && (forall id :: id in registrations ==> id < nextId)
    }

    constructor()
      ensures Valid()
      ensures equipment == map[] && issues == map[] && tournaments == map[]
      ensures registrations == map[] && memberships == map[]
    {
      equipment := map[];
      issues := map[];
      tournaments := map[];
      registrations := map[];
      memberships := map[];
      nextId := 0;
    }

    /** `IssueEquipmentView.create`: `quantity` is the request value as
        sent, one when absent; a value `int()` cannot read raises. Active
        equipment with enough stock is issued and its available quantity
        drops by exactly the quantity. */
    method Issue(equipmentId: nat, student: nat, quantity: Option<string>, due: Date,
                 returned: Option<bool>, fineCents: Option<int>)
      returns (resp: Response, id: nat)
      requires Valid()
      modifies this
      ensures Valid()
      ensures tournaments == old(tournaments) && registrations == old(registrations)
      ensures memberships == old(memberships)
      ensures equipmentId !in old(equipment) || !old(equipment)[equipmentId].isActive ==>
                resp == NotFound(EquipmentNotFoundMsg)
      ensures equipmentId in old(equipment) && old(equipment)[equipmentId].isActive
              && quantity.Some? && ParseInt(quantity.value).None? ==>
                resp == ServerError(ValueErrorMsg)
      ensures equipmentId in old(equipment) && old(equipment)[equipmentId].isActive
              && (quantity.None? || ParseInt(quantity.value).Some?) ==>
                var qty := if quantity.Some? then ParseInt(quantity.value).value else 1;
                var e := old(equipment)[equipmentId];
                (!CanIssue(e, qty) ==> resp == BadRequest(NotEnoughMsg))
                && (CanIssue(e, qty) && qty < 0 ==> resp == BadRequest(NegativeQuantityMsg))
                && (CanIssue(e, qty) && qty >= 0 ==>
                      resp == Created && id !in old(issues)
                      && issues == old(issues)[id := NewIssue(equipmentId, student, qty, due, returned, fineCents)]
                      && equipment == old(equipment)[equipmentId := e.(availableQuantity := e.availableQuantity - qty)])
      ensures !resp.IsSuccess() ==> equipment == old(equipment) && issues == old(issues)
    {
      id := nextId;
      if equipmentId !in equipment || !equipment[equipmentId].isActive {
        return NotFound(EquipmentNotFoundMsg), id;
      }
      var qty := 1;
      if quantity.Some? {
        var parsed := ParseInt(quantity.value);
        if parsed.None? {
          return ServerError(ValueErrorMsg), id;
        }
        qty := parsed.value;
      }
      var e := equipment[equipmentId];
      if !CanIssue(e, qty) {
        return BadRequest(NotEnoughMsg), id;
      }
      if qty < 0 {
        return BadRequest(NegativeQuantityMsg), id;
      }
      issues := issues[id := NewIssue(equipmentId, student, qty, due, returned, fineCents)];
      nextId := nextId + 1;
      equipment := equipment[equipmentId := e.(availableQuantity := e.availableQuantity - qty)];
      resp := Created;
    }

    /** `ReturnEquipmentView.update`: records the return with its late fine
        and puts the issued quantity back (no cap at the total). Reports
        whether a fine notice goes out. */
    method Return(id: nat, today: Date, ratePerDayCents: nat) returns (resp: Response, notify: bool)
      requires Valid()
      modifies this
      ensures Valid()
      ensures tournaments == old(tournaments) && registrations == old(registrations)
      ensures memberships == old(memberships)
      ensures id !in old(issues) ==> resp == NotFound(IssueNotFoundMsg)
      ensures id in old(issues) && old(issues)[id].returned ==> resp == BadRequest(AlreadyReturnedMsg)
      ensures !resp.IsSuccess() ==> equipment == old(equipment) && issues == old(issues) && !notify
      ensures resp.IsSuccess() <==> id in old(issues) && !old(issues)[id].returned
      ensures resp.IsSuccess() ==>
                var i := old(issues)[id];
                var e := old(equipment)[i.equipment];
                var fine := ReturnFine(i.dueDate, today, ratePerDayCents);
                resp == Ok
                && issues == old(issues)[id := i.(returned := true, returnedAt := Some(today), overdueFineCents := fine)]
                && equipment == old(equipment)[i.equipment := e.(availableQuantity := e.availableQuantity + i.quantity)]
                && (notify <==> fine > 0)
    {
      if id !in issues {
        return NotFound(IssueNotFoundMsg), false;
      }
      var i := issues[id];
      if i.returned {
        return BadRequest(AlreadyReturnedMsg), false;
      }
      var fine := ReturnFine(i.dueDate, today, ratePerDayCents);
      issues := issues[id := i.(returned := true, returnedAt := Some(today), overdueFineCents := fine)];
      var e := equipment[i.equipment];
      equipment := equipment[i.equipment := e.(availableQuantity := e.availableQuantity + i.quantity)];
      notify := fine > 0;
      resp := Ok;
    }

    /** `apply_equipment_overdue_fines`, one issue at a time. */
    method ApplyEquipmentOverdueFines(today: Date, ratePerDayCents: nat)
      requires Valid()
      modifies this
      ensures Valid()
      ensures issues == EquipmentSweep(old(issues), today, ratePerDayCents)
      ensures equipment == old(equipment) && tournaments == old(tournaments)
      ensures registrations == old(registrations) && memberships == old(memberships)
    {
      issues := SweepIssues(issues, today, ratePerDayCents);
    }

    /** `StudentRegisterTournamentView.create`: the serializer rejects an
        unknown tournament or a second registration of the same student;
        then a tournament already at capacity is refused. */
    method Register(tournamentId: nat, student: nat) returns (resp: Response, id: nat)
      requires Valid()
      modifies this
      ensures Valid()
      ensures equipment == old(equipment) && issues == old(issues) && memberships == old(memberships)
      ensures tournaments == old(tournaments)
      ensures tournamentId !in old(tournaments) ==> resp == BadRequest(UnknownTournamentMsg)
      ensures tournamentId in old(tournaments) && TournamentRegistration(tournamentId, student) in old(registrations).Values ==>
                resp == BadRequest(AlreadyRegisteredMsg)
      ensures tournamentId in old(tournaments) && TournamentRegistration(tournamentId, student) !in old(registrations).Values
              && RegistrationsCount(old(registrations), tournamentId) >= old(tournaments)[tournamentId].capacity ==>
                resp == BadRequest(CapacityFullMsg)
      ensures !resp.IsSuccess() ==> registrations == old(registrations)
      ensures resp.IsSuccess() ==>
                resp == Created && id !in old(registrations)
                && registrations == old(registrations)[id := TournamentRegistration(tournamentId, student)]
                && RegistrationsCount(registrations, tournamentId) == RegistrationsCount(old(registrations), tournamentId) + 1
                && RegistrationsCount(registrations, tournamentId) <= tournaments[tournamentId].capacity
    {
      id := nextId;
      if tournamentId !in tournaments {
        return BadRequest(UnknownTournamentMsg), id;
      }
      var r := TournamentRegistration(tournamentId, student);
      if r in registrations.Values {
        return BadRequest(AlreadyRegisteredMsg), id;
      }
      if RegistrationsCount(registrations, tournamentId) >= tournaments[tournamentId].capacity {
        return BadRequest(CapacityFullMsg), id;
      }
      AddRegistrationCount(registrations, id, r, tournamentId);
      registrations := registrations[id := r];
      nextId := nextId + 1;
      resp := Created;
    }

    /** Creating a gym membership, refused by the database when the student
        already has one for that facility starting that day. */
    method AddMembership(id: nat, m: GymMembership) returns (resp: Response)
      requires Valid()
      modifies this
      ensures Valid()
      ensures equipment == old(equipment) && issues == old(issues)
      ensures tournaments == old(tournaments) && registrations == old(registrations)
      ensures var clash := (exists j :: j in old(memberships) && j != id
                                && (old(memberships)[j].student, old(memberships)[j].facility, old(memberships)[j].startDate)
                                   == (m.student, m.facility, m.startDate));
              (clash ==> resp == ServerError(IntegrityMsg) && memberships == old(memberships))
              && (!clash ==> resp == Created && memberships == old(memberships)[id := m])
    {
      if exists j | j in memberships :: j != id
           && (memberships[j].student, memberships[j].facility, memberships[j].startDate) == (m.student, m.facility, m.startDate) {
        return ServerError(IntegrityMsg);
      }
      memberships := memberships[id := m];
      resp := Created;
    }
  }
}
