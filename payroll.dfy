/** Payroll in the university back end: a payslip computed from an
    employee's salary template (a basic pay plus earning and deduction
    components, fixed or a percentage of basic), the upsert of one payslip
    per run and employee, the run's status machine, and the month filter of
    the payslip list. Decimal amounts are exact reals; `quantize(0.01)` is
    `Round2`. */
module Payroll {
  import opened Common

  const AlreadyProcessedMsg: string := "Payroll already processed or processing."
  const DoesNotExistMsg: string := "DoesNotExist"
  const IndexErrorMsg: string := "IndexError"

  /** A component's type; every type other than `EARNING` is treated as a
      deduction. */
  datatype ComponentType = Earning | Deduction

  /** One component of a template, with the template's own value. */
  datatype SalaryLine = SalaryLine(code: string, name: string, componentType: ComponentType, isPercentage: bool, value: real)

  datatype SalaryTemplate = SalaryTemplate(basic: real, lines: seq<SalaryLine>)

  datatype BreakdownEntry = BreakdownEntry(kind: ComponentType, code: string, name: string, amount: real)

  datatype Computed = Computed(gross: real, deductions: real, net: real, breakdown: seq<BreakdownEntry>)

  // ---------------------------------------------------------------------
  // The payslip computation.
  // ---------------------------------------------------------------------

  /** What one component contributes: a percentage of basic, or its fixed
      value. */
  function LineAmount(basic: real, l: SalaryLine): (a: real)
    ensures l.isPercentage ==> a * 100.0 == basic * l.value
    ensures !l.isPercentage ==> a == l.value
  {
    if l.isPercentage then (basic * l.value) / 100.0 else l.value
  }

  /** The sum of the earning components. */
  function EarningsOf(basic: real, lines: seq<SalaryLine>): real
    decreases |lines|
  {
    if |lines| == 0 then 0.0
    else EarningsOf(basic, lines[..|lines| - 1])
         + (if lines[|lines| - 1].componentType == Earning then LineAmount(basic, lines[|lines| - 1]) else 0.0)
  }

  /** The sum of the other components. */
  function DeductionsOf(basic: real, lines: seq<SalaryLine>): real
    decreases |lines|
  {
    if |lines| == 0 then 0.0
    else DeductionsOf(basic, lines[..|lines| - 1])
         + (if lines[|lines| - 1].componentType != Earning then LineAmount(basic, lines[|lines| - 1]) else 0.0)
  }

  /** The breakdown entry of one component. */
  function EntryOf(basic: real, l: SalaryLine): (e: BreakdownEntry)
    ensures e.kind == l.componentType && e.code == l.code && e.name == l.name
    ensures e.amount == LineAmount(basic, l)
  {
    BreakdownEntry(l.componentType, l.code, l.name, LineAmount(basic, l))
  }

  /** One entry per component, in order. */
  function BreakdownOf(basic: real, lines: seq<SalaryLine>): (b: seq<BreakdownEntry>)
    ensures |b| == |lines|
    ensures forall i :: 0 <= i < |lines| ==> b[i] == EntryOf(basic, lines[i])
  {
    seq(|lines|, i requires 0 <= i < |lines| => EntryOf(basic, lines[i]))
  }

  /** The sum of the breakdown's entries of one kind. */
  function EntriesTotal(b: seq<BreakdownEntry>, kind: ComponentType): real
    decreases |b|
  {
    if |b| == 0 then 0.0
    else EntriesTotal(b[..|b| - 1], kind) + (if b[|b| - 1].kind == kind then b[|b| - 1].amount else 0.0)
  }

  /** The breakdown accounts for the payslip: its earning entries add up to
      the earnings and its deduction entries to the deductions. */
  lemma {:induction false} BreakdownAddsUp(basic: real, lines: seq<SalaryLine>)
    ensures EntriesTotal(BreakdownOf(basic, lines), Earning) == EarningsOf(basic, lines)
    ensures EntriesTotal(BreakdownOf(basic, lines), Deduction) == DeductionsOf(basic, lines)
    decreases |lines|
  {
    if |lines| > 0 {
      var init := lines[..|lines| - 1];
      BreakdownAddsUp(basic, init);
      assert BreakdownOf(basic, lines)[..|lines| - 1] == BreakdownOf(basic, init);
    }
  }

  /** The payslip as specified: gross is basic plus earnings, and gross,
      deductions and net are each rounded on their own. */
  function PayslipOf(t: SalaryTemplate): (c: Computed)
    ensures c.gross == Round2(t.basic + EarningsOf(t.basic, t.lines))
    ensures c.deductions == Round2(DeductionsOf(t.basic, t.lines))
    ensures c.net == Round2(t.basic + EarningsOf(t.basic, t.lines) - DeductionsOf(t.basic, t.lines))
    ensures c.breakdown == BreakdownOf(t.basic, t.lines)
  {
    var gross := t.basic + EarningsOf(t.basic, t.lines);
    var deductions := DeductionsOf(t.basic, t.lines);
    Computed(Round2(gross), Round2(deductions), Round2(gross - deductions), BreakdownOf(t.basic, t.lines))
  }

  /** Earnings and deductions are never negative when basic and every
      component value are not; without earning components the earnings are
      zero, and without other components the deductions are. */
  lemma {:induction false} SumsBounds(basic: real, lines: seq<SalaryLine>)
    ensures basic >= 0.0 && (forall i :: 0 <= i < |lines| ==> lines[i].value >= 0.0) ==>
              EarningsOf(basic, lines) >= 0.0 && DeductionsOf(basic, lines) >= 0.0
    ensures (forall i :: 0 <= i < |lines| ==> lines[i].componentType != Earning) ==> EarningsOf(basic, lines) == 0.0
    ensures (forall i :: 0 <= i < |lines| ==> lines[i].componentType == Earning) ==> DeductionsOf(basic, lines) == 0.0
    decreases |lines|
  {
    if |lines| > 0 {
      var init := lines[..|lines| - 1];
      SumsBounds(basic, init);
      assert forall i :: 0 <= i < |init| ==> init[i] == lines[i];
      var l := lines[|lines| - 1];
      if basic >= 0.0 && l.value >= 0.0 && l.isPercentage {
        assert basic * l.value >= 0.0;
      }
    }
  }

  /** Taking one more component adds its amount to earnings or to
      deductions, and its entry to the breakdown. */
  lemma SumsStep(basic: real, lines: seq<SalaryLine>, i: nat)
    requires i < |lines|
    ensures EarningsOf(basic, lines[..i + 1])
            == EarningsOf(basic, lines[..i]) + (if lines[i].componentType == Earning then LineAmount(basic, lines[i]) else 0.0)
    ensures DeductionsOf(basic, lines[..i + 1])
            == DeductionsOf(basic, lines[..i]) + (if lines[i].componentType != Earning then LineAmount(basic, lines[i]) else 0.0)
    ensures BreakdownOf(basic, lines[..i + 1]) == BreakdownOf(basic, lines[..i]) + [EntryOf(basic, lines[i])]
  {
    assert lines[..i + 1][..i] == lines[..i];
  }

  /** `compute_payslip_for_employee`: walks the components once, adding
      each to gross or to deductions and to the breakdown. */
  method ComputePayslip(t: SalaryTemplate) returns (c: Computed)
    ensures c == PayslipOf(t)
  {
    var basic := t.basic;
    var gross := basic;
    var deductions := 0.0;
    var breakdown: seq<BreakdownEntry> := [];
    var i := 0;
    while i < |t.lines|
      invariant 0 <= i <= |t.lines|
      invariant gross == basic + EarningsOf(basic, t.lines[..i])
      invariant deductions == DeductionsOf(basic, t.lines[..i])
      invariant breakdown == BreakdownOf(basic, t.lines[..i])
    {
      var l := t.lines[i];
      SumsStep(basic, t.lines, i);
      var amount := if l.isPercentage then (basic * l.value) / 100.0 else l.value;
      assert amount == LineAmount(basic, l);
      if l.componentType == Earning {
        gross := gross + amount;
      } else {
        deductions := deductions + amount;
      }
      breakdown := breakdown + [BreakdownEntry(l.componentType, l.code, l.name, amount)];
      i := i + 1;
    }
    assert t.lines[..|t.lines|] == t.lines;
    c := Computed(Round2(gross), Round2(deductions), Round2(gross - deductions), breakdown);
  }

  /** When gross and deductions already are whole cents (all components
      fixed, say), the stored net is the stored gross less the stored
      deductions. */
  lemma NetIsDifferenceOnCents(t: SalaryTemplate)
    requires IsCents(t.basic + EarningsOf(t.basic, t.lines)) && IsCents(DeductionsOf(t.basic, t.lines))
    ensures PayslipOf(t).net == PayslipOf(t).gross - PayslipOf(t).deductions
  {
    var g := t.basic + EarningsOf(t.basic, t.lines);
    var d := DeductionsOf(t.basic, t.lines);
    var gc := (g * 100.0).Floor;
    var dc := (d * 100.0).Floor;
    assert g == gc as real / 100.0;
    assert d == dc as real / 100.0;
    Round2OfCents(gc);
    Round2OfCents(dc);
    assert g - d == (gc - dc) as real / 100.0;
    Round2OfCents(gc - dc);
  }

  /** With percentage components the three roundings can disagree by a
      cent: basic 1.50 with a 1% earning and a 3% deduction stores gross
      1.52 and deductions 0.04 but net 1.47. */
  lemma NetCanDifferByACent()
    ensures var t := SalaryTemplate(1.5, [SalaryLine("E", "E", Earning, true, 1.0), SalaryLine("D", "D", Deduction, true, 3.0)]);
            PayslipOf(t).gross == 1.52 && PayslipOf(t).deductions == 0.04 && PayslipOf(t).net == 1.47
  {
    var t := SalaryTemplate(1.5, [SalaryLine("E", "E", Earning, true, 1.0), SalaryLine("D", "D", Deduction, true, 3.0)]);
    assert t.lines[..1][..0] == [] && t.lines[..1] == [t.lines[0]];
    assert EarningsOf(1.5, t.lines[..1]) == 0.015;
    assert EarningsOf(1.5, t.lines) == 0.015;
    assert DeductionsOf(1.5, t.lines[..1]) == 0.0;
    assert DeductionsOf(1.5, t.lines) == 0.045;
    assert (1.515 * 100.0).Floor == 151;
    assert (0.045 * 100.0).Floor == 4;
    assert (1.47 * 100.0).Floor == 147;
  }

  // ---------------------------------------------------------------------
  // Payslips and runs.
  // ---------------------------------------------------------------------

  datatype Employee = Employee(isActive: bool, template: Option<SalaryTemplate>)

  datatype PayslipRow = PayslipRow(gross: real, deductions: real, net: real, processed: bool)

  /** The three amounts `generate_payslip` writes: zeros without a
      template, otherwise the computed payslip. */
  function PayslipAmounts(e: Employee): (c: Computed)
    ensures e.template.None? ==> c.gross == 0.0 && c.deductions == 0.0 && c.net == 0.0
    ensures e.template.Some? ==> c == PayslipOf(e.template.value)
  {
    if e.template.None? then Computed(0.0, 0.0, 0.0, []) else PayslipOf(e.template.value)
  }

  /** `update_or_create` on (run, employee): the amounts are replaced, any
      other column of an existing row is kept, a new row has the defaults. */
  function Upsert(existing: Option<PayslipRow>, c: Computed): (r: PayslipRow)
    ensures r.gross == c.gross && r.deductions == c.deductions && r.net == c.net
    ensures r.processed == (existing.Some? && existing.value.processed)
  {
    var processed := if existing.Some? then existing.value.processed else false;
    PayslipRow(c.gross, c.deductions, c.net, processed)
  }

  /** Re-running the upsert gives the same row as running it once. */
  lemma UpsertIdempotent(existing: Option<PayslipRow>, c: Computed)
    ensures Upsert(Some(Upsert(existing, c)), c) == Upsert(existing, c)
  {
  }

  function Lookup(t: map<(nat, nat), PayslipRow>, k: (nat, nat)): Option<PayslipRow>
  {
    if k in t then Some(t[k]) else None
  }

  datatype RunStatus = Draft | Processing | Completed | Cancelled

  /** Whether `PayrollProcessView.post` accepts a run in this status. */
  predicate CanProcess(s: RunStatus)
  {
    s == Draft || s == Cancelled
  }

  /** The employee loop of `PayrollProcessView.post`: one
      `generate_payslip` per active employee, each creating or updating the
      (run, employee) payslip. */
  method GeneratePayslips(start: map<(nat, nat), PayslipRow>, run: nat, emps: map<nat, Employee>)
    returns (ps: map<(nat, nat), PayslipRow>)
    ensures ps == Processed(start, run, emps, ActiveIds(emps))
  {
    ps := start;
    var done: set<nat> := {};
    var todo := ActiveIds(emps);
    ProcessedNone(start, run, emps);
    while todo != {}
      invariant todo + done == ActiveIds(emps) && todo * done == {}
      invariant ps == Processed(start, run, emps, done)
      decreases |todo|
    {
      var e :| e in todo;
      var c: Computed;
      if emps[e].template.None? {
        c := Computed(0.0, 0.0, 0.0, []);
      } else {
        c := ComputePayslip(emps[e].template.value);
      }
      ProcessedStep(start, run, emps, done, e);
      ps := ps[(run, e) := Upsert(Lookup(ps, (run, e)), c)];
      done := done + {e};
      todo := todo - {e};
    }
  }

  class PayrollDb {
    var runs: map<nat, RunStatus>
    var employees: map<nat, Employee>
    /** Payslips keyed by (run, employee), one per pair. */
    var payslips: map<(nat, nat), PayslipRow>

    ghost predicate Valid()
      reads this
    {
      forall k :: k in payslips ==> k.0 in runs && k.1 in employees
    }

    constructor(emps: map<nat, Employee>)
      ensures Valid()
      ensures runs == map[] && employees == emps && payslips == map[]
    {
      runs := map[];
      employees := emps;
      payslips := map[];
    }

    /** Creating a run: it starts as a draft. */
    method CreateRun(id: nat)
      requires Valid() && id !in runs
      modifies this
      ensures Valid()
      ensures runs == old(runs)[id := Draft] && employees == old(employees) && payslips == old(payslips)
    {
      runs := runs[id := Draft];
    }

    /** `generate_payslip` for one employee of a run. */
    method GeneratePayslip(run: nat, emp: nat)
      requires Valid() && run in runs && emp in employees
      modifies this
      ensures Valid()
      ensures runs == old(runs) && employees == old(employees)
      ensures payslips == old(payslips)[(run, emp) := Upsert(Lookup(old(payslips), (run, emp)), PayslipAmounts(old(employees)[emp]))]
      ensures |payslips.Keys| <= |old(payslips).Keys| + 1
    {
      var e := employees[emp];
      var c: Computed;
      if e.template.None? {
        c := Computed(0.0, 0.0, 0.0, []);
      } else {
        c := ComputePayslip(e.template.value);
      }
      payslips := payslips[(run, emp) := Upsert(Lookup(payslips, (run, emp)), c)];
    }

    /** `PayrollProcessView.post`, run as one transaction: a draft or
        cancelled run gets a payslip for every active employee and ends
        completed; any other status is refused and an unknown run raises. */
    method ProcessRun(run: nat) returns (resp: Response)
      requires Valid()
      modifies this
      ensures Valid()
      ensures employees == old(employees)
      ensures run !in old(runs) ==> resp == ServerError(DoesNotExistMsg)
      ensures run in old(runs) && !CanProcess(old(runs)[run]) ==> resp == BadRequest(AlreadyProcessedMsg)
      ensures !resp.IsSuccess() ==> runs == old(runs) && payslips == old(payslips)
      ensures resp.IsSuccess() <==> run in old(runs) && CanProcess(old(runs)[run])
      ensures resp.IsSuccess() ==>
                resp == Ok && runs == old(runs)[run := Completed]
                && payslips == Processed(old(payslips), run, old(employees), ActiveIds(old(employees)))
    {
      if run !in runs {
        return ServerError(DoesNotExistMsg);
      }
      if !CanProcess(runs[run]) {
        return BadRequest(AlreadyProcessedMsg);
      }
      runs := runs[run := Processing];
      payslips := GeneratePayslips(payslips, run, employees);
      runs := runs[run := Completed];
      resp := Ok;
    }
  }

  /** The employees a run is processed for. */
  function ActiveIds(emps: map<nat, Employee>): (s: set<nat>)
    ensures forall e :: e in s <==> e in emps && emps[e].isActive
  {
    set e | e in emps && emps[e].isActive
  }

  /** The payslip table once the employees in `done` have had their payslip
      for `run` generated: those rows are upserted, every other row is kept
      and no other row appears. */
  function Processed(t: map<(nat, nat), PayslipRow>, run: nat, emps: map<nat, Employee>, done: set<nat>): (t': map<(nat, nat), PayslipRow>)
    requires done <= emps.Keys
    ensures t'.Keys == t.Keys + (set e | e in done :: (run, e))
    ensures forall k :: k in t' && k.0 == run && k.1 in done ==> t'[k] == Upsert(Lookup(t, k), PayslipAmounts(emps[k.1]))
    ensures forall k :: k in t && !(k.0 == run && k.1 in done) ==> t'[k] == t[k]
  {
    map k | k in t.Keys + (set e | e in done :: (run, e)) ::
      if k.0 == run && k.1 in done then Upsert(Lookup(t, k), PayslipAmounts(emps[k.1])) else t[k]
  }

  lemma ProcessedNone(t: map<(nat, nat), PayslipRow>, run: nat, emps: map<nat, Employee>)
    ensures Processed(t, run, emps, {}) == t
  {
  }

  /** Generating one more employee's payslip extends the processed table by
      that one upsert. */
  lemma ProcessedStep(t: map<(nat, nat), PayslipRow>, run: nat, emps: map<nat, Employee>, done: set<nat>, e: nat)
    requires done <= emps.Keys && e in emps && e !in done
    ensures Processed(t, run, emps, done + {e})
            == Processed(t, run, emps, done)[(run, e) := Upsert(Lookup(Processed(t, run, emps, done), (run, e)), PayslipAmounts(emps[e]))]
  {
    var before := Processed(t, run, emps, done);
    var after := Processed(t, run, emps, done + {e});
    assert Lookup(before, (run, e)) == Lookup(t, (run, e));
    var expected := before[(run, e) := Upsert(Lookup(t, (run, e)), PayslipAmounts(emps[e]))];
    assert after.Keys == expected.Keys;
    forall k | k in after ensures after[k] == expected[k] {
      if k != (run, e) && !(k.0 == run && k.1 in done) { assert k in t; }
    }
  }

  /** Processing a run again replaces the amounts and never adds a second
      payslip for an employee. */
  lemma ProcessAgainKeepsRows(t: map<(nat, nat), PayslipRow>, run: nat, emps: map<nat, Employee>)
    ensures Processed(Processed(t, run, emps, ActiveIds(emps)), run, emps, ActiveIds(emps)) == Processed(t, run, emps, ActiveIds(emps))
  {
    var once := Processed(t, run, emps, ActiveIds(emps));
    var twice := Processed(once, run, emps, ActiveIds(emps));
    assert twice.Keys == once.Keys;
    forall k | k in once
      ensures twice[k] == once[k]
    {
      if k.0 == run && k.1 in ActiveIds(emps) {
        UpsertIdempotent(Lookup(t, k), PayslipAmounts(emps[k.1]));
      }
    }
  }

  /** A completed run cannot be processed a second time. */
  method ProcessTwice(db: PayrollDb, run: nat) returns (first: Response, second: Response)
    requires db.Valid()
    modifies db
    ensures first.IsSuccess() ==> second == BadRequest(AlreadyProcessedMsg)
  {
    first := db.ProcessRun(run);
    second := db.ProcessRun(run);
  }

  // ---------------------------------------------------------------------
  // The month filter.
  // ---------------------------------------------------------------------

  /** The `month` query parameter of `PayslipListView`: an empty value
      filters nothing; otherwise the pieces before the first and second
      '-' are read as year and month, the first one first, and a piece that
      is not a number or missing raises. */
  function ParseMonth(month: string): (r: Result<Option<(nat, nat)>>)
    ensures month == "" ==> r == Success(None)
    ensures r.Success? && r.value.Some? ==>
              var parts := Split(month, '-');
              |parts| >= 2 && IsNumeral(parts[0]) && IsNumeral(parts[1])
              && r.value.value == (DigitsValue(parts[0]), DigitsValue(parts[1]))
    ensures r.Failure? ==> r.error == ServerError(ValueErrorMsg) || r.error == ServerError(IndexErrorMsg)
  {
    if month == "" then Success(None)
    else
      var parts := Split(month, '-');
      if !IsNumeral(parts[0]) then Failure(ServerError(ValueErrorMsg))
      else if |parts| < 2 then Failure(ServerError(IndexErrorMsg))
      else if !IsNumeral(parts[1]) then Failure(ServerError(ValueErrorMsg))
      else Success(Some((DigitsValue(parts[0]), DigitsValue(parts[1]))))
  }

  /** `YYYY-MM` spells a month the filter reads back as that year and
      month. */
  lemma ParseYearMonth(year: nat, month: nat)
    ensures ParseMonth(NatToDigits(year) + "-" + ZeroPad(NatToDigits(month), 2)) == Success(Some((year, month)))
  {
    var y := NatToDigits(year);
    var m := ZeroPad(NatToDigits(month), 2);
    DigitsRoundTrip(year);
    ZeroPadValue(month, 2);
    NoDash(y);
    NoDash(m);
    SplitNoSep(m, '-');
    SplitJoin(y, '-', m);
    assert y + "-" + m == y + ['-'] + m;
  }

  /** `YYYY-MM-DD` is read as the same year and month; the day is ignored. */
  lemma ParseYearMonthDay(year: nat, month: nat, day: nat)
    ensures ParseMonth(NatToDigits(year) + "-" + ZeroPad(NatToDigits(month), 2) + "-" + ZeroPad(NatToDigits(day), 2)) == Success(Some((year, month)))
  {
    var y := NatToDigits(year);
    var m := ZeroPad(NatToDigits(month), 2);
    var d := ZeroPad(NatToDigits(day), 2);
    DigitsRoundTrip(year);
    ZeroPadValue(month, 2);
    ZeroPadValue(day, 2);
    NoDash(y);
    NoDash(m);
    NoDash(d);
    SplitNoSep(d, '-');
    SplitJoin(m, '-', d);
    SplitJoin(y, '-', m + ['-'] + d);
    var text := y + "-" + m + "-" + d;
    assert text == y + ['-'] + (m + ['-'] + d);
    var parts := Split(text, '-');
    assert parts == [y, m, d];
    assert IsNumeral(parts[0]) && IsNumeral(parts[1]);
  }

  /** A year alone has no month piece: the filter raises an index error. */
  lemma ParseYearOnly(year: nat)
    ensures ParseMonth(NatToDigits(year)) == Failure(ServerError(IndexErrorMsg))
  {
    NoDash(NatToDigits(year));
    SplitNoSep(NatToDigits(year), '-');
  }

  lemma NoDash(s: string)
    requires AllDigits(s)
    ensures '-' !in s
  {
  }
}
