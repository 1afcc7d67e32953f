/** Grade points and grade-point averages, as the three apps compute them.

    The CMS app turns marks out of 100 into a letter and a point value
    (`calculate_grade`) and averages the points weighted by course credits
    (`calculate_gpa`). The ums and backend apps turn a percentage into a
    point value on a finer ladder (`percentage_to_grade_point`, the same in
    both) and mean to average it weighted by the course's credits
    (`calculate_student_cgpa`, also the same in both). As written that
    service reads a `credit_hours` attribute the course does not have
    (`CgpaAsWritten`); `CgpaOf` is the average it evidently intends.
    `round(x, 2)` is `Common.Round2`; binary floating point is not
    modelled. */
module Grading {
  import opened Common

  // ---------------------------------------------------------------------
  // Ladders of grade bands.
  // ---------------------------------------------------------------------

  /** One rung of a grading ladder: the inclusive lower bound and the points
      it awards. */
  datatype Band = Band(lower: real, points: real)

  /** The points of the first band whose bound `x` reaches, or `otherwise`
      when it reaches none: how an `if/elif` ladder reads as a table. */
  function FirstBand(bands: seq<Band>, x: real, otherwise: real): real
  {
    if |bands| == 0 then otherwise
    else if x >= bands[0].lower then bands[0].points
    else FirstBand(bands[1..], x, otherwise)
  }

  /** Points never rise further down the ladder, and the fall-through value
      is below every rung. */
  predicate Ladder(bands: seq<Band>, otherwise: real)
  {
    (forall i, j :: 0 <= i < j < |bands| ==> bands[j].points <= bands[i].points) &&
    (forall i :: 0 <= i < |bands| ==> otherwise <= bands[i].points)
  }

  lemma {:induction false} FirstBandAtMostTop(bands: seq<Band>, x: real, otherwise: real)
    requires |bands| > 0 && Ladder(bands, otherwise)
    ensures FirstBand(bands, x, otherwise) <= bands[0].points
  {
    if x < bands[0].lower {
      if |bands| == 1 {
      } else {
        assert Ladder(bands[1..], otherwise) by {
          forall i, j | 0 <= i < j < |bands[1..]|
            ensures bands[1..][j].points <= bands[1..][i].points
          {
            assert bands[1..][j] == bands[j + 1] && bands[1..][i] == bands[i + 1];
          }
        }
        FirstBandAtMostTop(bands[1..], x, otherwise);
        assert bands[1..][0] == bands[1];
      }
    }
  }

  /** A ladder read top-down is monotone: more marks never earn fewer
      points. */
  lemma {:induction false} FirstBandMonotone(bands: seq<Band>, x: real, y: real, otherwise: real)
    requires Ladder(bands, otherwise) && x <= y
    ensures FirstBand(bands, x, otherwise) <= FirstBand(bands, y, otherwise)
  {
    if |bands| > 0 {
      if y >= bands[0].lower {
        FirstBandAtMostTop(bands, x, otherwise);
      } else {
        assert Ladder(bands[1..], otherwise) by {
          forall i, j | 0 <= i < j < |bands[1..]|
            ensures bands[1..][j].points <= bands[1..][i].points
          {
            assert bands[1..][j] == bands[j + 1] && bands[1..][i] == bands[i + 1];
          }
        }
        FirstBandMonotone(bands[1..], x, y, otherwise);
      }
    }
  }

  // ---------------------------------------------------------------------
  // CMS: letter grades out of 100 marks.
  // ---------------------------------------------------------------------

  datatype Letter = A | BPlus | B | CPlus | C | F

  const MarksRangeMsg: string := "Marks must be between 0 and 100."

  predicate ValidMarks(marks: real) { 0.0 <= marks <= 100.0 }

  /** The point value printed beside each letter. */
  function PointsOf(l: Letter): real
  {
    match l
    case A => 4.0
    case BPlus => 3.5
    case B => 3.0
    case CPlus => 2.5
    case C => 2.0
    case F => 0.0
  }

  /** The letter band of `marks` (the ladder after the range check): F
      exactly below 50, A exactly from 85, and every letter's band lies
      within the range its points stand for. */
  function LetterOf(marks: real): (l: Letter)
    ensures l == F <==> marks < 50.0
    ensures l == A <==> marks >= 85.0
    ensures l == BPlus ==> 75.0 <= marks < 85.0
    ensures l == B ==> 65.0 <= marks < 75.0
    ensures l == CPlus ==> 55.0 <= marks < 65.0
    ensures l == C ==> 50.0 <= marks < 55.0
  {
    if marks >= 85.0 then A
    else if marks >= 75.0 then BPlus
    else if marks >= 65.0 then B
    else if marks >= 55.0 then CPlus
    else if marks >= 50.0 then C
    else F
  }

  /** The points of the letter `marks` earn. */
  function GradePoints(marks: real): (p: real)
    ensures 0.0 <= p <= 4.0
    ensures p == 0.0 <==> marks < 50.0
    ensures p == 4.0 <==> marks >= 85.0
  {
    PointsOf(LetterOf(marks))
  }

  /** `calculate_grade`: a ValueError outside [0, 100], otherwise the letter
      and its points. */
  function CalculateGrade(marks: real): (r: Result<(Letter, real)>)
    ensures r.Failure? <==> !ValidMarks(marks)
    ensures r.Failure? ==> r.error == ServerError(MarksRangeMsg)
    ensures r.Success? ==> r.value.1 == PointsOf(r.value.0)
    ensures r.Success? ==> 0.0 <= r.value.1 <= 4.0
    ensures r.Success? ==> (r.value.0 == F <==> marks < 50.0)
  {
    if marks < 0.0 || marks > 100.0 then Failure(ServerError(MarksRangeMsg))
    else Success((LetterOf(marks), GradePoints(marks)))
  }

  const CmsBands: seq<Band> :=
    [Band(85.0, 4.0), Band(75.0, 3.5), Band(65.0, 3.0), Band(55.0, 2.5), Band(50.0, 2.0)]

  /** The letter ladder is the band table 85/75/65/55/50 → 4.0/3.5/3.0/2.5/2.0
      with 0.0 below 50. */
  lemma CmsLadderIsTable(marks: real)
    ensures GradePoints(marks) == FirstBand(CmsBands, marks, 0.0)
  {
    var t := CmsBands;
    assert t[1..][1..][1..][1..][1..] == [];
    assert t[1..][1..][1..][1..] == [Band(50.0, 2.0)];
    assert FirstBand(t[1..][1..][1..][1..], marks, 0.0) == if marks >= 50.0 then 2.0 else 0.0;
    assert t[1..][1..][1..] == [Band(55.0, 2.5), Band(50.0, 2.0)];
    assert FirstBand(t[1..][1..][1..], marks, 0.0) == if marks >= 55.0 then 2.5 else FirstBand(t[1..][1..][1..][1..], marks, 0.0);
    assert t[1..][1..] == [Band(65.0, 3.0), Band(55.0, 2.5), Band(50.0, 2.0)];
    assert FirstBand(t[1..][1..], marks, 0.0) == if marks >= 65.0 then 3.0 else FirstBand(t[1..][1..][1..], marks, 0.0);
    assert t[1..] == [Band(75.0, 3.5), Band(65.0, 3.0), Band(55.0, 2.5), Band(50.0, 2.0)];
    assert FirstBand(t[1..], marks, 0.0) == if marks >= 75.0 then 3.5 else FirstBand(t[1..][1..], marks, 0.0);
  }

  /** Grade points never fall as marks rise. */
  lemma GradePointsMonotone(m1: real, m2: real)
    requires m1 <= m2
    ensures GradePoints(m1) <= GradePoints(m2)
  {
    CmsLadderIsTable(m1);
    CmsLadderIsTable(m2);
    FirstBandMonotone(CmsBands, m1, m2, 0.0);
  }

  // ---------------------------------------------------------------------
  // CMS: credit-weighted GPA.
  // ---------------------------------------------------------------------

  /** An exam result joined with what the GPA needs: the marks, the credits
      of the exam's course and the number of the course's semester. */
  datatype ResultRow = ResultRow(marks: real, credits: nat, semester: nat)

  predicate AllValid(rs: seq<ResultRow>)
  {
    forall i :: 0 <= i < |rs| ==> ValidMarks(rs[i].marks)
  }

  function Credits(rs: seq<ResultRow>): nat
  {
    if |rs| == 0 then 0 else Credits(rs[..|rs| - 1]) + rs[|rs| - 1].credits
  }

  /** Σ points × credits. */
  function WeightedPoints(rs: seq<ResultRow>): real
  {
    if |rs| == 0 then 0.0
    else WeightedPoints(rs[..|rs| - 1]) + GradePoints(rs[|rs| - 1].marks) * rs[|rs| - 1].credits as real
  }

  /** What `calculate_gpa` returns: the ValueError of the first result out of
      range, 0.0 without credits, else the weighted mean rounded to cents. */
  function GpaOf(rs: seq<ResultRow>): (r: Result<real>)
    ensures r.Failure? <==> !AllValid(rs)
    ensures r.Failure? ==> r.error == ServerError(MarksRangeMsg)
    ensures r.Success? ==> IsCents(r.value)
  {
    if !AllValid(rs) then Failure(ServerError(MarksRangeMsg))
    else if Credits(rs) == 0 then (Round2OfCents(0); Success(0.0))
    else Success(Round2(WeightedPoints(rs) / Credits(rs) as real))
  }

  /** `calculate_gpa`: one pass accumulating points × credits and credits. */
  method CalculateGpa(rs: seq<ResultRow>) returns (r: Result<real>)
    ensures r == GpaOf(rs)
  {
    var totalPoints := 0.0;
    var totalCredits := 0;
    var i := 0;
    while i < |rs|
      invariant 0 <= i <= |rs|
      invariant AllValid(rs[..i])
      invariant totalPoints == WeightedPoints(rs[..i])
      invariant totalCredits == Credits(rs[..i])
    {
      assert rs[..i + 1][..i] == rs[..i];
      var grade := CalculateGrade(rs[i].marks);
      if grade.Failure? {
        return Failure(grade.error);
      }
      totalPoints := totalPoints + grade.value.1 * rs[i].credits as real;
      totalCredits := totalCredits + rs[i].credits;
      i := i + 1;
    }
    assert rs[..|rs|] == rs;
    if totalCredits == 0 {
      return Success(0.0);
    }
    r := Success(Round2(totalPoints / totalCredits as real));
  }

  lemma {:induction false} WeightedPointsBounds(rs: seq<ResultRow>)
    ensures 0.0 <= WeightedPoints(rs) <= 4.0 * Credits(rs) as real
  {
    if |rs| > 0 {
      var last := rs[|rs| - 1];
      WeightedPointsBounds(rs[..|rs| - 1]);
      var p := GradePoints(last.marks);
      var c := last.credits as real;
      assert 0.0 <= p * c <= 4.0 * c;
      assert 4.0 * Credits(rs) as real == 4.0 * Credits(rs[..|rs| - 1]) as real + 4.0 * c;
    }
  }

  /** A mean of values in [0, c·4] over c credits lies in [0, 4]. */
  lemma MeanInUnit(total: real, credits: real)
    requires credits > 0.0 && 0.0 <= total <= 4.0 * credits
    ensures 0.0 <= total / credits <= 4.0
  {
  }

  /** Whatever the results, a GPA that is returned lies in [0, 4]. */
  lemma GpaInRange(rs: seq<ResultRow>)
    ensures GpaOf(rs).Success? ==> 0.0 <= GpaOf(rs).value <= 4.0
  {
    if AllValid(rs) && Credits(rs) > 0 {
      WeightedPointsBounds(rs);
      MeanInUnit(WeightedPoints(rs), Credits(rs) as real);
      Round2OfCents(0);
      Round2OfCents(400);
      Round2Between(WeightedPoints(rs) / Credits(rs) as real, 0.0, 4.0);
    }
  }

  lemma {:induction false} CreditsAppend(a: seq<ResultRow>, b: seq<ResultRow>)
    ensures Credits(a + b) == Credits(a) + Credits(b)
  {
    if |b| > 0 {
      assert (a + b)[..|a + b| - 1] == a + b[..|b| - 1];
      CreditsAppend(a, b[..|b| - 1]);
    } else {
      assert a + b == a;
    }
  }

  lemma {:induction false} WeightedPointsAppend(a: seq<ResultRow>, b: seq<ResultRow>)
    ensures WeightedPoints(a + b) == WeightedPoints(a) + WeightedPoints(b)
  {
    if |b| > 0 {
      assert (a + b)[..|a + b| - 1] == a + b[..|b| - 1];
      WeightedPointsAppend(a, b[..|b| - 1]);
    } else {
      assert a + b == a;
    }
  }

  /** The GPA does not depend on the order in which the query returns the
      results. */
  lemma GpaOrderIndependent(a: seq<ResultRow>, b: seq<ResultRow>)
    ensures GpaOf(a + b) == GpaOf(b + a)
  {
    CreditsAppend(a, b);
    CreditsAppend(b, a);
    WeightedPointsAppend(a, b);
    WeightedPointsAppend(b, a);
    AllValidAppend(a, b);
    AllValidAppend(b, a);
  }

  lemma AllValidAppend(a: seq<ResultRow>, b: seq<ResultRow>)
    ensures AllValid(a + b) <==> AllValid(a) && AllValid(b)
  {
    if AllValid(a + b) {
      forall i | 0 <= i < |a| ensures ValidMarks(a[i].marks) {
        assert (a + b)[i] == a[i];
      }
      forall i | 0 <= i < |b| ensures ValidMarks(b[i].marks) {
        assert (a + b)[|a| + i] == b[i];
      }
    }
  }

  lemma {:induction false} WeightedPointsUniform(rs: seq<ResultRow>, p: real)
    requires forall i :: 0 <= i < |rs| ==> GradePoints(rs[i].marks) == p
    ensures WeightedPoints(rs) == p * Credits(rs) as real
  {
    if |rs| > 0 {
      WeightedPointsUniform(rs[..|rs| - 1], p);
      var c := rs[|rs| - 1].credits as real;
      assert p * Credits(rs) as real == p * Credits(rs[..|rs| - 1]) as real + p * c;
    }
  }

  /** The points of each letter as a whole number of hundredths. */
  function CentsOf(l: Letter): (c: int)
    ensures PointsOf(l) == c as real / 100.0
  {
    match l
    case A => 400
    case BPlus => 350
    case B => 300
    case CPlus => 250
    case C => 200
    case F => 0
  }

  lemma MeanOfConstant(w: real, p: real, c: real)
    requires c > 0.0 && w == p * c
    ensures w / c == p
  {
  }

  /** When every result earns the same letter (and there are credits), the
      GPA is exactly that letter's points. */
  lemma GpaOfUniformResults(rs: seq<ResultRow>, l: Letter)
    requires AllValid(rs) && Credits(rs) > 0
    requires forall i :: 0 <= i < |rs| ==> LetterOf(rs[i].marks) == l
    ensures GpaOf(rs) == Success(PointsOf(l))
  {
    var p := PointsOf(l);
    forall i | 0 <= i < |rs| ensures GradePoints(rs[i].marks) == p {
      assert LetterOf(rs[i].marks) == l;
    }
    WeightedPointsUniform(rs, p);
    var c := Credits(rs) as real;
    MeanOfConstant(WeightedPoints(rs), p, c);
    Round2OfCents(CentsOf(l));
    assert Round2(p) == p;
  }

  // ---------------------------------------------------------------------
  // ums and backend: percentage ladder and credit-weighted CGPA.
  // ---------------------------------------------------------------------

  /** The values `percentage_to_grade_point` can return. */
  const GradePointValues: set<real> := {0.0, 1.7, 2.0, 2.3, 2.7, 3.0, 3.3, 3.7, 4.0}

  /** `percentage_to_grade_point`. */
  function PercentageToGradePoint(percentage: real): (r: real)
    ensures r in GradePointValues
    ensures r == 4.0 <==> percentage >= 85.0
    ensures r == 0.0 <==> percentage < 50.0
  {
    if percentage >= 85.0 then 4.0
    else if percentage >= 80.0 then 3.7
    else if percentage >= 75.0 then 3.3
    else if percentage >= 70.0 then 3.0
    else if percentage >= 65.0 then 2.7
    else if percentage >= 60.0 then 2.3
    else if percentage >= 55.0 then 2.0
    else if percentage >= 50.0 then 1.7
    else 0.0
  }

  const PercentBands: seq<Band> :=
    [Band(85.0, 4.0), Band(80.0, 3.7), Band(75.0, 3.3), Band(70.0, 3.0),
     Band(65.0, 2.7), Band(60.0, 2.3), Band(55.0, 2.0), Band(50.0, 1.7)]

  /** The ladder is the table of inclusive bounds 85, 80, …, 50. */
  lemma PercentLadderIsTable(percentage: real)
    ensures PercentageToGradePoint(percentage) == FirstBand(PercentBands, percentage, 0.0)
  {
    var t := PercentBands;
    var x := percentage;
    var t1 := t[1..];
    var t2 := t1[1..];
    var t3 := t2[1..];
    var t4 := t3[1..];
    var t5 := t4[1..];
    var t6 := t5[1..];
    var t7 := t6[1..];
    assert t7 == [Band(50.0, 1.7)] && t7[1..] == [];
    assert FirstBand(t7, x, 0.0) == if x >= 50.0 then 1.7 else 0.0;
    assert t6 == [Band(55.0, 2.0)] + t7;
    assert FirstBand(t6, x, 0.0) == if x >= 55.0 then 2.0 else FirstBand(t7, x, 0.0);
    assert t5 == [Band(60.0, 2.3)] + t6;
    assert FirstBand(t5, x, 0.0) == if x >= 60.0 then 2.3 else FirstBand(t6, x, 0.0);
    assert t4 == [Band(65.0, 2.7)] + t5;
    assert FirstBand(t4, x, 0.0) == if x >= 65.0 then 2.7 else FirstBand(t5, x, 0.0);
    assert t3 == [Band(70.0, 3.0)] + t4;
    assert FirstBand(t3, x, 0.0) == if x >= 70.0 then 3.0 else FirstBand(t4, x, 0.0);
    assert t2 == [Band(75.0, 3.3)] + t3;
    assert FirstBand(t2, x, 0.0) == if x >= 75.0 then 3.3 else FirstBand(t3, x, 0.0);
    assert t1 == [Band(80.0, 3.7)] + t2;
    assert FirstBand(t1, x, 0.0) == if x >= 80.0 then 3.7 else FirstBand(t2, x, 0.0);
  }

  /** A higher percentage never earns fewer points. */
  lemma GradePointMonotone(p1: real, p2: real)
    requires p1 <= p2
    ensures PercentageToGradePoint(p1) <= PercentageToGradePoint(p2)
  {
    PercentLadderIsTable(p1);
    PercentLadderIsTable(p2);
    FirstBandMonotone(PercentBands, p1, p2, 0.0);
  }

  /** A grade joined with the exam's total marks and the course's
      `credits`. */
  datatype GradeRow = GradeRow(marks: real, totalMarks: nat, credits: nat)

  const ZeroDivisionMsg: string := "ZeroDivisionError"
  const AttributeErrorMsg: string := "AttributeError"

  predicate AllHaveTotals(gs: seq<GradeRow>)
  {
    forall i :: 0 <= i < |gs| ==> gs[i].totalMarks > 0
  }

  /** marks_obtained / total_marks × 100. */
  function Percentage(g: GradeRow): real
    requires g.totalMarks > 0
  {
    g.marks / g.totalMarks as real * 100.0
  }

  function Hours(gs: seq<GradeRow>): nat
  {
    if |gs| == 0 then 0 else Hours(gs[..|gs| - 1]) + gs[|gs| - 1].credits
  }

  /** Σ grade point × credits. */
  function HourPoints(gs: seq<GradeRow>): real
    requires AllHaveTotals(gs)
  {
    if |gs| == 0 then 0.0
    else
      var g := gs[|gs| - 1];
      HourPoints(gs[..|gs| - 1]) + PercentageToGradePoint(Percentage(g)) * g.credits as real
  }

  /** `calculate_student_cgpa` as written: the loop reads the course's
      `credit_hours`, which the course model does not define, so the first
      grade raises, with a division by zero when its exam has no total
      marks and an attribute error otherwise; only a student without
      grades gets an answer, (0, 0). */
  function CgpaAsWritten(gs: seq<GradeRow>): (r: Result<(real, nat)>)
    ensures r.Success? <==> |gs| == 0
    ensures r.Success? ==> r.value == (0.0, 0)
    ensures |gs| > 0 && gs[0].totalMarks == 0 ==> r == Failure(ServerError(ZeroDivisionMsg))
    ensures |gs| > 0 && gs[0].totalMarks > 0 ==> r == Failure(ServerError(AttributeErrorMsg))
  {
    if |gs| == 0 then Success((0.0, 0))
    else if gs[0].totalMarks == 0 then Failure(ServerError(ZeroDivisionMsg))
    else Failure(ServerError(AttributeErrorMsg))
  }

  /** The service as written agrees with the intended one exactly when
      there is no grade or the first grade's exam has no total marks. */
  lemma CgpaAsWrittenAgrees(gs: seq<GradeRow>)
    ensures CgpaAsWritten(gs) == CgpaOf(gs) <==> |gs| == 0 || gs[0].totalMarks == 0
  {
    if |gs| == 0 {
      Round2OfCents(0);
    }
  }

  /** One grade of 80 out of 100 in a three-credit course: the service as
      written raises, where the intended one answers 3.7 over 3 credits. */
  lemma CgpaCreditHoursDiscrepancy()
    ensures CgpaAsWritten([GradeRow(80.0, 100, 3)]) == Failure(ServerError(AttributeErrorMsg))
    ensures CgpaOf([GradeRow(80.0, 100, 3)]) == Success((3.7, 3))
  {
    var gs := [GradeRow(80.0, 100, 3)];
    assert gs[..0] == [];
    assert Percentage(gs[0]) == 80.0;
    assert HourPoints(gs) == 3.7 * 3.0;
    assert Hours(gs) == 3;
    Round2OfCents(370);
  }

  /** What `calculate_student_cgpa` evidently means, reading the course's
      `credits`: division by a zero total-marks raises; otherwise the
      rounded weighted mean (0 without credits) together with the credit
      total. */
  function CgpaOf(gs: seq<GradeRow>): (r: Result<(real, nat)>)
    ensures r.Failure? <==> !AllHaveTotals(gs)
    ensures r.Failure? ==> r.error == ServerError(ZeroDivisionMsg)
    ensures r.Success? ==> r.value.1 == Hours(gs) && IsCents(r.value.0)
  {
    if !AllHaveTotals(gs) then Failure(ServerError(ZeroDivisionMsg))
    else if Hours(gs) > 0 then Success((Round2(HourPoints(gs) / Hours(gs) as real), Hours(gs)))
    else (Round2OfCents(0); Success((0.0, 0)))
  }

  /** The loop of `calculate_student_cgpa` over the student's grades, with
      the course's `credits` as each grade's weight. */
  method CalculateStudentCgpa(gs: seq<GradeRow>) returns (r: Result<(real, nat)>)
    ensures r == CgpaOf(gs)
  {
    var totalPoints := 0.0;
    var totalCredits := 0;
    var i := 0;
    while i < |gs|
      invariant 0 <= i <= |gs|
      invariant AllHaveTotals(gs[..i])
      invariant totalPoints == HourPoints(gs[..i])
      invariant totalCredits == Hours(gs[..i])
    {
      assert gs[..i + 1][..i] == gs[..i];
      if gs[i].totalMarks == 0 {
        return Failure(ServerError(ZeroDivisionMsg));
      }
      var percentage := gs[i].marks / gs[i].totalMarks as real * 100.0;
      var gradePoints := PercentageToGradePoint(percentage);
      totalPoints := totalPoints + gradePoints * gs[i].credits as real;
      totalCredits := totalCredits + gs[i].credits;
      i := i + 1;
    }
    assert gs[..|gs|] == gs;
    var cgpa := if totalCredits > 0 then Round2(totalPoints / totalCredits as real) else 0.0;
    r := Success((cgpa, totalCredits));
  }

  lemma {:induction false} HourPointsBounds(gs: seq<GradeRow>)
    requires AllHaveTotals(gs)
    ensures 0.0 <= HourPoints(gs) <= 4.0 * Hours(gs) as real
  {
    if |gs| > 0 {
      var g := gs[|gs| - 1];
      assert AllHaveTotals(gs[..|gs| - 1]);
      HourPointsBounds(gs[..|gs| - 1]);
      var p := PercentageToGradePoint(Percentage(g));
      var c := g.credits as real;
      assert 0.0 <= p * c <= 4.0 * c;
      assert 4.0 * Hours(gs) as real == 4.0 * Hours(gs[..|gs| - 1]) as real + 4.0 * c;
    }
  }

  /** The CGPA lies in [0, 4], whatever the marks (they are not bounded by
      the total). */
  lemma CgpaInRange(gs: seq<GradeRow>)
    ensures CgpaOf(gs).Success? ==> 0.0 <= CgpaOf(gs).value.0 <= 4.0
  {
    if AllHaveTotals(gs) && Hours(gs) > 0 {
      HourPointsBounds(gs);
      MeanInUnit(HourPoints(gs), Hours(gs) as real);
      Round2OfCents(0);
      Round2OfCents(400);
      Round2Between(HourPoints(gs) / Hours(gs) as real, 0.0, 4.0);
    }
  }

  /** Scaling an exam's marks and its total by the same factor changes
      nothing: only the percentage counts. */
  lemma PercentageScaleFree(g: GradeRow, k: nat)
    requires g.totalMarks > 0 && k > 0
    ensures Percentage(GradeRow(g.marks * k as real, g.totalMarks * k, g.credits)) == Percentage(g)
  {
    var t := g.totalMarks as real;
    var kr := k as real;
    assert (g.totalMarks * k) as real == t * kr;
    assert (g.marks * kr) / (t * kr) == g.marks / t;
  }
}
