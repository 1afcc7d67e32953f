/** The CMS exams app: entering an exam result, promoting a student after a
    final exam, and the student's transcript.

    The course catalogue (semesters, courses, exams) belongs to other apps
    and is read-only here; the exams app writes exam results, enrollments
    and a student's status. */
module Exams {
  import opened Common
  import opened Grading

  datatype ExamType = Mid | Final | Quiz
  datatype Exam = Exam(course: nat, examType: ExamType)
  datatype ExamResult = ExamResult(exam: nat, student: nat, marks: real)
  datatype Course = Course(semester: nat, credits: nat)
  datatype Semester = Semester(program: nat, number: nat)
  datatype StudentStatus = Active | Inactive | Graduated | Dropped
  datatype Student = Student(program: nat, status: StudentStatus)
  datatype Enrollment = Enrollment(student: nat, course: nat)

  datatype Transcript = Transcript(
    semesters: map<nat, seq<ResultRow>>,
    semesterGpas: map<nat, real>,
    overallCgpa: real)

  /** What a view sends back. */
  datatype Page =
    | Redirect(url: string)
    | ResultForm                 // the result form again, with its errors
    | TranscriptPage(transcript: Transcript)
    | Raised(error: Response)    // an exception escaped the view

  const UnauthorizedUrl: string := "unauthorized"
  const ResultListUrl: string := "list_exam_results"
  const IntegrityMsg: string := "IntegrityError"
  const NoStudentMsg: string := "RelatedObjectDoesNotExist"

  predicate NoDup<T(==)>(s: seq<T>)
  {
    forall i, j :: 0 <= i < j < |s| ==> s[i] != s[j]
  }

  /** The read-only catalogue, with `courseOrder` listing the course ids in
      the table's default ordering (by course code). */
  datatype Catalog = Catalog(
    semesters: map<nat, Semester>,
    courses: map<nat, Course>,
    courseOrder: seq<nat>,
    exams: map<nat, Exam>)
  {
    predicate Valid()
    {
      // (program, semester_number) is unique
      (forall s, t :: s in semesters && t in semesters && semesters[s] == semesters[t] ==> s == t) &&
      (forall c :: c in courses ==> courses[c].semester in semesters) &&
      (forall e :: e in exams ==> exams[e].course in courses) &&
      NoDup(courseOrder) &&
      (forall i :: 0 <= i < |courseOrder| ==> courseOrder[i] in courses) &&
      (forall c :: c in courses ==> c in courseOrder)
    }

    /** `course.semester.semester_number`. */
    function SemesterOf(c: nat): nat
      requires Valid() && c in courses
    {
      semesters[courses[c].semester].number
    }

    predicate IsCourseOf(c: nat, program: nat, number: nat)
      requires Valid() && c in courses
    {
      semesters[courses[c].semester] == Semester(program, number)
    }

    predicate HasSemester(program: nat, number: nat)
    {
      exists s :: s in semesters && semesters[s] == Semester(program, number)
    }
  }

  predicate EnrollmentsLinked(cat: Catalog, es: seq<Enrollment>)
  {
    forall i :: 0 <= i < |es| ==> es[i].course in cat.courses
  }

  /** `max()` of the semester numbers of the student's enrollments, or None
      when the student has none. */
  function MaxEnrolled(cat: Catalog, es: seq<Enrollment>, student: nat): (m: Option<nat>)
    requires cat.Valid() && EnrollmentsLinked(cat, es)
    ensures m.None? <==> forall i :: 0 <= i < |es| ==> es[i].student != student
    ensures m.Some? ==> exists i :: 0 <= i < |es| && es[i].student == student && cat.SemesterOf(es[i].course) == m.value
    ensures m.Some? ==> forall i :: 0 <= i < |es| && es[i].student == student ==> cat.SemesterOf(es[i].course) <= m.value
  {
    if |es| == 0 then None
    else
      var last := es[|es| - 1];
      var init := es[..|es| - 1];
      assert forall i :: 0 <= i < |init| ==> init[i] == es[i];
      var rest := MaxEnrolled(cat, init, student);
      if last.student != student then rest
      else if rest.Some? && rest.value >= cat.SemesterOf(last.course) then rest
      else Some(cat.SemesterOf(last.course))
  }

  /** A final exam of semester `number` on which the student scored below
      50. */
  predicate FailedFinal(cat: Catalog, results: seq<ExamResult>, student: nat, number: nat)
    requires cat.Valid()
  {
    exists i :: 0 <= i < |results| && results[i].student == student && results[i].marks < 50.0 &&
      results[i].exam in cat.exams && cat.exams[results[i].exam].examType == Final &&
      cat.SemesterOf(cat.exams[results[i].exam].course) == number
  }

  /** Adding one more result makes the student fail semester `number`
      exactly when they already did, or the new result is a final of that
      semester below the pass mark. */
  lemma FailedFinalAppend(cat: Catalog, results: seq<ExamResult>, r: ExamResult, student: nat, number: nat)
    requires cat.Valid()
    ensures FailedFinal(cat, results + [r], student, number) <==>
      FailedFinal(cat, results, student, number) ||
      (r.student == student && r.marks < 50.0 && r.exam in cat.exams && cat.exams[r.exam].examType == Final &&
       cat.SemesterOf(cat.exams[r.exam].course) == number)
  {
    var t := results + [r];
    if FailedFinal(cat, t, student, number) {
      var i :| 0 <= i < |t| && t[i].student == student && t[i].marks < 50.0 &&
        t[i].exam in cat.exams && cat.exams[t[i].exam].examType == Final &&
        cat.SemesterOf(cat.exams[t[i].exam].course) == number;
      if i < |results| { assert t[i] == results[i]; }
    }
    if FailedFinal(cat, results, student, number) {
      var i :| 0 <= i < |results| && results[i].student == student && results[i].marks < 50.0 &&
        results[i].exam in cat.exams && cat.exams[results[i].exam].examType == Final &&
        cat.SemesterOf(cat.exams[results[i].exam].course) == number;
      assert t[i] == results[i];
    }
    assert t[|results|] == r;
  }

  /** The courses of semester `number` of `program`, in `order`. */
  function NextCourses(cat: Catalog, order: seq<nat>, program: nat, number: nat): (cs: seq<nat>)
    requires cat.Valid() && forall i :: 0 <= i < |order| ==> order[i] in cat.courses
    ensures forall c :: c in cs <==> c in order && cat.IsCourseOf(c, program, number)
    ensures NoDup(order) ==> NoDup(cs)
  {
    if |order| == 0 then []
    else
      var c := order[|order| - 1];
      var rest := NextCourses(cat, order[..|order| - 1], program, number);
      assert forall x :: x in order <==> x in order[..|order| - 1] || x == c;
      if cat.IsCourseOf(c, program, number) then rest + [c] else rest
  }

  /** Creating one enrollment per course in turn: the enrollments afterwards
      and whether every creation succeeded. A course the student is already
      enrolled in violates unique (student, course); the creations before it
      stay. */
  function EnrollAll(es: seq<Enrollment>, student: nat, cs: seq<nat>): (r: (seq<Enrollment>, bool))
    ensures |es| <= |r.0| <= |es| + |cs| && r.0[..|es|] == es
    ensures forall i :: |es| <= i < |r.0| ==> r.0[i].student == student && r.0[i].course in cs
  {
    if |cs| == 0 then (es, true)
    else
      var prev := EnrollAll(es, student, cs[..|cs| - 1]);
      var e := Enrollment(student, cs[|cs| - 1]);
      if !prev.1 || e in prev.0 then (prev.0, false) else (prev.0 + [e], true)
  }

  function EnrollmentsFor(student: nat, cs: seq<nat>): (es: seq<Enrollment>)
    ensures |es| == |cs| && forall i :: 0 <= i < |cs| ==> es[i] == Enrollment(student, cs[i])
  {
    if |cs| == 0 then [] else EnrollmentsFor(student, cs[..|cs| - 1]) + [Enrollment(student, cs[|cs| - 1])]
  }

  lemma NoDupSnoc<T>(s: seq<T>, x: T)
    ensures NoDup(s + [x]) <==> NoDup(s) && x !in s
  {
    var t := s + [x];
    if NoDup(t) {
      forall i, j | 0 <= i < j < |s| ensures s[i] != s[j] {
        assert t[i] == s[i] && t[j] == s[j];
      }
      forall k | 0 <= k < |s| ensures s[k] != x {
        assert t[k] == s[k] && t[|s|] == x;
      }
    }
    if NoDup(s) && x !in s {
      forall i, j | 0 <= i < j < |t| ensures t[i] != t[j] {
        if j == |s| { assert t[i] == s[i]; } else { assert t[i] == s[i] && t[j] == s[j]; }
      }
    }
  }

  predicate NoneEnrolled(es: seq<Enrollment>, student: nat, cs: seq<nat>)
  {
    forall i :: 0 <= i < |cs| ==> Enrollment(student, cs[i]) !in es
  }

  lemma NoneEnrolledSnoc(es: seq<Enrollment>, student: nat, cs: seq<nat>, c: nat)
    ensures NoneEnrolled(es, student, cs + [c]) <==> NoneEnrolled(es, student, cs) && Enrollment(student, c) !in es
  {
    var t := cs + [c];
    if NoneEnrolled(es, student, cs) {
      forall i | 0 <= i < |cs| ensures Enrollment(student, t[i]) !in es {
        assert t[i] == cs[i];
      }
    }
    if NoneEnrolled(es, student, t) {
      forall i | 0 <= i < |cs| ensures Enrollment(student, cs[i]) !in es {
        assert t[i] == cs[i];
      }
      assert t[|cs|] == c;
    }
  }

  /** Enrolling in every course succeeds exactly when the courses are
      distinct and the student is in none of them yet, and then appends one
      enrollment per course, in order. */
  lemma {:induction false} EnrollAllOk(es: seq<Enrollment>, student: nat, cs: seq<nat>)
    ensures EnrollAll(es, student, cs).1 <==> NoDup(cs) && NoneEnrolled(es, student, cs)
    ensures EnrollAll(es, student, cs).1 ==> EnrollAll(es, student, cs).0 == es + EnrollmentsFor(student, cs)
  {
    if |cs| > 0 {
      var init := cs[..|cs| - 1];
      var c := cs[|cs| - 1];
      assert cs == init + [c];
      EnrollAllOk(es, student, init);
      NoDupSnoc(init, c);
      NoneEnrolledSnoc(es, student, init, c);
      var prev := EnrollAll(es, student, init);
      if prev.1 {
        var added := EnrollmentsFor(student, init);
        assert prev.0 == es + added;
        assert Enrollment(student, c) in prev.0 <==> Enrollment(student, c) in es || c in init by {
          if Enrollment(student, c) in added {
            var k :| 0 <= k < |added| && added[k] == Enrollment(student, c);
            assert init[k] == c;
          }
          if c in init {
            var k :| 0 <= k < |init| && init[k] == c;
            assert added[k] == Enrollment(student, c);
          }
        }
        assert EnrollmentsFor(student, cs) == added + [Enrollment(student, c)];
      }
    }
  }

  /** Once a creation has failed, the later courses are not attempted. */
  lemma {:induction false} EnrollAllStops(es: seq<Enrollment>, student: nat, cs: seq<nat>, ds: seq<nat>)
    requires !EnrollAll(es, student, cs).1
    ensures EnrollAll(es, student, cs + ds) == EnrollAll(es, student, cs)
  {
    if |ds| == 0 {
      assert cs + ds == cs;
    } else {
      assert (cs + ds)[..|cs + ds| - 1] == cs + ds[..|ds| - 1];
      EnrollAllStops(es, student, cs, ds[..|ds| - 1]);
    }
  }

  /** What `promote_student_if_passed` does to the enrollments and the
      students, and what it returns. */
  function Promotion(cat: Catalog, results: seq<ExamResult>, es: seq<Enrollment>,
                     students: map<nat, Student>, student: nat): (r: (seq<Enrollment>, map<nat, Student>, Result<bool>))
    requires cat.Valid() && EnrollmentsLinked(cat, es) && student in students
    ensures r.2 == Success(false) <==>
      MaxEnrolled(cat, es, student).None? || FailedFinal(cat, results, student, MaxEnrolled(cat, es, student).value)
    ensures r.2 == Success(false) ==> r.0 == es && r.1 == students
    ensures r.2.Failure? ==> r.2.error == ServerError(IntegrityMsg) && r.1 == students
    ensures r.1.Keys == students.Keys
    ensures forall s :: s in students && s != student ==> r.1[s] == students[s]
    ensures r.1 != students ==> r.0 == es && r.1[student] == students[student].(status := Graduated)
    ensures |es| <= |r.0| && r.0[..|es|] == es
    ensures forall i :: |es| <= i < |r.0| ==>
      r.0[i].student == student && r.0[i].course in cat.courses &&
      cat.SemesterOf(r.0[i].course) == MaxEnrolled(cat, es, student).value + 1
  {
    var cur := MaxEnrolled(cat, es, student);
    if cur.None? || FailedFinal(cat, results, student, cur.value) then (es, students, Success(false))
    else if cat.HasSemester(students[student].program, cur.value + 1) then
      var next := NextCourses(cat, cat.courseOrder, students[student].program, cur.value + 1);
      var created := EnrollAll(es, student, next);
      (created.0, students, if created.1 then Success(true) else Failure(ServerError(IntegrityMsg)))
    else (es, students[student := students[student].(status := Graduated)], Success(true))
  }

  /** After a promotion that enrolled the student in at least one course,
      their current semester is the next one: the next final result entered
      for them is checked against that semester. */
  lemma PromotionAdvancesSemester(cat: Catalog, es: seq<Enrollment>, student: nat, program: nat, cur: nat)
    requires cat.Valid() && EnrollmentsLinked(cat, es) && MaxEnrolled(cat, es, student) == Some(cur)
    requires |NextCourses(cat, cat.courseOrder, program, cur + 1)| > 0
    requires EnrollAll(es, student, NextCourses(cat, cat.courseOrder, program, cur + 1)).1
    ensures EnrollmentsLinked(cat, EnrollAll(es, student, NextCourses(cat, cat.courseOrder, program, cur + 1)).0)
    ensures MaxEnrolled(cat, EnrollAll(es, student, NextCourses(cat, cat.courseOrder, program, cur + 1)).0, student) == Some(cur + 1)
  {
    var next := NextCourses(cat, cat.courseOrder, program, cur + 1);
    EnrollAllOk(es, student, next);
    var added := EnrollmentsFor(student, next);
    forall k | 0 <= k < |added|
      ensures added[k].student == student && added[k].course in cat.courses && cat.SemesterOf(added[k].course) == cur + 1
    {
      assert next[k] in next;
    }
    MaxAfterAppend(cat, es, added, student, cur);
  }

  /** Appending enrollments of the student, all in semester cur + 1, to
      enrollments whose highest semester is cur makes cur + 1 the highest. */
  lemma MaxAfterAppend(cat: Catalog, es: seq<Enrollment>, added: seq<Enrollment>, student: nat, cur: nat)
    requires cat.Valid() && EnrollmentsLinked(cat, es) && MaxEnrolled(cat, es, student) == Some(cur)
    requires |added| > 0
    requires forall k :: 0 <= k < |added| ==>
      added[k].student == student && added[k].course in cat.courses && cat.SemesterOf(added[k].course) == cur + 1
    ensures EnrollmentsLinked(cat, es + added)
    ensures MaxEnrolled(cat, es + added, student) == Some(cur + 1)
  {
    var after := es + added;
    forall i | 0 <= i < |after| ensures after[i].course in cat.courses {
      if i >= |es| { assert after[i] == added[i - |es|]; }
    }
    assert after[|after| - 1] == added[|added| - 1];
    var m := MaxEnrolled(cat, after, student);
    var j :| 0 <= j < |after| && after[j].student == student && cat.SemesterOf(after[j].course) == m.value;
    if j >= |es| {
      assert after[j] == added[j - |es|];
    }
  }

  /** The results of one student joined with their courses, in query
      order. */
  function StudentRows(cat: Catalog, results: seq<ExamResult>, student: nat): (rows: seq<ResultRow>)
    requires cat.Valid() && forall i :: 0 <= i < |results| ==> results[i].exam in cat.exams
    ensures |rows| <= |results|
    ensures forall i :: 0 <= i < |results| && results[i].student == student ==> RowOf(cat, results[i]) in rows
    ensures forall x :: x in rows ==>
      exists i :: 0 <= i < |results| && results[i].student == student && x == RowOf(cat, results[i])
  {
    if |results| == 0 then []
    else
      var init := results[..|results| - 1];
      var rest := StudentRows(cat, init, student);
      var r := results[|results| - 1];
      assert forall i :: 0 <= i < |init| ==> init[i] == results[i];
      if r.student != student then rest
      else rest + [RowOf(cat, r)]
  }

  /** One result joined with its course: marks, credits and semester. */
  function RowOf(cat: Catalog, r: ExamResult): ResultRow
    requires cat.Valid() && r.exam in cat.exams
  {
    var c := cat.exams[r.exam].course;
    ResultRow(r.marks, cat.courses[c].credits, cat.SemesterOf(c))
  }

  /** The rows of semester `k`, in order. */
  function Bucket(rows: seq<ResultRow>, k: nat): (b: seq<ResultRow>)
    ensures forall x: ResultRow :: x in b ==> x.semester == k
    ensures forall x: ResultRow :: x.semester == k ==> multiset(b)[x] == multiset(rows)[x]
  {
    if |rows| == 0 then []
    else
      var rest := Bucket(rows[..|rows| - 1], k);
      assert rows == rows[..|rows| - 1] + [rows[|rows| - 1]];
      if rows[|rows| - 1].semester == k then rest + [rows[|rows| - 1]] else rest
  }

  /** The `semesters` dictionary as the transcript loop builds it. */
  function GroupBy(rows: seq<ResultRow>): map<nat, seq<ResultRow>>
  {
    if |rows| == 0 then map[]
    else
      var g := GroupBy(rows[..|rows| - 1]);
      var r := rows[|rows| - 1];
      g[r.semester := (if r.semester in g then g[r.semester] else []) + [r]]
  }

  /** The transcript has one bucket per semester that has a result, and the
      bucket of semester k holds exactly the results of semester k, in query
      order: every result lands in exactly one bucket. */
  lemma {:induction false} GroupByBuckets(rows: seq<ResultRow>)
    ensures forall k :: k in GroupBy(rows) <==> exists i :: 0 <= i < |rows| && rows[i].semester == k
    ensures forall k :: k in GroupBy(rows) ==> GroupBy(rows)[k] == Bucket(rows, k)
  {
    if |rows| > 0 {
      var init := rows[..|rows| - 1];
      var r := rows[|rows| - 1];
      GroupByBuckets(init);
      var g := GroupBy(init);
      forall k ensures k in GroupBy(rows) <==> exists i :: 0 <= i < |rows| && rows[i].semester == k {
        if k in g {
          var i :| 0 <= i < |init| && init[i].semester == k;
          assert rows[i] == init[i];
        }
        if exists i :: 0 <= i < |rows| && rows[i].semester == k {
          var i :| 0 <= i < |rows| && rows[i].semester == k;
          if i < |rows| - 1 { assert init[i] == rows[i]; }
        }
      }
      forall k | k in GroupBy(rows) ensures GroupBy(rows)[k] == Bucket(rows, k) {
        if k != r.semester {
          assert GroupBy(rows)[k] == g[k];
        } else if k !in g {
          BucketEmpty(init, k);
        }
      }
    }
  }

  lemma {:induction false} BucketEmpty(rows: seq<ResultRow>, k: nat)
    requires forall i :: 0 <= i < |rows| ==> rows[i].semester != k
    ensures Bucket(rows, k) == []
  {
    if |rows| > 0 {
      BucketEmpty(rows[..|rows| - 1], k);
    }
  }

  /** A result out of range in some bucket is a result out of range among
      all of them. */
  lemma BucketInvalid(rows: seq<ResultRow>, k: nat)
    ensures !AllValid(Bucket(rows, k)) ==> !AllValid(rows)
  {
    var b := Bucket(rows, k);
    if !AllValid(b) {
      var i :| 0 <= i < |b| && !ValidMarks(b[i].marks);
      assert multiset(b)[b[i]] > 0;
      assert b[i] in rows;
      var j :| 0 <= j < |rows| && rows[j] == b[i];
    }
  }

  predicate Staff(role: string) { role == "faculty" || role == "admin" }

  /** The form's DecimalField(max_digits=5, decimal_places=2): at most two
      decimals and three whole digits. Nothing bounds the marks to 0..100. */
  predicate MarksFit(marks: real)
  {
    IsCents(marks) && -1000.0 < marks < 1000.0
  }

  /** The first transcript loop: appending each result to the list of its
      semester. */
  method GroupBySemester(rows: seq<ResultRow>) returns (semesters: map<nat, seq<ResultRow>>)
    ensures semesters == GroupBy(rows)
  {
    semesters := map[];
    var i := 0;
    while i < |rows|
      invariant 0 <= i <= |rows|
      invariant semesters == GroupBy(rows[..i])
    {
      assert rows[..i + 1][..i] == rows[..i];
      var k := rows[i].semester;
      if k !in semesters {
        semesters := semesters[k := []];
      }
      semesters := semesters[k := semesters[k] + [rows[i]]];
      i := i + 1;
    }
    assert rows[..|rows|] == rows;
  }

  /** The second transcript loop: `calculate_gpa` of every semester's list;
      a result out of range raises from whichever semester holds it. */
  method SemesterGpas(semesters: map<nat, seq<ResultRow>>) returns (r: Result<map<nat, real>>)
    ensures r.Failure? <==> exists k :: k in semesters && !AllValid(semesters[k])
    ensures r.Failure? ==> r.error == ServerError(MarksRangeMsg)
    ensures r.Success? ==> r.value.Keys == semesters.Keys
    ensures r.Success? ==> forall k :: k in r.value ==> Success(r.value[k]) == GpaOf(semesters[k])
  {
    var gpas: map<nat, real> := map[];
    var todo := semesters.Keys;
    while todo != {}
      invariant todo <= semesters.Keys
      invariant gpas.Keys == semesters.Keys - todo
      invariant forall k :: k in gpas ==> Success(gpas[k]) == GpaOf(semesters[k])
      decreases |todo|
    {
      var k :| k in todo;
      var gpa := CalculateGpa(semesters[k]);
      if gpa.Failure? {
        return Failure(gpa.error);
      }
      gpas := gpas[k := gpa.value];
      todo := todo - {k};
    }
    r := Success(gpas);
  }

  /** The exams tables: results and enrollments point at known rows, and
      (exam, student) and (student, course) are unique. */
  predicate TablesValid(catalog: Catalog, students: map<nat, Student>, results: seq<ExamResult>,
                        enrollments: seq<Enrollment>)
  {
    catalog.Valid() &&
    (forall i :: 0 <= i < |results| ==> results[i].exam in catalog.exams && results[i].student in students) &&
    // unique (exam, student)
    (forall i, j :: 0 <= i < j < |results| ==>
       (results[i].exam, results[i].student) != (results[j].exam, results[j].student)) &&
    EnrollmentsLinked(catalog, enrollments) &&
    (forall i :: 0 <= i < |enrollments| ==> enrollments[i].student in students) &&
    // unique (student, course)
    NoDup(enrollments)
  }

  /** Saving a result for a known exam and student that has none yet keeps
      the tables valid. */
  lemma SaveResultValid(catalog: Catalog, students: map<nat, Student>, results: seq<ExamResult>,
                        enrollments: seq<Enrollment>, r: ExamResult)
    requires TablesValid(catalog, students, results, enrollments)
    requires r.exam in catalog.exams && r.student in students
    requires forall i :: 0 <= i < |results| ==> results[i].exam != r.exam || results[i].student != r.student
    ensures TablesValid(catalog, students, results + [r], enrollments)
  {
    var after := results + [r];
    forall i, j | 0 <= i < j < |after|
      ensures (after[i].exam, after[i].student) != (after[j].exam, after[j].student)
    {
      assert after[i] == results[i];
      if j < |results| { assert after[j] == results[j]; }
    }
  }

  /** The enrollment loop of `promote_student_if_passed`: one `create` per
      course in turn, the first one that breaks unique (student, course)
      raising and ending the loop. */
  method EnrollEach(cat: Catalog, start: seq<Enrollment>, student: nat, next: seq<nat>)
    returns (es: seq<Enrollment>, ok: bool)
    requires cat.Valid() && EnrollmentsLinked(cat, start) && NoDup(start)
    requires forall k :: 0 <= k < |next| ==> next[k] in cat.courses
    ensures (es, ok) == EnrollAll(start, student, next)
    ensures EnrollmentsLinked(cat, es) && NoDup(es)
    ensures forall k :: 0 <= k < |es| ==> es[k] in start || es[k].student == student
  {
    es := start;
    ok := true;
    var i := 0;
    while i < |next| && ok
      invariant 0 <= i <= |next|
      invariant ok ==> EnrollAll(start, student, next[..i]) == (es, true)
      invariant !ok ==> EnrollAll(start, student, next) == (es, false)
      invariant EnrollmentsLinked(cat, es) && NoDup(es)
    {
      assert next[..i + 1][..i] == next[..i];
      var e := Enrollment(student, next[i]);
      if e in es {
        EnrollAllStops(start, student, next[..i + 1], next[i + 1..]);
        assert next[..i + 1] + next[i + 1..] == next;
        ok := false;
      } else {
        es := es + [e];
      }
      i := i + 1;
    }
    if ok {
      assert next[..|next|] == next;
    }
  }

  /** `promote_student_if_passed` on the tables it reads and writes: the
      new enrollments, the new students and what it returns. */
  method PromoteStudentIfPassed(catalog: Catalog, results: seq<ExamResult>, enrollments: seq<Enrollment>,
                                students: map<nat, Student>, student: nat)
    returns (es: seq<Enrollment>, students': map<nat, Student>, r: Result<bool>)
    requires TablesValid(catalog, students, results, enrollments) && student in students
    ensures TablesValid(catalog, students', results, es)
    ensures (es, students', r) == Promotion(catalog, results, enrollments, students, student)
  {
    es, students' := enrollments, students;
    var cur := MaxEnrolled(catalog, enrollments, student);
    if cur.None? {
      return es, students', Success(false);
    }
    if FailedFinal(catalog, results, student, cur.value) {
      return es, students', Success(false);
    }
    var program := students[student].program;
    if !catalog.HasSemester(program, cur.value + 1) {
      students' := students[student := students[student].(status := Graduated)];
      return es, students', Success(true);
    }
    var next := NextCourses(catalog, catalog.courseOrder, program, cur.value + 1);
    forall k | 0 <= k < |next| ensures next[k] in catalog.courses {
      assert next[k] in next;
    }
    var ok;
    es, ok := EnrollEach(catalog, enrollments, student, next);
    assert forall k :: 0 <= k < |es| ==> es[k].student in students;
    r := if ok then Success(true) else Failure(ServerError(IntegrityMsg));
  }

  class ExamsDb {
    var catalog: Catalog
    var students: map<nat, Student>
    var results: seq<ExamResult>
    var enrollments: seq<Enrollment>

    ghost predicate Valid()
      reads this
    {
      TablesValid(catalog, students, results, enrollments)
    }

    constructor(cat: Catalog, students: map<nat, Student>)
      requires cat.Valid()
      ensures Valid()
      ensures catalog == cat && this.students == students && results == [] && enrollments == []
    {
      catalog := cat;
      this.students := students;
      results := [];
      enrollments := [];
    }

    /** What the bound result form accepts: a known exam and student, marks
      that fit the field, and no result yet for that exam and student. */
    predicate FormValid(exam: nat, student: nat, marks: real)
      reads this
    {
      exam in catalog.exams && student in students && MarksFit(marks) &&
      forall i :: 0 <= i < |results| ==> results[i].exam != exam || results[i].student != student
    }

    /** `add_exam_result` on a POST: only faculty and admins; an invalid form
      (unknown exam or student, marks that do not fit the field, a second
      result for the same exam and student) is shown again; a saved final
      result triggers the promotion check for its student. */
    method AddExamResult(role: string, exam: nat, student: nat, marks: real) returns (page: Page)
      requires Valid()
      modifies this
      ensures Valid()
      ensures catalog == old(catalog)
      ensures !Staff(role) ==> page == Redirect(UnauthorizedUrl) && unchanged(this)
      ensures Staff(role) && !old(FormValid(exam, student, marks)) ==> page == ResultForm && unchanged(this)
      ensures Staff(role) && old(FormValid(exam, student, marks)) ==>
        results == old(results) + [ExamResult(exam, student, marks)] &&
        if catalog.exams[exam].examType != Final then
          page == Redirect(ResultListUrl) && enrollments == old(enrollments) && students == old(students)
        else
          var p := Promotion(catalog, results, old(enrollments), old(students), student);
          enrollments == p.0 && students == p.1 &&
          page == (if p.2.Success? then Redirect(ResultListUrl) else Raised(p.2.error))
    {
      if role != "faculty" && role != "admin" {
        return Redirect(UnauthorizedUrl);
      }
      if exam !in catalog.exams || student !in students || !MarksFit(marks) {
        return ResultForm;
      }
      if exists i :: 0 <= i < |results| && results[i].exam == exam && results[i].student == student {
        return ResultForm;
      }
      page := StoreResult(ExamResult(exam, student, marks));
    }

    /** The save of a valid form: the result is stored and, for a final
        exam, the promotion check runs for its student. */
    method StoreResult(r: ExamResult) returns (page: Page)
      requires Valid() && FormValid(r.exam, r.student, r.marks)
      modifies this
      ensures Valid()
      ensures catalog == old(catalog) && results == old(results) + [r]
      ensures catalog.exams[r.exam].examType != Final ==>
                page == Redirect(ResultListUrl) && enrollments == old(enrollments) && students == old(students)
      ensures catalog.exams[r.exam].examType == Final ==>
                var p := Promotion(catalog, results, old(enrollments), old(students), r.student);
                enrollments == p.0 && students == p.1 &&
                page == (if p.2.Success? then Redirect(ResultListUrl) else Raised(p.2.error))
    {
      var saved := results + [r];
      SaveResultValid(catalog, students, results, enrollments, r);
      if catalog.exams[r.exam].examType != Final {
        results := saved;
      } else {
        var es, sts, promoted := PromoteStudentIfPassed(catalog, saved, enrollments, students, r.student);
        results, enrollments, students := saved, es, sts;
        if promoted.Failure? {
          return Raised(promoted.error);
        }
      }
      page := Redirect(ResultListUrl);
    }

    /** `my_transcript`: only students; the student's results grouped by
      semester in query order, each group's GPA, and the GPA over all. A
      result whose marks are outside 0..100 makes `calculate_grade` raise. */
    method MyTranscript(role: string, student: Option<nat>) returns (page: Page)
      requires Valid()
      ensures role != "student" ==> page == Redirect(UnauthorizedUrl)
      ensures role == "student" && student.None? ==> page == Raised(ServerError(NoStudentMsg))
      ensures role == "student" && student.Some? ==>
        var rows := StudentRows(catalog, results, student.value);
        (page.Raised? <==> !AllValid(rows)) &&
        (page.Raised? ==> page.error == ServerError(MarksRangeMsg)) &&
        (page.TranscriptPage? ==>
           page.transcript.semesters == GroupBy(rows) &&
           page.transcript.semesterGpas.Keys == page.transcript.semesters.Keys &&
           (forall k :: k in page.transcript.semesterGpas ==>
              Success(page.transcript.semesterGpas[k]) == GpaOf(page.transcript.semesters[k])) &&
           Success(page.transcript.overallCgpa) == GpaOf(rows))
      ensures page.Redirect? || page.Raised? || page.TranscriptPage?
    {
      if role != "student" {
        return Redirect(UnauthorizedUrl);
      }
      if student.None? {
        return Raised(ServerError(NoStudentMsg));
      }
      var rows := StudentRows(catalog, results, student.value);
      var semesters := GroupBySemester(rows);
      GroupByBuckets(rows);
      var gpas := SemesterGpas(semesters);
      if gpas.Failure? {
        var k :| k in semesters && !AllValid(semesters[k]);
        BucketInvalid(rows, k);
        return Raised(gpas.error);
      }
      var overall := CalculateGpa(rows);
      if overall.Failure? {
        return Raised(overall.error);
      }
      page := TranscriptPage(Transcript(semesters, gpas.value, overall.value));
    }
  }
}
