/** The CMS chatbot's rule-based front end: classifying a question by
    keywords, answering the classes it can from the database, and handing
    everything else to the question-answering model (which is not part of
    this model; the reply only records that the question goes to it). */
module Chatbot {
  import opened Common
  import opened Grading
  import opened Exams

  // ---------------------------------------------------------------------
  // Text helpers.
  // ---------------------------------------------------------------------

  /** `str.lower()` on ASCII letters. */
  function LowerChar(c: char): (d: char)
    ensures 'A' <= c <= 'Z' ==> d as int == c as int + 32
    ensures !('A' <= c <= 'Z') ==> d == c
  {
    if 'A' <= c <= 'Z' then (c as int + 32) as char else c
  }

  function Lower(s: string): (t: string)
    ensures |t| == |s| && forall i :: 0 <= i < |s| ==> t[i] == LowerChar(s[i])
  {
    if |s| == 0 then [] else [LowerChar(s[0])] + Lower(s[1..])
  }

  /** The whitespace modelled for `str.strip()`: space, \t, \n, \r, \v
      and \f (it also removes \x1c-\x1f and non-ASCII whitespace). */
  predicate IsSpace(c: char)
  {
    c == ' ' || c == '\t' || c == '\n' || c == '\r' || c == 11 as char || c == 12 as char
  }

  function TrimLeft(s: string): string
  {
    if |s| > 0 && IsSpace(s[0]) then TrimLeft(s[1..]) else s
  }

  function TrimRight(s: string): string
  {
    if |s| > 0 && IsSpace(s[|s| - 1]) then TrimRight(s[..|s| - 1]) else s
  }

  function Strip(s: string): string { TrimRight(TrimLeft(s)) }

  /** Python's `w in s` for strings. */
  predicate Contains(s: string, w: string)
  {
    exists i :: 0 <= i <= |s| - |w| && OccursAt(s, w, i)
  }

  predicate OccursAt(s: string, w: string, i: int)
  {
    0 <= i <= |s| - |w| && s[i..i + |w|] == w
  }

  predicate NoSpace(w: string)
  {
    forall i :: 0 <= i < |w| ==> !IsSpace(w[i])
  }

  lemma DropSpaceHead(s: string, w: string)
    requires |s| > 0 && IsSpace(s[0]) && |w| > 0 && NoSpace(w)
    ensures Contains(s, w) <==> Contains(s[1..], w)
  {
    if Contains(s, w) {
      var i :| 0 <= i <= |s| - |w| && OccursAt(s, w, i);
      assert s[i..i + |w|][0] == s[i];
      assert i >= 1;
      assert s[1..][i - 1..i - 1 + |w|] == s[i..i + |w|];
      assert OccursAt(s[1..], w, i - 1);
    }
    if Contains(s[1..], w) {
      var j :| 0 <= j <= |s[1..]| - |w| && OccursAt(s[1..], w, j);
      assert s[j + 1..j + 1 + |w|] == s[1..][j..j + |w|];
      assert OccursAt(s, w, j + 1);
    }
  }

  lemma DropSpaceTail(s: string, w: string)
    requires |s| > 0 && IsSpace(s[|s| - 1]) && |w| > 0 && NoSpace(w)
    ensures Contains(s, w) <==> Contains(s[..|s| - 1], w)
  {
    if Contains(s, w) {
      var i :| 0 <= i <= |s| - |w| && OccursAt(s, w, i);
      assert s[i..i + |w|][|w| - 1] == s[i + |w| - 1];
      assert i + |w| <= |s| - 1;
      assert s[..|s| - 1][i..i + |w|] == s[i..i + |w|];
      assert OccursAt(s[..|s| - 1], w, i);
    }
    if Contains(s[..|s| - 1], w) {
      var j :| 0 <= j <= |s[..|s| - 1]| - |w| && OccursAt(s[..|s| - 1], w, j);
      assert s[j..j + |w|] == s[..|s| - 1][j..j + |w|];
      assert OccursAt(s, w, j);
    }
  }

  /** Stripping whitespace never adds or removes an occurrence of a word
      without whitespace in it. */
  lemma {:induction false} StripKeepsWords(s: string, w: string)
    requires |w| > 0 && NoSpace(w)
    ensures Contains(Strip(s), w) <==> Contains(s, w)
  {
    TrimLeftKeepsWords(s, w);
    TrimRightKeepsWords(TrimLeft(s), w);
  }

  lemma {:induction false} TrimLeftKeepsWords(s: string, w: string)
    requires |w| > 0 && NoSpace(w)
    ensures Contains(TrimLeft(s), w) <==> Contains(s, w)
  {
    if |s| > 0 && IsSpace(s[0]) {
      DropSpaceHead(s, w);
      TrimLeftKeepsWords(s[1..], w);
    }
  }

  lemma {:induction false} TrimRightKeepsWords(s: string, w: string)
    requires |w| > 0 && NoSpace(w)
    ensures Contains(TrimRight(s), w) <==> Contains(s, w)
  {
    if |s| > 0 && IsSpace(s[|s| - 1]) {
      DropSpaceTail(s, w);
      TrimRightKeepsWords(s[..|s| - 1], w);
    }
  }

  // ---------------------------------------------------------------------
  // Intent detection.
  // ---------------------------------------------------------------------

  datatype Intent = Greeting | Gpa | Courses | Promotion | TranscriptIntent | General

  /** The label `detect_intent` returns for each intent. */
  function Label(i: Intent): (s: string)
    ensures s in {"greeting", "gpa", "courses", "promotion", "transcript", "general"}
  {
    match i
    case Greeting => "greeting"
    case Gpa => "gpa"
    case Courses => "courses"
    case Promotion => "promotion"
    case TranscriptIntent => "transcript"
    case General => "general"
  }

  const Greetings: seq<string> := ["hi", "hello", "salam", "hey", "assalamualaikum"]

  /** Some word of `ws` occurs in `q`. */
  predicate AnyContains(q: string, ws: seq<string>)
  {
    exists k :: 0 <= k < |ws| && Contains(q, ws[k])
  }

  /** The keyword chain on an already normalised question: a greeting
      exactly when some greeting occurs, and any other intent but General
      only when one of its own keywords occurs. */
  function Classify(q: string): (i: Intent)
    ensures i == Greeting <==> AnyContains(q, Greetings)
    ensures i == Gpa ==> Contains(q, "gpa")
    ensures i == Courses ==> Contains(q, "course") || Contains(q, "subject")
    ensures i == Promotion ==> Contains(q, "promoted") || Contains(q, "promotion")
    ensures i == TranscriptIntent ==> Contains(q, "transcript") || Contains(q, "result")
  {
    if AnyContains(q, Greetings) then Greeting
    else if Contains(q, "gpa") then Gpa
    else if Contains(q, "course") || Contains(q, "subject") then Courses
    else if Contains(q, "promoted") || Contains(q, "promotion") then Promotion
    else if Contains(q, "transcript") || Contains(q, "result") then TranscriptIntent
    else General
  }

  /** `detect_intent`: surrounding whitespace never matters, so the intent
      is the keyword chain on the lower-cased question. */
  function DetectIntent(question: string): (i: Intent)
    ensures i == Classify(Lower(question))
    ensures i == Greeting <==> AnyContains(Lower(question), Greetings)
  {
    StripIrrelevant(Lower(question));
    Classify(Strip(Lower(question)))
  }

  /** The keyword rules in priority order, as a table. */
  const Rules: seq<(seq<string>, Intent)> :=
    [(Greetings, Greeting), (["gpa"], Gpa), (["course", "subject"], Courses),
     (["promoted", "promotion"], Promotion), (["transcript", "result"], TranscriptIntent)]

  /** The intent of the first rule with a word in `q`; General when none
      has. */
  function FirstRule(rules: seq<(seq<string>, Intent)>, q: string): Intent
  {
    if |rules| == 0 then General
    else if AnyContains(q, rules[0].0) then rules[0].1
    else FirstRule(rules[1..], q)
  }

  lemma AnyOfTwo(q: string, a: string, b: string)
    ensures AnyContains(q, [a, b]) <==> Contains(q, a) || Contains(q, b)
  {
    var ws := [a, b];
    assert ws[0] == a && ws[1] == b;
  }

  /** Intent detection is the first matching rule of the table greeting >
      gpa > courses > promotion > transcript, and General otherwise. */
  lemma ClassifyIsFirstRule(q: string)
    ensures Classify(q) == FirstRule(Rules, q)
  {
    var r := Rules;
    var r1 := r[1..];
    var r2 := r1[1..];
    var r3 := r2[1..];
    var r4 := r3[1..];
    assert r4 == [(["transcript", "result"], TranscriptIntent)] && r4[1..] == [];
    assert r3 == [(["promoted", "promotion"], Promotion)] + r4;
    assert r2 == [(["course", "subject"], Courses)] + r3;
    assert r1 == [(["gpa"], Gpa)] + r2;
    AnyOfTwo(q, "transcript", "result");
    AnyOfTwo(q, "promoted", "promotion");
    AnyOfTwo(q, "course", "subject");
    var g := ["gpa"];
    assert AnyContains(q, g) <==> Contains(q, "gpa") by { assert g[0] == "gpa"; }
    assert FirstRule(r4, q) == if Contains(q, "transcript") || Contains(q, "result") then TranscriptIntent else General;
    assert FirstRule(r3, q) == if Contains(q, "promoted") || Contains(q, "promotion") then Promotion else FirstRule(r4, q);
    assert FirstRule(r2, q) == if Contains(q, "course") || Contains(q, "subject") then Courses else FirstRule(r3, q);
    assert FirstRule(r1, q) == if Contains(q, "gpa") then Gpa else FirstRule(r2, q);
  }

  /** Every keyword, in priority order. */
  const Keywords: seq<string> :=
    Greetings + ["gpa", "course", "subject", "promoted", "promotion", "transcript", "result"]

  lemma KeywordsAreWords()
    ensures forall k :: 0 <= k < |Keywords| ==> |Keywords[k]| > 0 && NoSpace(Keywords[k])
  {
  }

  /** Surrounding whitespace never changes the intent. */
  lemma StripIrrelevant(q: string)
    ensures Classify(Strip(q)) == Classify(q)
  {
    KeywordsAreWords();
    forall k | 0 <= k < |Keywords| ensures Contains(Strip(q), Keywords[k]) <==> Contains(q, Keywords[k]) {
      StripKeepsWords(q, Keywords[k]);
    }
    assert forall k :: 0 <= k < |Greetings| ==> Greetings[k] == Keywords[k];
    assert AnyContains(Strip(q), Greetings) <==> AnyContains(q, Greetings);
    assert Keywords[5] == "gpa" && Keywords[6] == "course" && Keywords[7] == "subject";
    assert Keywords[8] == "promoted" && Keywords[9] == "promotion";
    assert Keywords[10] == "transcript" && Keywords[11] == "result";
  }

  /** The question goes to the model exactly when it contains none of the
      keywords (after lower-casing). */
  lemma GeneralIffNoKeyword(question: string)
    ensures DetectIntent(question) == General <==>
      forall k :: 0 <= k < |Keywords| ==> !Contains(Lower(question), Keywords[k])
  {
    var q := Lower(question);
    StripIrrelevant(q);
    assert forall k :: 0 <= k < |Greetings| ==> Greetings[k] == Keywords[k];
    assert Keywords[5] == "gpa" && Keywords[6] == "course" && Keywords[7] == "subject";
    assert Keywords[8] == "promoted" && Keywords[9] == "promotion";
    assert Keywords[10] == "transcript" && Keywords[11] == "result";
    if AnyContains(q, Greetings) {
      var k :| 0 <= k < |Greetings| && Contains(q, Greetings[k]);
      assert Contains(q, Keywords[k]);
    }
  }

  /** Any greeting in the lower-cased question makes it a greeting,
      whatever else it asks. */
  lemma GreetingWins(question: string, k: nat)
    requires k < |Greetings| && Contains(Lower(question), Greetings[k])
    ensures DetectIntent(question) == Greeting
  {
  }

  /** Matching is on substrings: "hi" inside "this" makes any question with
      the word "this" a greeting. */
  lemma ThisIsAGreeting(question: string)
    requires Contains(Lower(question), "this")
    ensures DetectIntent(question) == Greeting
  {
    var q := Lower(question);
    var i :| 0 <= i <= |q| - 4 && OccursAt(q, "this", i);
    assert q[i..i + 4] == "this";
    assert q[i + 1] == q[i..i + 4][1] == 'h' && q[i + 2] == q[i..i + 4][2] == 'i';
    assert q[i + 1..i + 3] == "hi";
    assert OccursAt(q, Greetings[0], i + 1);
    GreetingWins(question, 0);
  }

  /** Case does not matter: a question and its lower-cased form have the
      same intent. */
  lemma CaseInsensitive(question: string)
    ensures DetectIntent(Lower(question)) == DetectIntent(question)
  {
    var l := Lower(question);
    forall i | 0 <= i < |l| ensures Lower(l)[i] == l[i] {
      assert l[i] == LowerChar(question[i]);
    }
    assert Lower(l) == l;
  }

  // ---------------------------------------------------------------------
  // Answers from the database.
  // ---------------------------------------------------------------------

  const GreetingReply: string := "Hello! How can I assist you in your university matters?"
  const NoProfileMsg: string := "Student profile not found."
  const NoResultsMsg: string := "No exam results found."
  const NoCoursesMsg: string := "You are not enrolled in any courses."
  const NoSemesterMsg: string := "No semester information found."
  const CompletedMsg: string := "Congratulations! You have completed all semesters."
  const NoTranscriptMsg: string := "No exam results to generate transcript."

  /** A chatbot reply. The formatted ones carry the values they print. */
  datatype Reply =
    | Text(text: string)
    | CgpaReply(cgpa: real)                   // "Your current CGPA is {cgpa}."
    | CourseList(courses: seq<nat>)           // "Your enrolled courses are: …"
    | CurrentSemester(number: nat)            // "You are currently in Semester {n}."
    | TranscriptSummary(rows: seq<ResultRow>) // one line per result
    | AskModel(question: string)              // handed to the QA model

  /** What `get_student_gpa` answers for the student's results: the ladder
      of `calculate_grade` without its range check, 0 without credits. */
  function GpaReply(rows: seq<ResultRow>): (r: Reply)
    ensures r.Text? <==> |rows| == 0
    ensures r.Text? ==> r.text == NoResultsMsg
    ensures r.CgpaReply? <==> |rows| > 0
    ensures |rows| > 0 && Credits(rows) == 0 ==> r == CgpaReply(0.0)
    ensures r.CgpaReply? ==> 0.0 <= r.cgpa <= 4.0
  {
    Round2OfCents(0);
    Round2OfCents(400);
    if |rows| == 0 then Text(NoResultsMsg)
    else if Credits(rows) == 0 then CgpaReply(Round2(0.0))
    else
      WeightedPointsBounds(rows);
      MeanInUnit(WeightedPoints(rows), Credits(rows) as real);
      Round2Between(WeightedPoints(rows) / Credits(rows) as real, 0.0, 4.0);
      CgpaReply(Round2(WeightedPoints(rows) / Credits(rows) as real))
  }

  /** `get_student_gpa` once the student is known: the loop with its own
      copy of the points ladder. */
  method GetStudentGpa(rows: seq<ResultRow>) returns (reply: Reply)
    ensures reply == GpaReply(rows)
  {
    if |rows| == 0 {
      return Text(NoResultsMsg);
    }
    var totalPoints := 0.0;
    var totalCredits := 0;
    var i := 0;
    while i < |rows|
      invariant 0 <= i <= |rows|
      invariant totalPoints == WeightedPoints(rows[..i])
      invariant totalCredits == Credits(rows[..i])
    {
      assert rows[..i + 1][..i] == rows[..i];
      var marks := rows[i].marks;
      var points := if marks >= 85.0 then 4.0
                    else if marks >= 75.0 then 3.5
                    else if marks >= 65.0 then 3.0
                    else if marks >= 55.0 then 2.5
                    else if marks >= 50.0 then 2.0
                    else 0.0;
      totalPoints := totalPoints + points * rows[i].credits as real;
      totalCredits := totalCredits + rows[i].credits;
      i := i + 1;
    }
    assert rows[..|rows|] == rows;
    var gpa := if totalCredits != 0 then totalPoints / totalCredits as real else 0.0;
    reply := CgpaReply(Round2(gpa));
  }

  /** On results whose marks are all within 0..100 the chatbot reports the
      transcript's overall CGPA. */
  lemma ChatGpaAgreesWithTranscript(rows: seq<ResultRow>)
    requires |rows| > 0 && AllValid(rows)
    ensures GpaReply(rows) == CgpaReply(GpaOf(rows).value)
  {
    Round2OfCents(0);
  }

  /** `Semester.objects.filter(program=…).count()`: at most the number of
      semesters, and zero exactly when the program has none. */
  function ProgramSemesterCount(cat: Catalog, program: nat): (n: nat)
    ensures n <= |cat.semesters|
    ensures n == 0 <==> forall s :: s in cat.semesters ==> cat.semesters[s].program != program
  {
    var ids := set s | s in cat.semesters && cat.semesters[s].program == program;
    assert cat.semesters.Keys == ids + (cat.semesters.Keys - ids);
    |ids|
  }

  /** What `check_promotion_status` answers. */
  function PromotionStatus(cat: Catalog, es: seq<Enrollment>, students: map<nat, Student>, student: nat): (r: Reply)
    requires cat.Valid() && EnrollmentsLinked(cat, es) && student in students
    ensures r == Text(CompletedMsg) <==>
      MaxEnrolled(cat, es, student).Some? &&
      MaxEnrolled(cat, es, student).value >= ProgramSemesterCount(cat, students[student].program)
  {
    var cur := MaxEnrolled(cat, es, student);
    if cur.None? then Text(NoSemesterMsg)
    else if cur.value >= ProgramSemesterCount(cat, students[student].program) then Text(CompletedMsg)
    else CurrentSemester(cur.value)
  }

  /** When a program's semesters are numbered 1..n, the chatbot says
      "completed" exactly when promotion would graduate the student (no
      semester after the current one). */
  lemma CompletedIffNoNextSemester(cat: Catalog, es: seq<Enrollment>, students: map<nat, Student>,
                                   student: nat, n: nat)
    requires cat.Valid() && EnrollmentsLinked(cat, es) && student in students
    requires MaxEnrolled(cat, es, student).Some?
    requires ProgramSemesterCount(cat, students[student].program) == n
    requires forall k :: 1 <= k <= n ==> cat.HasSemester(students[student].program, k)
    requires forall s :: s in cat.semesters && cat.semesters[s].program == students[student].program ==>
      1 <= cat.semesters[s].number <= n
    ensures PromotionStatus(cat, es, students, student) == Text(CompletedMsg) <==>
      !cat.HasSemester(students[student].program, MaxEnrolled(cat, es, student).value + 1)
  {
    var p := students[student].program;
    var cur := MaxEnrolled(cat, es, student).value;
    if cur < n {
      assert cat.HasSemester(p, cur + 1);
    } else {
      forall s | s in cat.semesters ensures cat.semesters[s] != Semester(p, cur + 1) {
        if cat.semesters[s].program == p {
          assert cat.semesters[s].number <= n;
        }
      }
    }
  }

  /** The courses of the student's enrollments, in order. */
  function EnrolledCourses(es: seq<Enrollment>, student: nat): (cs: seq<nat>)
    ensures |cs| == 0 <==> forall i :: 0 <= i < |es| ==> es[i].student != student
    ensures forall c :: c in cs <==> Enrollment(student, c) in es
  {
    if |es| == 0 then []
    else
      var rest := EnrolledCourses(es[..|es| - 1], student);
      assert es == es[..|es| - 1] + [es[|es| - 1]];
      if es[|es| - 1].student == student then rest + [es[|es| - 1].course] else rest
  }

  /** `handle_real_data`: a fixed greeting, an answer from the database for
      the four data intents (each first needs the user's student profile),
      and the question itself, unchanged, to the model otherwise. */
  function HandleRealData(question: string, cat: Catalog, results: seq<ExamResult>,
                          es: seq<Enrollment>, students: map<nat, Student>, user: Option<nat>): (r: Reply)
    requires cat.Valid() && EnrollmentsLinked(cat, es)
    requires forall i :: 0 <= i < |results| ==> results[i].exam in cat.exams
    requires user.Some? ==> user.value in students
    ensures r.AskModel? <==> DetectIntent(question) == General
    ensures r.AskModel? ==> r.question == question
    ensures r == Text(GreetingReply) <==> DetectIntent(question) == Greeting
    ensures r.CgpaReply? ==> DetectIntent(question) == Gpa && 0.0 <= r.cgpa <= 4.0
  {
    var intent := DetectIntent(question);
    if intent == Greeting then Text(GreetingReply)
    else if intent == General then AskModel(question)
    else if user.None? then Text(NoProfileMsg)
    else
      var s := user.value;
      match intent
      case Gpa =>
        var rows := StudentRows(cat, results, s);
        GpaReply(rows)
      case Courses =>
        var cs := EnrolledCourses(es, s);
        if |cs| == 0 then Text(NoCoursesMsg) else CourseList(cs)
      case Promotion => PromotionStatus(cat, es, students, s)
      case TranscriptIntent =>
        var rows := StudentRows(cat, results, s);
        if |rows| == 0 then Text(NoTranscriptMsg) else TranscriptSummary(rows)
  }
}
