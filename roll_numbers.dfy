/** Roll numbers of the backend app's student profiles: when a new user
    with the STUDENT role is saved, a profile is created whose roll number
    is "ROLL-" followed by the user id padded with zeros to four digits
    (`f"ROLL-{id:04d}"`). */
module RollNumbers {
  import opened Common

  const RollPrefix: string := "ROLL-"
  const StudentRole: string := "STUDENT"
  const RollWidth: nat := 4

  datatype StudentProfile = StudentProfile(user: nat, rollNo: string)

  /** The roll number of user `id`. */
  function RollNo(id: nat): (r: string)
    ensures |r| >= |RollPrefix| + RollWidth && r[..|RollPrefix|] == RollPrefix
    ensures AllDigits(r[|RollPrefix|..])
  {
    var r := RollPrefix + ZeroPad(NatToDigits(id), RollWidth);
    assert r[|RollPrefix|..] == ZeroPad(NatToDigits(id), RollWidth);
    r
  }

  /** Reading a roll number back: the prefix, then decimal digits. */
  function ParseRollNo(r: string): (id: Option<nat>)
    ensures id.Some? ==> |r| > |RollPrefix| && r[..|RollPrefix|] == RollPrefix
  {
    if |r| > |RollPrefix| && r[..|RollPrefix|] == RollPrefix && AllDigits(r[|RollPrefix|..])
    then Some(DigitsValue(r[|RollPrefix|..]))
    else None
  }

  /** The id can be read back from the roll number: no digit of a large id
      is cut off. */
  lemma RollNoRoundTrip(id: nat)
    ensures ParseRollNo(RollNo(id)) == Some(id)
  {
    var r := RollNo(id);
    assert r[|RollPrefix|..] == ZeroPad(NatToDigits(id), RollWidth);
    ZeroPadValue(id, RollWidth);
  }

  /** Distinct users get distinct roll numbers. */
  lemma RollNoInjective(a: nat, b: nat)
    requires RollNo(a) == RollNo(b)
    ensures a == b
  {
    RollNoRoundTrip(a);
    RollNoRoundTrip(b);
  }

  /** Ids below 10000 give nine-character roll numbers. */
  lemma ShortIdLength(id: nat)
    requires id < 10000
    ensures |RollNo(id)| == 9
  {
    assert Pow10(4) == 10000 by {
      assert Pow10(1) == 10;
      assert Pow10(2) == 100;
      assert Pow10(3) == 1000;
    }
    DigitsLengthBound(id, 4);
  }

  /** `create_student_profile`: a profile only for a newly created user with
      the STUDENT role. */
  function ProfileOnSave(created: bool, role: string, id: nat): (p: Option<StudentProfile>)
    ensures p.Some? <==> created && role == StudentRole
    ensures p.Some? ==> p.value.user == id && ParseRollNo(p.value.rollNo) == Some(id)
  {
    if created && role == StudentRole then
      RollNoRoundTrip(id);
      Some(StudentProfile(id, RollNo(id)))
    else None
  }
}
