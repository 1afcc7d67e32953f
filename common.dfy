/** Shared vocabulary for every app of the campus system: optional values,
    the HTTP-style responses the views return, the two-place decimal rounding
    (`Decimal.quantize(Decimal('0.01'))` and `round(x, 2)`), and decimal digit
    strings (used for roll numbers and for parsing `YYYY-MM` query strings).

    Dates are day numbers (`Date`), timestamps are second numbers (`Instant`);
    "today" and "now" are always passed in by the caller. */
module Common {

  type Date = int
  type Instant = int

  const SecondsPerDay: int := 86400

  datatype Option<T> = None | Some(value: T)

  /** What a view hands back: success, or the status code and `detail` text of
      the error response. `ServerError` stands for an exception that escapes the
      view (an integrity error from the database, an unparsable number). */
  datatype Response =
    | Ok
    | Created
    | NotFound(detail: string)
    | BadRequest(detail: string)
    | ServerError(detail: string)
  {
    predicate IsSuccess() { Ok? || Created? }
  }

  /** Moving one element from the to-do part of a partition of `all` to its
      done part keeps a partition of `all`; loops over a set use this. */
  lemma MoveOne<T>(todo: set<T>, done: set<T>, all: set<T>, x: T)
    requires todo + done == all && todo !! done && x in todo
    ensures (todo - {x}) + (done + {x}) == all && (todo - {x}) !! (done + {x})
  {
  }

  /** The outcome of one guarded step: the updated record, or the error
      response the view returns instead (and then nothing is written). */
  datatype Result<T> = Success(value: T) | Failure(error: Response)

  function Max0(x: int): (r: int)
    ensures r >= 0 && r >= x
    ensures r == x || r == 0
  {
    if x > 0 then x else 0
  }

  // ---------------------------------------------------------------------
  // Two-place decimal rounding.
  // ---------------------------------------------------------------------

  /** True when `x` is a whole number of hundredths. */
  predicate IsCents(x: real) {
    (x * 100.0).Floor as real == x * 100.0
  }

  /** Rounding to two decimal places with ties to the even neighbour: the
      default rounding of Python's decimal context, used by `quantize` and by
      `round(x, 2)` (binary floating point is not modelled). */
  function Round2(x: real): (r: real)
    ensures IsCents(r)
    ensures x - 0.005 <= r <= x + 0.005
  {
    var y := x * 100.0;
    var f := y.Floor;
    var frac := y - f as real;
    var n := if frac < 0.5 then f
             else if frac > 0.5 then f + 1
             else if f % 2 == 0 then f else f + 1;
    assert (n as real / 100.0) * 100.0 == n as real;
    n as real / 100.0
  }

  /** A value that already is a whole number of cents is left alone. */
  lemma Round2OfCents(c: int)
    ensures Round2(c as real / 100.0) == c as real / 100.0
  {
    var y := (c as real / 100.0) * 100.0;
    assert y == c as real;
    assert y.Floor == c;
  }

  /** Rounding is idempotent. */
  lemma Round2Idempotent(x: real)
    ensures Round2(Round2(x)) == Round2(x)
  {
    var r := Round2(x);
    var c := (r * 100.0).Floor;
    assert r == c as real / 100.0;
    Round2OfCents(c);
  }

  /** Rounding never leaves an interval whose ends are whole cents. */
  lemma Round2Between(x: real, lo: real, hi: real)
    requires IsCents(lo) && IsCents(hi) && lo <= x <= hi
    ensures lo <= Round2(x) <= hi
  {
    var r := Round2(x);
    var k := (r * 100.0).Floor;
    var a := (lo * 100.0).Floor;
    var b := (hi * 100.0).Floor;
    assert k as real >= a as real - 0.5;
    assert k >= a;
    assert k as real <= b as real + 0.5;
    assert k <= b;
  }

  /** The end date an allocation or a pass records when it is ended: the
      one requested, else today. */
  function EndDateOrToday(requested: Option<Date>, today: Date): (d: Date)
    ensures requested.Some? ==> d == requested.value
    ensures requested.None? ==> d == today
  {
    if requested.Some? then requested.value else today
  }

  // ---------------------------------------------------------------------
  // Decimal digit strings.
  // ---------------------------------------------------------------------

  predicate IsDigit(c: char) { '0' <= c <= '9' }

  predicate AllDigits(s: string) { forall i :: 0 <= i < |s| ==> IsDigit(s[i]) }

  function DigitChar(d: nat): (c: char)
    requires d < 10
    ensures IsDigit(c)
  {
    ('0' as int + d) as char
  }

  function DigitValue(c: char): (d: nat)
    requires IsDigit(c)
    ensures d < 10
  {
    c as int - '0' as int
  }

  /** The shortest decimal spelling of `n`, as `str(n)` gives it. */
  function NatToDigits(n: nat): (s: string)
    ensures |s| >= 1 && AllDigits(s)
  {
    if n < 10 then [DigitChar(n)] else NatToDigits(n / 10) + [DigitChar(n % 10)]
  }

  /** The value of a string of decimal digits, leading zeros allowed. */
  function DigitsValue(s: string): nat
    requires AllDigits(s)
  {
    if s == [] then 0 else DigitsValue(s[..|s| - 1]) * 10 + DigitValue(s[|s| - 1])
  }

  /** `s` left-padded with '0' to at least `width` characters (`{:0<width>d}`). */
  function ZeroPad(s: string, width: nat): (r: string)
    ensures |r| == if |s| >= width then |s| else width
    ensures AllDigits(s) ==> AllDigits(r)
  {
    if |s| >= width then s else Zeros(width - |s|) + s
  }

  function Zeros(k: nat): (z: string)
    ensures |z| == k && AllDigits(z)
    ensures forall i :: 0 <= i < k ==> z[i] == '0'
  {
    if k == 0 then [] else Zeros(k - 1) + ['0']
  }

  /** Reading back the spelling of `n` gives `n`. */
  lemma {:induction false} DigitsRoundTrip(n: nat)
    ensures DigitsValue(NatToDigits(n)) == n
  {
    if n >= 10 {
      var s := NatToDigits(n);
      assert s[..|s| - 1] == NatToDigits(n / 10);
      DigitsRoundTrip(n / 10);
    }
  }

  /** Leading zeros do not change the value read. */
  lemma {:induction false} LeadingZerosValue(k: nat, s: string)
    requires AllDigits(s)
    ensures DigitsValue(Zeros(k) + s) == DigitsValue(s)
  {
    if s == [] {
      assert Zeros(k) + s == Zeros(k);
      ZerosValue(k);
    } else {
      var t := Zeros(k) + s;
      assert t[..|t| - 1] == Zeros(k) + s[..|s| - 1];
      LeadingZerosValue(k, s[..|s| - 1]);
    }
  }

  lemma {:induction false} ZerosValue(k: nat)
    ensures DigitsValue(Zeros(k)) == 0
  {
    if k > 0 {
      assert Zeros(k)[..k - 1] == Zeros(k - 1);
      ZerosValue(k - 1);
    }
  }

  /** Padding never changes the number a digit string denotes. */
  lemma ZeroPadValue(n: nat, width: nat)
    ensures AllDigits(ZeroPad(NatToDigits(n), width))
    ensures DigitsValue(ZeroPad(NatToDigits(n), width)) == n
  {
    var s := NatToDigits(n);
    DigitsRoundTrip(n);
    if |s| < width {
      LeadingZerosValue(width - |s|, s);
    }
  }

  /** Spellings of numbers below 10^k have at most k digits. */
  lemma {:induction false} DigitsLengthBound(n: nat, k: nat)
    requires k >= 1 && n < Pow10(k)
    ensures |NatToDigits(n)| <= k
  {
    if n >= 10 {
      assert k >= 2;
      DigitsLengthBound(n / 10, k - 1);
    }
  }

  function Pow10(k: nat): (p: nat)
    ensures p >= 1
  {
    if k == 0 then 1 else 10 * Pow10(k - 1)
  }

  /** The name of the exception Python's `int()` raises on a string that
      is not a number. */
  const ValueErrorMsg: string := "ValueError"

  /** A string Python's `int()` reads as a non-negative decimal (a '+'
      sign, spaces and underscores are not modelled). */
  predicate IsNumeral(s: string)
  {
    |s| > 0 && AllDigits(s)
  }

  /** `int(s)` on a string: a numeral, optionally after a '-'; anything
      else raises, which is `None` here. */
  function ParseInt(s: string): (r: Option<int>)
    ensures IsNumeral(s) ==> r == Some(DigitsValue(s))
    ensures |s| > 0 && s[0] == '-' ==> r == (if IsNumeral(s[1..]) then Some(-(DigitsValue(s[1..]) as int)) else None)
    ensures r.Some? <==> IsNumeral(s) || (|s| > 0 && s[0] == '-' && IsNumeral(s[1..]))
  {
    if IsNumeral(s) then Some(DigitsValue(s))
    else if |s| > 0 && s[0] == '-' && IsNumeral(s[1..]) then Some(-(DigitsValue(s[1..]) as int))
    else None
  }

  /** `str(n)` for any integer. */
  function IntToString(n: int): (s: string)
    ensures |s| > 0
    ensures n >= 0 ==> IsNumeral(s)
    ensures n < 0 ==> s[0] == '-' && IsNumeral(s[1..])
  {
    if n >= 0 then NatToDigits(n) else "-" + NatToDigits(-n)
  }

  /** `int(str(n)) == n`. */
  lemma ParseIntRoundTrip(n: int)
    ensures ParseInt(IntToString(n)) == Some(n)
  {
    if n >= 0 {
      DigitsRoundTrip(n);
    } else {
      var s := IntToString(n);
      assert s[1..] == NatToDigits(-n);
      DigitsRoundTrip(-n);
    }
  }

  // ---------------------------------------------------------------------
  // str.split with a one-character separator.
  // ---------------------------------------------------------------------

  /** `s.split(sep)`: the pieces between separators, always at least one. */
  function Split(s: string, sep: char): (parts: seq<string>)
    ensures |parts| >= 1
    decreases |s|
  {
    if |s| == 0 then [""]
    else
      var rest := Split(s[1..], sep);
      if s[0] == sep then [""] + rest else [[s[0]] + rest[0]] + rest[1..]
  }

  /** Splitting `a + [sep] + b` where `a` holds no separator yields `a`
      followed by the pieces of `b`. */
  lemma {:induction false} SplitJoin(a: string, sep: char, b: string)
    requires sep !in a
    ensures Split(a + [sep] + b, sep) == [a] + Split(b, sep)
  {
    if a == [] {
      assert a + [sep] + b == [sep] + b;
      assert ([sep] + b)[1..] == b;
    } else {
      assert (a + [sep] + b)[1..] == a[1..] + [sep] + b;
      SplitJoin(a[1..], sep, b);
      assert [a[0]] + a[1..] == a;
    }
  }

  /** A piece holding no separator splits to itself. */
  lemma {:induction false} SplitNoSep(a: string, sep: char)
    requires sep !in a
    ensures Split(a, sep) == [a]
  {
    if a != [] {
      SplitNoSep(a[1..], sep);
      assert [a[0]] + a[1..] == a;
    }
  }
}
