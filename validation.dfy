/** `validate_record` of logparser.py: a request is kept when its day is in
    1..31, its month is one of the twelve English abbreviations and its method is
    one of seven HTTP methods. The year is never looked at. */
module Validation {
  import opened Text
  import opened Records

  const Months: seq<string> :=
    ["Jan", "Feb", "Mar", "Apr", "May", "Jun", "Jul", "Aug", "Sep", "Oct", "Nov", "Dec"]

  const Methods: seq<string> := ["GET", "PUT", "POST", "HEAD", "DELETE", "CONNECT", "OPTIONS"]

  predicate IsDigit(c: char) {
    '0' <= c <= '9'
  }

  predicate AllDigits(s: string) {
    forall i :: 0 <= i < |s| ==> IsDigit(s[i])
  }

  /** Value of a run of decimal digits. */
  function DigitsValue(s: string): nat
    requires AllDigits(s)
  {
    if s == [] then 0 else DigitsValue(s[..|s| - 1]) * 10 + (s[|s| - 1] as int - '0' as int)
  }

  /** An optional sign followed by at least one decimal digit. */
  predicate IsSignedDigits(t: string) {
    if t != [] && (t[0] == '-' || t[0] == '+') then |t| > 1 && AllDigits(t[1..])
    else t != [] && AllDigits(t)
  }

  function SignedValue(t: string): int
    requires IsSignedDigits(t)
  {
    if t[0] == '-' then -(DigitsValue(t[1..]) as int)
    else if t[0] == '+' then DigitsValue(t[1..])
    else DigitsValue(t)
  }

  /** The text Python's `int` accepts here: optional surrounding whitespace
      around a signed run of digits. */
  predicate IsIntLiteral(s: string) {
    IsSignedDigits(Strip(s))
  }

  /** `int(s)` on such a literal. */
  function IntValue(s: string): int
    requires IsIntLiteral(s)
  {
    SignedValue(Strip(s))
  }

  /** What `validate_record` needs in order to return at all: the date unpacks
      into exactly three `/`-separated parts and the first is an integer literal.
      Any other date makes the source raise. */
  predicate DateReadable(date: string) {
    var parts := Split(date, '/');
    |parts| == 3 && IsIntLiteral(parts[0])
  }

  function Day(date: string): int
    requires DateReadable(date)
  {
    IntValue(Split(date, '/')[0])
  }

  function Month(date: string): string
    requires DateReadable(date)
  {
    Split(date, '/')[1]
  }

  /** `validate_record((date, method, agent))`. The ensures restates the two
      guards as one positive condition on the day, month and method the date
      yields; which text yields which day and month is `DateFromParts`, and the
      year is shown irrelevant by `YearIgnored`. */
  function ValidateRecord(rec: Request): (ok: bool)
    requires DateReadable(rec.date)
    ensures ok <==> 1 <= Day(rec.date) <= 31 && Month(rec.date) in Months && rec.httpMethod in Methods
  {
    var day := Day(rec.date);
    if day > 31 || day <= 0 || Month(rec.date) !in Months then false
    else if rec.httpMethod !in Methods then false
    else true
  }

  /** A record is kept when it can be read and passes. */
  predicate Accepted(rec: Request) {
    DateReadable(rec.date) && ValidateRecord(rec)
  }

  /** The year part of the date plays no part in the verdict. */
  lemma YearIgnored(day: string, month: string, y1: string, y2: string, httpMethod: string, agent: string)
    requires '/' !in day && '/' !in month && '/' !in y1 && '/' !in y2
    requires IsIntLiteral(day)
    ensures DateReadable(day + "/" + month + "/" + y1) && DateReadable(day + "/" + month + "/" + y2)
    ensures ValidateRecord(Request(day + "/" + month + "/" + y1, httpMethod, agent))
         == ValidateRecord(Request(day + "/" + month + "/" + y2, httpMethod, agent))
  {
    SplitDate(day, month, y1);
    SplitDate(day, month, y2);
  }

  lemma SplitDate(day: string, month: string, year: string)
    requires '/' !in day && '/' !in month && '/' !in year
    ensures Split(day + "/" + month + "/" + year, '/') == [day, month, year]
  {
    var parts := [day, month, year];
    assert Join(parts, '/') == day + "/" + month + "/" + year by {
      assert Join(parts[1..], '/') == month + "/" + year;
    }
    SplitJoin(parts, '/');
  }

  lemma {:induction false} DateFromParts(day: string, month: string, year: string)
    requires '/' !in day && '/' !in month && '/' !in year && IsIntLiteral(day)
    ensures var date := day + "/" + month + "/" + year;
      DateReadable(date) && Day(date) == IntValue(day) && Month(date) == month
  {
    SplitDate(day, month, year);
  }

  lemma DayValue15()
    ensures IsIntLiteral("15") && IntValue("15") == 15
  {
    StripUnpadded("15");
    assert "15"[..1] == "1" && "1"[..0] == "";
  }

  lemma DayValue32()
    ensures IsIntLiteral("32") && IntValue("32") == 32
  {
    StripUnpadded("32");
    assert "32"[..1] == "3" && "3"[..0] == "";
  }

  lemma DayValue0()
    ensures IsIntLiteral("0") && IntValue("0") == 0
  {
    StripUnpadded("0");
    assert "0"[..0] == "";
  }

  /** The day must not pass 31 nor fall below 1: "32/Jan/2020" and "0/Jan/2020"
      are refused. */
  lemma RejectsDayOutOfRange()
    ensures DateReadable("32" + "/" + "Jan" + "/" + "2020")
         && !ValidateRecord(Request("32" + "/" + "Jan" + "/" + "2020", "GET", "x"))
    ensures DateReadable("0" + "/" + "Jan" + "/" + "2020")
         && !ValidateRecord(Request("0" + "/" + "Jan" + "/" + "2020", "GET", "x"))
  {
    DayValue32();
    DateFromParts("32", "Jan", "2020");
    DayValue0();
    DateFromParts("0", "Jan", "2020");
  }

  /** The month must be one of the twelve abbreviations: "15/Xyz/2020" is refused. */
  lemma RejectsUnknownMonth()
    ensures DateReadable("15" + "/" + "Xyz" + "/" + "2020")
         && !ValidateRecord(Request("15" + "/" + "Xyz" + "/" + "2020", "GET", "x"))
  {
    DayValue15();
    DateFromParts("15", "Xyz", "2020");
  }

  /** The method must be one of the seven listed; PATCH is not. */
  lemma RejectsUnknownMethod()
    ensures DateReadable("15" + "/" + "Jan" + "/" + "2020")
         && !ValidateRecord(Request("15" + "/" + "Jan" + "/" + "2020", "PATCH", "x"))
  {
    DayValue15();
    DateFromParts("15", "Jan", "2020");
  }

  /** "15/Jan/2020" with GET passes. */
  lemma AcceptsWellFormed()
    ensures DateReadable("15" + "/" + "Jan" + "/" + "2020")
         && ValidateRecord(Request("15" + "/" + "Jan" + "/" + "2020", "GET", "x"))
  {
    DayValue15();
    DateFromParts("15", "Jan", "2020");
  }
}
