/** The age calculator screen: a birth date typed as year-month-day and the
    number of whole years from it to today. */
module Age {
  import opened Outcomes

  /** A calendar date (proleptic Gregorian, as Python's datetime). */
  datatype Date = Date(year: int, month: int, day: int)

  predicate IsLeapYear(y: int)
  {
    y % 4 == 0 && (y % 100 != 0 || y % 400 == 0)
  }

  function DaysInMonth(y: int, m: int): (n: int)
    requires 1 <= m <= 12
    ensures 28 <= n <= 31
    ensures m == 2 ==> (n == 29 <==> IsLeapYear(y))
    ensures m in {4, 6, 9, 11} ==> n == 30
    ensures m != 2 && m !in {4, 6, 9, 11} ==> n == 31
  {
    if m == 2 then (if IsLeapYear(y) then 29 else 28)
    else if m == 4 || m == 6 || m == 9 || m == 11 then 30
    else 31
  }

  /** The dates a datetime can hold: years 1 to 9999, a real month, a day
      that month has. */
  predicate ValidDate(d: Date)
  {
    && 1 <= d.year <= 9999
    && 1 <= d.month <= 12
    && 1 <= d.day <= DaysInMonth(d.year, d.month)
  }

  predicate IsDigit(c: char)
  {
    '0' <= c <= '9'
  }

  function DigitValue(c: char): int
    requires IsDigit(c)
  {
    c as int - '0' as int
  }

  /** The value of four decimal digits, the `%Y` field. */
  function YearField(s: string): (r: Option<int>)
    ensures r.Some? ==> 0 <= r.value <= 9999
    ensures r.Some? ==> s == Digits4(r.value)
  {
    if |s| == 4 && IsDigit(s[0]) && IsDigit(s[1]) && IsDigit(s[2]) && IsDigit(s[3])
    then
      var n := ((DigitValue(s[0]) * 10 + DigitValue(s[1])) * 10 + DigitValue(s[2])) * 10 + DigitValue(s[3]);
      assert n / 1000 == DigitValue(s[0]) && n / 100 % 10 == DigitValue(s[1]);
      assert n / 10 % 10 == DigitValue(s[2]) && n % 10 == DigitValue(s[3]);
      Some(n)
    else None
  }

  /** The ways `%m` spells month m: two digits, or one digit for months 1-9. */
  function MonthSpellings(m: int): set<string>
    requires 1 <= m <= 12
  {
    {Digits2(m)} + (if m <= 9 then {[DigitChar(m)]} else {})
  }

  /** The ways `%d` spells day d: two digits, or for days 1-9 one digit,
      alone or after a space. */
  function DaySpellings(d: int): set<string>
    requires 1 <= d <= 31
  {
    {Digits2(d)} + (if d <= 9 then {[DigitChar(d)], [' ', DigitChar(d)]} else {})
  }

  /** A text spelling date d as year, hyphen, month spelling, hyphen, day spelling. */
  function Spelling(d: Date, ms: string, ds: string): string
    requires 0 <= d.year <= 9999
  {
    Digits4(d.year) + "-" + ms + "-" + ds
  }

  /** The `%m` field: one of 10-12, 01-09 or 1-9. */
  function MonthField(f: string): (r: Option<int>)
    ensures r.Some? ==> 1 <= r.value <= 12
    ensures r.Some? ==> f in MonthSpellings(r.value)
  {
    if |f| == 2 && f[0] == '1' && '0' <= f[1] <= '2' then
      assert f == Digits2(10 + DigitValue(f[1]));
      Some(10 + DigitValue(f[1]))
    else if |f| == 2 && f[0] == '0' && '1' <= f[1] <= '9' then
      assert f == Digits2(DigitValue(f[1]));
      Some(DigitValue(f[1]))
    else if |f| == 1 && '1' <= f[0] <= '9' then
      assert f == [DigitChar(DigitValue(f[0]))];
      Some(DigitValue(f[0]))
    else None
  }

  /** The `%d` field: one of 30-31, 10-29, 01-09, 1-9, or a space and 1-9. */
  function DayField(f: string): (r: Option<int>)
    ensures r.Some? ==> 1 <= r.value <= 31
    ensures r.Some? ==> f in DaySpellings(r.value)
  {
    if |f| == 2 && f[0] == '3' && '0' <= f[1] <= '1' then
      assert f == Digits2(30 + DigitValue(f[1]));
      Some(30 + DigitValue(f[1]))
    else if |f| == 2 && '1' <= f[0] <= '2' && IsDigit(f[1]) then
      assert f == Digits2(DigitValue(f[0]) * 10 + DigitValue(f[1]));
      Some(DigitValue(f[0]) * 10 + DigitValue(f[1]))
    else if |f| == 2 && f[0] == '0' && '1' <= f[1] <= '9' then
      assert f == Digits2(DigitValue(f[1]));
      Some(DigitValue(f[1]))
    else if |f| == 1 && '1' <= f[0] <= '9' then
      assert f == [DigitChar(DigitValue(f[0]))];
      Some(DigitValue(f[0]))
    else if |f| == 2 && f[0] == ' ' && '1' <= f[1] <= '9' then
      assert f == [' ', DigitChar(DigitValue(f[1]))];
      Some(DigitValue(f[1]))
    else None
  }

  /** datetime.strptime(text, "%Y-%m-%d"): the whole text must be the year
      field, a hyphen, the month field, a hyphen and the day field, and the
      three numbers must make a date datetime accepts. None when strptime
      raises. The date read is the one the text spells. */
  function ParseDate(s: string): (r: Option<Date>)
    ensures r.Some? ==> ValidDate(r.value)
    ensures r.Some? ==> exists ms, ds ::
      ms in MonthSpellings(r.value.month) && ds in DaySpellings(r.value.day) && s == Spelling(r.value, ms, ds)
  {
    if |s| < 5 || s[4] != '-' then None
    else
      var rest := s[5..];
      // the month field is the one or two characters before the next hyphen
      var k := if |rest| >= 2 && rest[1] == '-' then 1
               else if |rest| >= 3 && rest[2] == '-' then 2
               else 0;
      if k == 0 then None
      else
        match (YearField(s[..4]), MonthField(rest[..k]), DayField(rest[k + 1..]))
        case (Some(y), Some(m), Some(d)) =>
          if 1 <= y && d <= DaysInMonth(y, m) then
            assert s == s[..4] + "-" + rest[..k] + "-" + rest[k + 1..];
            assert s == Spelling(Date(y, m, d), rest[..k], rest[k + 1..]);
            Some(Date(y, m, d))
          else None
        case _ => None
  }

  /** Python's tuple comparison (m1, d1) < (m2, d2). */
  predicate Before(m1: int, d1: int, m2: int, d2: int)
  {
    m1 < m2 || (m1 == m2 && d1 < d2)
  }

  /** The age rule: the difference of the years, one less when today's
      (month, day) comes before the birthday's. */
  function AgeOn(birth: Date, today: Date): (age: int)
    ensures NotAfter(Anniversary(birth, age), today)
    ensures !NotAfter(Anniversary(birth, age + 1), today)
  {
    today.year - birth.year - (if Before(today.month, today.day, birth.month, birth.day) then 1 else 0)
  }

  /** calculate_age, with datetime.today() passed in as `today`. A text
      strptime refuses shows "Invalid date format.", never "Invalid input.". */
  function CalculateAge(text: string, today: Date): (res: Outcome<int>)
    ensures res.Ok? <==> ParseDate(text).Some?
    ensures res.Err? ==> res.failure == InvalidDateFormat
    ensures res.Ok? ==> res.value == AgeOn(ParseDate(text).value, today)
  {
    match ParseDate(text)
    case None => Err(InvalidDateFormat)
    case Some(birth) => Ok(AgeOn(birth, today))
  }

  /** Lexicographic order on (year, month, day). */
  predicate NotAfter(a: Date, b: Date)
  {
    a.year < b.year || (a.year == b.year && !Before(b.month, b.day, a.month, a.day))
  }

  /** The k-th anniversary of a birth date, as a (year, month, day) triple. */
  function Anniversary(birth: Date, k: int): Date
  {
    Date(birth.year + k, birth.month, birth.day)
  }

  /** The age shown is the only number of completed years: no other k has
      today on or after its k-th anniversary and before the next one. */
  lemma AgeIsCompletedYears(birth: Date, today: Date, k: int)
    ensures NotAfter(Anniversary(birth, k), today) && !NotAfter(Anniversary(birth, k + 1), today)
            ==> k == AgeOn(birth, today)
  {
  }

  /** On the birthday itself the age is the plain difference of the years. */
  lemma AgeOnBirthday(birth: Date, today: Date)
    requires today.month == birth.month && today.day == birth.day
    ensures AgeOn(birth, today) == today.year - birth.year
  {
  }

  /** Nothing guards against a birth date after today: the age is then negative. */
  lemma FutureBirthNegativeAge(birth: Date, today: Date)
    requires !NotAfter(birth, today)
    ensures AgeOn(birth, today) < 0
  {
  }

  /** Year, month and day written with four, two and two digits. */
  function FormatDate(d: Date): (s: string)
    requires ValidDate(d)
    ensures |s| == 10 && s[4] == '-' && s[7] == '-'
  {
    Digits4(d.year) + "-" + Digits2(d.month) + "-" + Digits2(d.day)
  }

  function DigitChar(n: int): (c: char)
    requires 0 <= n <= 9
    ensures IsDigit(c) && DigitValue(c) == n
  {
    ('0' as int + n) as char
  }

  function Digits2(n: int): (s: string)
    requires 0 <= n <= 99
    ensures |s| == 2
  {
    [DigitChar(n / 10), DigitChar(n % 10)]
  }

  function Digits4(n: int): (s: string)
    requires 0 <= n <= 9999
    ensures |s| == 4
  {
    [DigitChar(n / 1000), DigitChar(n / 100 % 10), DigitChar(n / 10 % 10), DigitChar(n % 10)]
  }

  lemma YearFieldOfDigits(n: int)
    requires 0 <= n <= 9999
    ensures YearField(Digits4(n)) == Some(n)
  {
    var s := Digits4(n);
    assert n / 10 == (n / 100) * 10 + n / 10 % 10;
    assert n / 100 == (n / 1000) * 10 + n / 100 % 10;
    assert ((DigitValue(s[0]) * 10 + DigitValue(s[1])) * 10 + DigitValue(s[2])) * 10 + DigitValue(s[3]) == n;
  }

  lemma MonthSpellingsRead(m: int, f: string)
    requires 1 <= m <= 12 && f in MonthSpellings(m)
    ensures MonthField(f) == Some(m)
  {
  }

  lemma DaySpellingsRead(d: int, f: string)
    requires 1 <= d <= 31 && f in DaySpellings(d)
    ensures DayField(f) == Some(d)
  {
  }

  /** Every spelling of a date datetime can hold is read by strptime as
      that date: with ParseDate's own contract, a text is read as date d
      exactly when it spells d. */
  lemma {:induction false} SpellingsAreRead(d: Date, ms: string, ds: string)
    requires ValidDate(d)
    requires ms in MonthSpellings(d.month) && ds in DaySpellings(d.day)
    ensures ParseDate(Spelling(d, ms, ds)) == Some(d)
  {
    var s := Spelling(d, ms, ds);
    var y := Digits4(d.year);
    assert s[..4] == y;
    YearFieldOfDigits(d.year);
    var rest := s[5..];
    assert rest == ms + "-" + ds;
    var k := |ms|;
    assert k == 1 || k == 2;
    assert rest[k] == '-';
    assert k == 2 ==> rest[1] != '-';
    assert rest[..k] == ms && rest[k + 1..] == ds;
    MonthSpellingsRead(d.month, ms);
    DaySpellingsRead(d.day, ds);
  }

  /** Every date datetime can hold, written as YYYY-MM-DD, is read back by
      strptime as that date. */
  lemma {:induction false} FormatThenParse(d: Date)
    requires ValidDate(d)
    ensures ParseDate(FormatDate(d)) == Some(d)
  {
    SpellingsAreRead(d, Digits2(d.month), Digits2(d.day));
  }

  /** February 29 is read only in leap years, and no month has a 32nd day. */
  lemma ImpossibleDatesRejected(s: string)
    ensures ParseDate(s).Some? && ParseDate(s).value.month == 2 && ParseDate(s).value.day == 29
            ==> IsLeapYear(ParseDate(s).value.year)
    ensures ParseDate(s).Some? && ParseDate(s).value.month == 2 ==> ParseDate(s).value.day <= 29
  {
  }

  /** strptime's field patterns at work: the padded form and a one-digit
      month are read. */
  lemma DateShapesRead()
    ensures ParseDate("2000-01-01") == Some(Date(2000, 1, 1))
    ensures ParseDate("2000-1-5") == Some(Date(2000, 1, 5))
  {
    assert Digits4(2000) == "2000";
    assert "2000-01-01" == Spelling(Date(2000, 1, 1), "01", "01");
    SpellingsAreRead(Date(2000, 1, 1), "01", "01");
    assert "2000-1-5" == Spelling(Date(2000, 1, 5), "1", "5");
    SpellingsAreRead(Date(2000, 1, 5), "1", "5");
  }

  /** A space-padded day is read, and so is 29 February of a leap year. */
  lemma PaddedAndLeapDaysRead()
    ensures ParseDate("2000-01- 5") == Some(Date(2000, 1, 5))
    ensures ParseDate("2024-02-29") == Some(Date(2024, 2, 29))
  {
    assert Digits4(2000) == "2000" && Digits4(2024) == "2024";
    assert "2000-01- 5" == Spelling(Date(2000, 1, 5), "01", " 5");
    SpellingsAreRead(Date(2000, 1, 5), "01", " 5");
    assert "2024-02-29" == Spelling(Date(2024, 2, 29), "02", "29");
    SpellingsAreRead(Date(2024, 2, 29), "02", "29");
  }

  /** Days past the end of their month are refused. */
  lemma DateShapesRefused()
    ensures ParseDate("2023-02-29") == None
    ensures ParseDate("2023-02-30") == None
    ensures ParseDate("2023-04-31") == None
  {
    assert YearField("2023") == Some(2023) && !IsLeapYear(2023);
    assert MonthField("02") == Some(2) && MonthField("04") == Some(4);
  }

  /** Year 0, trailing characters and other shapes are refused. */
  lemma MalformedDatesRefused()
    ensures ParseDate("0000-01-01") == None
    ensures ParseDate("2000-01-011") == None
    ensures ParseDate("not-a-date") == None
  {
  }
}
