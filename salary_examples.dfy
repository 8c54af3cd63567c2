/**
 * Worked inputs for the salary normaliser. Each lemma takes the text as a
 * parameter pinned to a literal by its precondition and reaches the result
 * through the general lemmas, step by step.
 */
module SalaryExamples {
  import opened Wrappers
  import opened PyStr
  import opened NumberScan
  import opened Salary

  /** Text that is already lower-case and names no time unit is taken as annual. */
  lemma AnnualWhenNoUnit(text: string)
    requires forall i :: 0 <= i < |text| ==> LowerChar(text[i]) == [text[i]]
    requires 'h' !in text && 'd' !in text && 'w' !in text && 'm' !in text
    ensures PayPeriodOf(text) == Annual
  {
    LowerOfLowerCase(text);
    ContainedCharsOccur(text, "hour", 0);
    ContainedCharsOccur(text, "day", 0);
    ContainedCharsOccur(text, "week", 0);
    ContainedCharsOccur(text, "month", 0);
    PayPeriodPrecedence(text);
  }

  /** Text that is already lower-case and contains "hour" is hourly pay. */
  lemma HourlyWhenHour(text: string, before: string, after: string)
    requires forall i :: 0 <= i < |text| ==> LowerChar(text[i]) == [text[i]]
    requires text == before + "hour" + after
    ensures PayPeriodOf(text) == Hourly
  {
    LowerOfLowerCase(text);
    ContainsInfix(before, "hour", after);
    PayPeriodPrecedence(text);
  }

  /** Text that is already lower-case, contains "month" and names none of
      "hour", "day" or "week" is monthly pay. */
  lemma MonthlyWhenMonth(text: string, before: string, after: string)
    requires forall i :: 0 <= i < |text| ==> LowerChar(text[i]) == [text[i]]
    requires !Contains(text, "hour") && !Contains(text, "day") && !Contains(text, "week")
    requires text == before + "month" + after
    ensures PayPeriodOf(text) == Monthly
  {
    LowerOfLowerCase(text);
    ContainsInfix(before, "month", after);
    PayPeriodPrecedence(text);
  }

  // "$80,000 - $100,000 a year": a range, already annual.

  lemma RangeFirstMatch(s: string)
    requires s == "$80,000 - $100,000 a year"
    ensures IsDigit(s[1]) && MatchEnd(s, 1) == 7
  {
    assert HeadEnd(s, 1) == 3;
    assert GroupsEnd(s, 7) == 7;
    assert GroupsEnd(s, 3) == 7;
    assert FractionEnd(s, 7) == 7;
  }

  lemma RangeSecondMatch(s: string)
    requires s == "$80,000 - $100,000 a year"
    ensures IsDigit(s[11]) && MatchEnd(s, 11) == 18
  {
    assert HeadEnd(s, 11) == 14;
    assert GroupsEnd(s, 18) == 18;
    assert GroupsEnd(s, 14) == 18;
    assert FractionEnd(s, 18) == 18;
  }

  lemma RangeTokens(s: string)
    requires s == "$80,000 - $100,000 a year"
    ensures FindAll(s) == ["80,000", "100,000"]
  {
    RangeFirstMatch(s);
    RangeSecondMatch(s);
    SkipNonDigits(s, 18, |s|);
    SkipNonDigits(s, 7, 11);
    SkipNonDigits(s, 0, 1);
    assert SpansFrom(s, 11) == [Span(11, 18)];
    assert SpansFrom(s, 1) == [Span(1, 7), Span(11, 18)];
    RangeSlices(s);
  }

  lemma RangeSlices(s: string)
    requires s == "$80,000 - $100,000 a year"
    ensures s[1..7] == "80,000" && s[11..18] == "100,000"
  {
    assert s == "$" + "80,000" + " - $" + "100,000" + " a year";
  }

  lemma EightyThousand(t: string)
    requires t == "80,000"
    ensures TokenValue(t) == 80000.0
  {
    assert t == "80" + "," + "000";
    assert "80"[..1] == "8";
    assert NatOf("80") == 80;
    assert "000"[..2] == "00" && "00"[..1] == "0";
    assert NatOf("000") == 0;
    OneGroupValue("80", "000");
  }

  lemma HundredThousand(t: string)
    requires t == "100,000"
    ensures TokenValue(t) == 100000.0
  {
    assert t == "100" + "," + "000";
    assert "100"[..2] == "10" && "10"[..1] == "1";
    assert NatOf("100") == 100;
    assert "000"[..2] == "00" && "00"[..1] == "0";
    assert NatOf("000") == 0;
    OneGroupValue("100", "000");
  }

  /** A text with a non-space character and no capital 'S' reaches the scanner. */
  lemma ListedWithoutSentinel(s: string, k: nat)
    requires k < |s| && !IsSpace(s[k]) && 'S' !in s
    ensures !Unlisted(s)
  {
    ContainedCharsOccur(s, SalaryNotListed, 0);
    StripEmptyIffBlank(s);
  }

  /** A listed annual range whose two figures read as `x` and `y` gives their mean. */
  lemma MidpointOf(text: string, a: string, b: string, x: real, y: real)
    requires !Unlisted(text) && FindAll(text) == [a, b] && PayPeriodOf(text) == Annual
    requires TokenValue(a) == x && TokenValue(b) == y
    ensures ProcessSalary(text) == Some((x + y) / 2.0)
  {
    RangeSalary(text);
  }

  lemma RangeAnnual(s: string)
    requires s == "$80,000 - $100,000 a year"
    ensures PayPeriodOf(s) == Annual
  {
    AnnualWhenNoUnit(s);
  }

  lemma RangeFacts(s: string)
    requires s == "$80,000 - $100,000 a year"
    ensures FindAll(s) == ["80,000", "100,000"] && !Unlisted(s) && PayPeriodOf(s) == Annual
  {
    RangeTokens(s);
    ListedWithoutSentinel(s, 0);
    RangeAnnual(s);
  }

  lemma RangeExample(s: string)
    requires s == "$80,000 - $100,000 a year"
    ensures ProcessSalary(s) == Some(90000.0)
  {
    RangeFacts(s);
    EightyThousand("80,000");
    HundredThousand("100,000");
    MidpointOf(s, "80,000", "100,000", 80000.0, 100000.0);
  }

  // "$40 an hour": one hourly figure, 8 hours a day for 260 days.

  lemma HourlyTokens(s: string)
    requires s == "$40 an hour"
    ensures FindAll(s) == ["40"]
  {
    assert HeadEnd(s, 1) == 3;
    assert GroupsEnd(s, 3) == 3;
    assert FractionEnd(s, 3) == 3;
    assert MatchEnd(s, 1) == 3;
    SkipNonDigits(s, 3, |s|);
    SkipNonDigits(s, 0, 1);
    assert SpansFrom(s, 1) == [Span(1, 3)];
    assert s[1..3] == "40";
  }

  /** A comma-free digit string reads as its integer value. */
  lemma PlainValue(t: string)
    requires AllDigits(t)
    ensures TokenValue(t) == NatOf(t) as real
  {
    RemoveCommasNone(t);
    WholeValue(t);
  }

  lemma HourlyFacts(s: string)
    requires s == "$40 an hour"
    ensures FindAll(s) == ["40"] && !Unlisted(s) && PayPeriodOf(s) == Hourly
  {
    HourlyTokens(s);
    ListedWithoutSentinel(s, 0);
    HourlyWhenHour(s, "$40 an ", "");
  }

  /** The hourly quote "$40 an hour" becomes 40 * 8 * 260 = 83200 a year. */
  lemma HourlyExample(s: string)
    requires s == "$40 an hour"
    ensures ProcessSalary(s) == Some(83200.0)
  {
    HourlyFacts(s);
    assert "40"[..1] == "4";
    PlainValue("40");
    SingleNumberSalary(s);
  }

  // "$22.50 an hour": the fraction part of the pattern, read as 22.5.

  lemma DecimalTokens(s: string)
    requires s == "$22.50 an hour"
    ensures FindAll(s) == ["22.50"]
  {
    assert HeadEnd(s, 1) == 3;
    assert GroupsEnd(s, 3) == 3;
    assert DigitsEnd(s, 6) == 6;
    assert DigitsEnd(s, 4) == 6;
    assert FractionEnd(s, 3) == 6;
    assert MatchEnd(s, 1) == 6;
    SkipNonDigits(s, 6, |s|);
    SkipNonDigits(s, 0, 1);
    assert SpansFrom(s, 1) == [Span(1, 6)];
    assert s[1..6] == "22.50";
  }

  lemma TwentyTwoFifty(t: string)
    requires t == "22.50"
    ensures TokenValue(t) == 22.5
  {
    RemoveCommasNone(t);
    assert t == "22" + "." + "50";
    FractionValue("22", "50");
    assert NatOf("22") == 22 && NatOf("50") == 50;
    assert Pow10(2) == 100;
  }

  /** The hourly quote "$22.50 an hour" becomes 22.5 * 2080 = 46800 a year. */
  lemma DecimalExample(s: string)
    requires s == "$22.50 an hour"
    ensures ProcessSalary(s) == Some(46800.0)
  {
    DecimalTokens(s);
    ListedWithoutSentinel(s, 0);
    HourlyWhenHour(s, "$22.50 an ", "");
    TwentyTwoFifty("22.50");
    SingleNumberSalary(s);
  }

  // "$5,000 a month": one figure with a thousands group, twelve months a year.

  lemma MonthlyTokens(s: string)
    requires s == "$5,000 a month"
    ensures FindAll(s) == ["5,000"]
  {
    assert HeadEnd(s, 1) == 2;
    assert GroupsEnd(s, 6) == 6;
    assert GroupsEnd(s, 2) == 6;
    assert FractionEnd(s, 6) == 6;
    assert MatchEnd(s, 1) == 6;
    SkipNonDigits(s, 6, |s|);
    SkipNonDigits(s, 0, 1);
    assert SpansFrom(s, 1) == [Span(1, 6)];
    assert s[1..6] == "5,000";
  }

  lemma FiveThousand(t: string)
    requires t == "5,000"
    ensures TokenValue(t) == 5000.0
  {
    assert t == "5" + "," + "000";
    assert NatOf("5") == 5;
    assert "000"[..2] == "00" && "00"[..1] == "0";
    assert NatOf("000") == 0;
    OneGroupValue("5", "000");
  }

  /** The monthly quote "$5,000 a month" becomes 5000 * 12 = 60000 a year. */
  lemma MonthlyExample(s: string)
    requires s == "$5,000 a month"
    ensures ProcessSalary(s) == Some(60000.0)
  {
    MonthlyTokens(s);
    ListedWithoutSentinel(s, 0);
    ContainedCharsOccur(s, "hour", 3);
    ContainedCharsOccur(s, "day", 0);
    ContainedCharsOccur(s, "week", 0);
    MonthlyWhenMonth(s, "$5,000 a ", "");
    FiveThousand("5,000");
    SingleNumberSalary(s);
  }

  // "85000": without thousands separators the pattern reads "850" then "00".

  lemma SplitTokens(s: string)
    requires s == "85000"
    ensures FindAll(s) == ["850", "00"]
  {
    assert HeadEnd(s, 0) == 3;
    assert GroupsEnd(s, 3) == 3;
    assert FractionEnd(s, 3) == 3;
    assert MatchEnd(s, 0) == 3;
    assert HeadEnd(s, 3) == 5;
    assert GroupsEnd(s, 5) == 5;
    assert FractionEnd(s, 5) == 5;
    assert MatchEnd(s, 3) == 5;
    assert SpansFrom(s, 5) == [];
    assert SpansFrom(s, 3) == [Span(3, 5)];
    assert SpansFrom(s, 0) == [Span(0, 3), Span(3, 5)];
    assert s[0..3] == "850";
    assert s[3..5] == "00";
  }

  lemma SplitValues(a: string, b: string)
    requires a == "850" && b == "00"
    ensures TokenValue(a) == 850.0 && TokenValue(b) == 0.0
  {
    assert a[..2] == "85" && a[..2][..1] == "8";
    assert NatOf(a[..2][..1]) == 8;
    assert NatOf(a[..2]) == 85;
    assert NatOf(a) == 850;
    PlainValue(a);
    assert b[..1] == "0";
    assert NatOf(b[..1]) == 0;
    assert NatOf(b) == 0;
    PlainValue(b);
  }

  lemma SplitFacts(s: string)
    requires s == "85000"
    ensures FindAll(s) == ["850", "00"] && !Unlisted(s) && PayPeriodOf(s) == Annual
  {
    SplitTokens(s);
    ListedWithoutSentinel(s, 0);
    AnnualWhenNoUnit(s);
  }

  /** An unseparated "85000" is read as the range 850 to 0, giving 425. */
  lemma SplitExample(s: string)
    requires s == "85000"
    ensures ProcessSalary(s) == Some(425.0)
  {
    SplitFacts(s);
    SplitValues("850", "00");
    MidpointOf(s, "850", "00", 850.0, 0.0);
  }

  /** "Competitive" holds no digit, so no value. */
  lemma NoDigitsExample(s: string)
    requires s == "Competitive"
    ensures ProcessSalary(s) == None
  {
    SkipNonDigits(s, 0, |s|);
    AmbiguousHasNoSalary(s);
  }

  /** The scraper's "Salary not listed" stand-in gives no value. */
  lemma SentinelExample(s: string)
    requires s == "Salary not listed"
    ensures ProcessSalary(s) == None
  {
    ContainsInfix([], s, []);
    assert [] + s + [] == s;
    UnlistedHasNoSalary(s);
  }
}
