/**
 * The salary normaliser (`process_salary`): free text in, one annualised
 * figure or no value out.
 */
module Salary {
  import opened Wrappers
  import opened PyStr
  import opened NumberScan

  /** The scraper's stand-in for a missing salary. */
  const SalaryNotListed: string := "Salary not listed"

  /** Inputs the normaliser refuses before looking for numbers. */
  predicate Unlisted(text: string)
  {
    text == [] || Contains(text, SalaryNotListed) || Strip(text) == []
  }

  /** The pay period a salary text is quoted in. */
  datatype PayPeriod = Hourly | Daily | Weekly | Monthly | Annual

  /** The period named by the first time-unit keyword found in the
      lower-cased text, tried in the order hour, day, week, month; text
      naming none is taken as annual. */
  function PayPeriodOf(text: string): PayPeriod
  {
    var low := Lower(text);
    if Contains(low, "an hour") || Contains(low, "hour") then Hourly
    else if Contains(low, "a day") || Contains(low, "day") then Daily
    else if Contains(low, "a week") || Contains(low, "week") then Weekly
    else if Contains(low, "a month") || Contains(low, "month") then Monthly
    else Annual
  }

  /** The yearly equivalent of a figure quoted per `period`: an 8-hour day,
      260 working days, 52 weeks and 12 months to the year. */
  function Annualise(base: real, period: PayPeriod): (r: real)
    ensures base >= 0.0 ==> r >= base
    ensures period == Annual ==> r == base
  {
    match period
    case Hourly => base * 8.0 * 260.0
    case Daily => base * 260.0
    case Weekly => base * 52.0
    case Monthly => base * 12.0
    case Annual => base
  }

  /** The figure before annualisation: the single number, or the mean of two. */
  function BaseFigure(values: seq<real>): (r: Option<real>)
    ensures r.Some? <==> 1 <= |values| <= 2
    ensures r.Some? && (forall k :: 0 <= k < |values| ==> values[k] >= 0.0) ==> r.value >= 0.0
  {
    if |values| == 2 then Some((values[0] + values[1]) / 2.0)
    else if |values| == 1 then Some(values[0])
    else None
  }

  /** The numbers `findall` finds in the text, converted with the commas removed. */
  function SalaryNumbers(text: string): (values: seq<real>)
    ensures |values| == |FindAll(text)|
    ensures forall k :: 0 <= k < |values| ==> values[k] == TokenValue(FindAll(text)[k]) >= 0.0
  {
    var tokens := FindAll(text);
    seq(|tokens|, k requires 0 <= k < |tokens| => TokenValue(tokens[k]))
  }

  /** `process_salary` */
  function ProcessSalary(text: string): (r: Option<real>)
    ensures r.Some? ==> !Unlisted(text) && 1 <= |FindAll(text)| <= 2
    ensures r.Some? ==> r.value >= 0.0
  {
    if Unlisted(text) then None
    else
      var values := SalaryNumbers(text);
      if values == [] then None
      else
        match BaseFigure(values)
        case None => None
        case Some(base) => Some(Annualise(base, PayPeriodOf(text)))
  }

  // ---------------------------------------------------------------------
  // Properties
  // ---------------------------------------------------------------------

  /** Empty text, whitespace-only text and any text holding the scraper's
      "Salary not listed" stand-in give no value. */
  lemma UnlistedHasNoSalary(text: string)
    requires text == [] || IsBlank(text) || Contains(text, SalaryNotListed)
    ensures ProcessSalary(text) == None
  {
    StripEmptyIffBlank(text);
  }

  /** Text without numbers, or with more than two, gives no value. */
  lemma AmbiguousHasNoSalary(text: string)
    requires |FindAll(text)| == 0 || |FindAll(text)| > 2
    ensures ProcessSalary(text) == None
  {
  }

  /** A single number is taken as it is, then annualised. */
  lemma SingleNumberSalary(text: string)
    requires !Unlisted(text) && |FindAll(text)| == 1
    ensures ProcessSalary(text) == Some(Annualise(TokenValue(FindAll(text)[0]), PayPeriodOf(text)))
  {
  }

  /** Two numbers are a range: their midpoint is taken, then annualised. */
  lemma RangeSalary(text: string)
    requires !Unlisted(text) && |FindAll(text)| == 2
    ensures ProcessSalary(text) ==
      Some(Annualise((TokenValue(FindAll(text)[0]) + TokenValue(FindAll(text)[1])) / 2.0, PayPeriodOf(text)))
  {
    var values := SalaryNumbers(text);
    assert values == [TokenValue(FindAll(text)[0]), TokenValue(FindAll(text)[1])];
  }

  /** The scaling is chosen once, by the first keyword in the order hour,
      day, week, month, matched in the lower-cased text. */
  lemma PayPeriodPrecedence(text: string)
    ensures var low := Lower(text);
      && (PayPeriodOf(text) == Hourly <==> Contains(low, "hour"))
      && (PayPeriodOf(text) == Daily <==> !Contains(low, "hour") && Contains(low, "day"))
      && (PayPeriodOf(text) == Weekly <==>
            !Contains(low, "hour") && !Contains(low, "day") && Contains(low, "week"))
      && (PayPeriodOf(text) == Monthly <==>
            !Contains(low, "hour") && !Contains(low, "day") && !Contains(low, "week") &&
            Contains(low, "month"))
      && (PayPeriodOf(text) == Annual <==>
            !Contains(low, "hour") && !Contains(low, "day") && !Contains(low, "week") &&
            !Contains(low, "month"))
  {
    var low := Lower(text);
    if Contains(low, "an hour") {
      ContainsSuffix(low, "an hour", 3);
      assert "an hour"[3..] == "hour";
    }
    if Contains(low, "a day") {
      ContainsSuffix(low, "a day", 2);
      assert "a day"[2..] == "day";
    }
    if Contains(low, "a week") {
      ContainsSuffix(low, "a week", 2);
      assert "a week"[2..] == "week";
    }
    if Contains(low, "a month") {
      ContainsSuffix(low, "a month", 2);
      assert "a month"[2..] == "month";
    }
  }

  /** The keyword match ignores case: "hour" written in any capitalisation
      selects the hourly factor. */
  lemma HourlyInAnyCase(text: string, word: string)
    requires Lower(word) == "hour" && Contains(text, word)
    ensures PayPeriodOf(text) == Hourly
  {
    LowerKeepsContains(text, word);
    PayPeriodPrecedence(text);
  }
}
