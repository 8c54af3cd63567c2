# Job aggregator core, modelled in Dafny

The job aggregator (`jobAggregator.py`) collects job listings from two
sources and puts them in one table. One source scrapes Indeed result pages.
The other is the Adzuna search API. Each row of the table has a title, a
location and an annual salary figure. Scraped salaries are free text such as
"$80,000 - $100,000 a year" or "$40 an hour", and `process_salary` turns them
into one yearly number. Adzuna records carry a numeric minimum and maximum.
`main` fetches and scrapes one page at a time, appends what came back, and
asks the user whether to load more.

This project models that core and proves properties of it:

- `PyStr` gives the Python string operations the core relies on, written
  out over `seq<char>`: `isspace`, `strip`, `lower`, the `in` substring test
  and `join`.
- `NumberScan` gives `re.findall(r'\d{1,3}(?:,\d{3})*(?:\.\d+)?', text)` as
  an explicit left-to-right matcher, and `float(t.replace(",", ""))` as an
  exact `real`. The pattern is also a grammar predicate. The proofs show
  that:
  - the greedy match at a position is the longest token starting there;
  - the scan returns exactly the leftmost-longest, non-overlapping tokens.
- `Salary` is `process_salary`: the sentinel and blank checks, number
  extraction, single value or range midpoint, and the hour, day, week or
  month scaling.
- `SalaryExamples` works concrete inputs through the model:
  - "$80,000 - $100,000 a year" gives 90000.
  - "$40 an hour" gives 83200.
  - "$22.50 an hour" gives 46800, through the fraction part of the pattern.
  - "$5,000 a month" gives 60000.
  - "85000" is read as "850" and "00", so it gives 425.
  - "Competitive" gives no value.
  - "Salary not listed" gives no value.
- `Records` covers:
  - `reformat_job_data`, for scraped rows;
  - `process_adzuna_data`, a loop written as a method with invariants;
  - `combine_data`.
- `Collection` is the `while True` loop of `main`, written as a method. Its
  three inputs are:
  - the Adzuna responses, as a finite map from page number to result;
  - the scraper's output, as a finite map from result offset to cards;
  - the typed answers, as a function from prompt number to text.
- `PageExample` works one page through the loop: a scraped card and an
  Adzuna record become two rows.

## Model

| member | source | states |
|---|---|---|
| PyStr.StripLeftSpec | jobAggregator.py:83 | `lstrip` drops exactly the leading whitespace: the part dropped is blank, and the part kept is a suffix that does not start with whitespace |
| PyStr.StripRightSpec | jobAggregator.py:83 | `rstrip` drops exactly the trailing whitespace |
| PyStr.StripEmptyIffBlank | jobAggregator.py:83 | `s.strip() == ""` holds exactly when every character of `s` is whitespace |
| PyStr.StripPadded | jobAggregator.py:197 | stripping returns a word unchanged whatever whitespace surrounds it |
| PyStr.LowerOfLowerCase | jobAggregator.py:104 | `lower()` leaves text unchanged when every character is its own lower-case form |
| PyStr.ContainsIffOccurs | jobAggregator.py:83 | the `in` test holds exactly when `w` occurs at some index of `s` (both directions) |
| PyStr.ContainsInfix | jobAggregator.py:83 | a string is found inside any text that has it as a piece |
| PyStr.ContainedCharsOccur | jobAggregator.py:104-111 | a text containing a keyword contains each of the keyword's characters |
| PyStr.LowerKeepsContains | jobAggregator.py:104 | a match survives lower-casing: if `w in s` then `w.lower() in s.lower()` |
| PyStr.JoinSnoc | jobAggregator.py:147 | joining one more area appends `", "` and that area |
| NumberScan.TokenStartsWithDigit | jobAggregator.py:88 | every token of the pattern starts with a digit |
| NumberScan.TailSound | jobAggregator.py:88 | the greedy `(?:,\d{3})*(?:\.\d+)?` matcher consumes text that the grammar accepts |
| NumberScan.TailLongest | jobAggregator.py:88 | no longer tail than the greedy one is accepted by the grammar |
| NumberScan.TokenWithinMatch | jobAggregator.py:88 | a token starting at `i` ends no later than the matcher's match at `i` |
| NumberScan.MatchIsLongestToken | jobAggregator.py:88 | the match at a digit is a token, and no longer token starts there |
| NumberScan.SpansFromLeftmostLongest | jobAggregator.py:88 | the scan yields the leftmost-longest, non-overlapping matches, and no token starts after the last one |
| NumberScan.LeftmostLongestUnique | jobAggregator.py:88 | at most one list of matches meets the leftmost-longest description |
| NumberScan.FindAllIsLeftmostLongest | jobAggregator.py:88 | `findall` returns exactly the text of any leftmost-longest list of matches |
| NumberScan.FindAllTokens | jobAggregator.py:88 | every string `findall` returns is a whole token of the pattern |
| NumberScan.SkipNonDigits | jobAggregator.py:88 | characters that are not digits never start a match |
| NumberScan.RemoveCommasConcat | jobAggregator.py:93 | removing commas distributes over concatenation |
| NumberScan.NatOfConcat | jobAggregator.py:93 | appending digits shifts the value left by their count |
| NumberScan.OneGroupValue | jobAggregator.py:93 | `"h,ddd"` converts to `h * 1000 + ddd` |
| NumberScan.WholeValue | jobAggregator.py:93 | a string of digits converts to the integer it spells |
| NumberScan.TokenValue | jobAggregator.py:93 | a converted number is never negative |
| NumberScan.FractionValue | jobAggregator.py:88-93 | a token with a fraction part, `digits.digits`, reads as the whole part plus the fraction digits over ten to the power of their count |
| Salary.Annualise | jobAggregator.py:104-111 | scaling never lowers a non-negative figure; annual figures are kept as they are |
| Salary.BaseFigure | jobAggregator.py:96-101 | there is a base figure exactly when there are one or two numbers; it is non-negative when they are |
| Salary.SalaryNumbers | jobAggregator.py:88-93 | one non-negative value per `findall` token, in order |
| Salary.ProcessSalary | jobAggregator.py:82-113 | a value comes only from listed text with one or two numbers, and it is never negative |
| Salary.UnlistedHasNoSalary | jobAggregator.py:83-84 | empty text, blank text and text holding "Salary not listed" give no value |
| Salary.AmbiguousHasNoSalary | jobAggregator.py:89-90 | text with no number gives no value, and so does text with more than two numbers (line 101) |
| Salary.SingleNumberSalary | jobAggregator.py:98-99 | a single number is taken as is, then annualised |
| Salary.RangeSalary | jobAggregator.py:96-97 | two numbers give their midpoint, then annualised |
| Salary.PayPeriodPrecedence | jobAggregator.py:104-111 | the period is chosen by the first keyword present, in the order hour, day, week, month, in the lower-cased text; "an hour", "a day" and so on add nothing beyond the bare word |
| Salary.HourlyInAnyCase | jobAggregator.py:104-105 | "hour" in any capitalisation makes the pay hourly |
| SalaryExamples.AnnualWhenNoUnit | jobAggregator.py:104-113 | lower-case text without the letters h, d, w and m is taken as annual |
| SalaryExamples.HourlyWhenHour | jobAggregator.py:104-105 | lower-case text containing "hour" is hourly |
| SalaryExamples.MonthlyWhenMonth | jobAggregator.py:104-111 | lower-case text containing "month" and none of "hour", "day", "week" is monthly |
| SalaryExamples.RangeTokens | jobAggregator.py:88 | "$80,000 - $100,000 a year" yields the tokens "80,000" and "100,000" |
| SalaryExamples.MidpointOf | jobAggregator.py:96-97 | a listed annual range reading `x` and `y` gives `(x + y) / 2` |
| SalaryExamples.RangeExample | jobAggregator.py:82-113 | "$80,000 - $100,000 a year" gives 90000 |
| SalaryExamples.HourlyExample | jobAggregator.py:104-105 | "$40 an hour" gives 40 × 8 × 260 = 83200 |
| SalaryExamples.SplitTokens | jobAggregator.py:88 | without separators, "85000" splits into "850" and "00" |
| SalaryExamples.SplitExample | jobAggregator.py:88-97 | "85000" gives 425, the midpoint of 850 and 0 |
| SalaryExamples.DecimalTokens | jobAggregator.py:88 | "$22.50 an hour" yields the single token "22.50", fraction included |
| SalaryExamples.DecimalExample | jobAggregator.py:93-105 | "$22.50 an hour" gives 22.5 × 8 × 260 = 46800 |
| SalaryExamples.MonthlyTokens | jobAggregator.py:88 | "$5,000 a month" yields the single token "5,000" |
| SalaryExamples.MonthlyExample | jobAggregator.py:93-111 | "$5,000 a month" gives 5000 × 12 = 60000 |
| SalaryExamples.NoDigitsExample | jobAggregator.py:89-90 | "Competitive" gives no value |
| SalaryExamples.SentinelExample | jobAggregator.py:63 | the scraper's "Salary not listed" stand-in gives no value |
| Records.ReformatJobData | jobAggregator.py:116-119 | one row per scraped card, in order; title and location kept; salary normalised |
| Records.ReformatConcat | jobAggregator.py:118 | reformatting works row by row: two batches reformat to the reformatted batches, one after the other |
| Records.ReformatUnlistedRows | jobAggregator.py:63 | a card with no salary snippet, or a blank one, has no salary in the table |
| Records.AdzunaSalary | jobAggregator.py:148-153 | any salary is the minimum, the maximum or their mean |
| Records.AdzunaSalaryCases | jobAggregator.py:150-153 | the mean when both bounds are truthy; the minimum when only it is truthy; otherwise the maximum as given; no value exactly when the minimum is falsy and the maximum absent |
| Records.AdzunaSalaryBetween | jobAggregator.py:150-151 | with ordered truthy bounds the salary lies between them |
| Records.AdzunaDefaults | jobAggregator.py:146-147 | a missing title or location becomes "N/A"; a present title is kept as it is; a single area is the location itself |
| Records.AdzunaLocationSnoc | jobAggregator.py:147 | one more area appends ", " and that area to the location |
| Records.AdzunaListing | jobAggregator.py:146-159 | the row of one record: a missing title or location is "N/A", a present title is kept, present areas are joined with ", "; the salary is the mean when both bounds are truthy, the minimum when only it is truthy, and the maximum as given otherwise |
| Records.AdzunaFrame | jobAggregator.py:142-163 | one row per record, in order |
| Records.ProcessAdzunaData | jobAggregator.py:142-163 | the loop builds exactly the table `AdzunaFrame` describes |
| Records.AdzunaFrameConcat | jobAggregator.py:145-159 | processing two batches one after the other gives the rows of the whole batch |
| Records.AdzunaExample | jobAggregator.py:146-153 | a record for "Data Analyst" in "Remote" with 85000 to 95000 becomes the row ("Data Analyst", "Remote", 90000) |
| Records.CombineData | jobAggregator.py:166-169 | the scraped rows come first, then the Adzuna rows |
| Records.CombineKeepsRows | jobAggregator.py:166-169 | combining neither loses nor invents rows: the multiset of rows is the sum of both tables' |
| Collection.ProductiveIffRows | jobAggregator.py:189 | a page adds rows exactly when its scraped table or its Adzuna table is non-empty |
| Collection.NoIgnoresCaseAndPadding | jobAggregator.py:197-198 | "no" typed in any case, with any whitespace around it, stops the loop |
| Collection.NoSaveWithoutRowsOrConsent | jobAggregator.py:207-210 | an empty table is never saved to CSV, and neither is one the user declines with "no" |
| Collection.ProductiveWithinHorizon | jobAggregator.py:180-204 | only pages up to the sources' last entry can produce rows, so the loop ends |
| Collection.FetchPage | jobAggregator.py:182-186 | the scraped and Adzuna tables of one page, with as many rows as cards and records, combined into that page's rows |
| Collection.Continue | jobAggregator.py:189-204 | a productive page not answered "no" moves the loop on, with its rows appended |
| Collection.Exhausted | jobAggregator.py:200-202 | an unproductive page ends the loop with the rows gathered so far |
| Collection.Stopped | jobAggregator.py:197-199 | "no" after a productive page ends the loop with that page included |
| Collection.Collect | jobAggregator.py:176-204 | the result holds the rows of the first `pages` pages, in order; every page kept was productive; the loop ended at the first unproductive page, or right after the first "no" |
| Collection.AccumulatedPrefix | jobAggregator.py:191 | the table only grows: earlier contents are a prefix of later contents |
| Collection.AtLeastOneRowPerPage | jobAggregator.py:189-191 | every page kept adds at least one row |
| Collection.FinishedIsUnique | jobAggregator.py:176-204 | two finished runs on the same inputs agree on rows, page count and outcome |
| Collection.FirstPageEmpty | jobAggregator.py:200-202 | when the first page has nothing, the loop stops at once with an empty table |
| PageExample.MixedPage | jobAggregator.py:182-191 | a first page with the card "$80,000 - $100,000 a year" and an Adzuna record for 85000 to 95000 adds two rows at 90000, the scraped row first |
| Collection.StopAfterFirstPage | jobAggregator.py:197-199 | "no" at the first prompt keeps exactly the first page |

## Left out

- HTTP requests, the Selenium browser, `.env` loading, sleeping, printing,
  CSV writing and keyboard input are not modelled.
- The sources are parameters instead. The Adzuna source maps an API page
  number to a result list; `None` stands for a failed request; a missing
  number means no results. The scraper source maps a result offset
  (`start=page*10`) to the cards that were read without error; a missing
  offset means no cards.
- Modelling the sources as finite maps is what bounds the loop. The program
  itself would keep asking for pages for as long as a server keeps answering.
  `Collection.Bound` (the largest key of a finite map) and `Collection.Horizon`
  exist only to give the loop of `Collection.Collect` this termination measure;
  the program has no such bound.
- The search terms typed at the first two prompts only shape the requests.
  Their effect is inside the source maps.
- `NumberScan.IsDigit`: `\d` is limited to ASCII digits. Python's `\d` also
  matches other Unicode decimal digits, and `float` accepts them.
- `PyStr.Lower`: `lower()` is modelled for ASCII letters, the Kelvin sign
  and capital I with dot above. Every other character is left unchanged,
  which cannot affect a match against the ASCII keywords.
- `Salary.ProcessSalary`: salaries are exact reals. Floating-point rounding
  of `float()` and of the scaling is not modelled.
- Records.AdzunaJob: a location object without an `area` key raises
  `KeyError` in the program, and a JSON `null` location raises `TypeError`.
  A JSON `null` title is kept as `None` in the Title column instead of
  taking the default "N/A". None of these can be expressed in the record
  type. A `null` salary is modelled: `get` gives `None` for it exactly as
  for a missing key.
- pandas details are out of scope: a missing salary becomes `NaN`, column
  order differs between the two frames, and the index is renumbered.
  Listing rows have named fields, and `None` is the missing value.
- Collection.Collect: an end of input at a prompt (`EOFError`) is not
  modelled. The answers are a total function of the prompt number.
- Two behaviours of the code that a reader might not expect; the model
  follows the code in both:
  - `salary_min or salary_max` returns the maximum as given whenever the
    minimum is falsy. So a zero maximum
    survives as 0, while a zero minimum with no maximum gives no value.
  - An Adzuna location with an empty `area` list is joined to the empty
    string; the "N/A" default applies only when the `location` key is
    missing.
