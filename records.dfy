/**
 * The two job sources and the table they are merged into: scraped rows
 * (`reformat_job_data`), Adzuna API records (`process_adzuna_data`) and
 * their concatenation (`combine_data`).
 */
module Records {
  import opened Wrappers
  import opened PyStr
  import opened Salary

  /** One row of the combined table. The scraped and the Adzuna frames list
      their columns in different orders; concatenation aligns them by name,
      so a row is modelled by its named columns. A salary of `None` is the
      table's missing value. */
  datatype Listing = Listing(title: string, location: string, salary: Option<real>)

  /** A scraped job card as the scraper hands it over: (title, salary text,
      location). */
  datatype ScrapedRow = ScrapedRow(title: string, salary: string, location: string)

  /** One Adzuna search result. `None` marks a key absent from the JSON
      object; `location` holds the `area` list of the location object. */
  datatype AdzunaJob = AdzunaJob(
    title: Option<string>,
    location: Option<seq<string>>,
    salaryMin: Option<real>,
    salaryMax: Option<real>)

  /** Placeholder for a missing Adzuna title or location. */
  const NotAvailable: string := "N/A"

  // ---------------------------------------------------------------------
  // Scraped rows
  // ---------------------------------------------------------------------

  /** `reformat_job_data`: keep title and location, normalise the salary text. */
  function ReformatJobData(rows: seq<ScrapedRow>): (table: seq<Listing>)
    ensures |table| == |rows|
    ensures forall k :: 0 <= k < |rows| ==>
      table[k].title == rows[k].title && table[k].location == rows[k].location
    ensures forall k :: 0 <= k < |rows| ==> table[k].salary == ProcessSalary(rows[k].salary)
  {
    seq(|rows|, k requires 0 <= k < |rows| =>
      Listing(rows[k].title, rows[k].location, ProcessSalary(rows[k].salary)))
  }

  /** A page is reformatted row by row: reformatting two batches one after
      the other gives the same table as reformatting them together. */
  lemma ReformatConcat(a: seq<ScrapedRow>, b: seq<ScrapedRow>)
    ensures ReformatJobData(a + b) == ReformatJobData(a) + ReformatJobData(b)
  {
  }

  /** A card without a salary snippet ("Salary not listed") or with a blank
      one ends up with no salary in the table. */
  lemma ReformatUnlistedRows(rows: seq<ScrapedRow>, k: nat)
    requires k < |rows|
    requires Contains(rows[k].salary, SalaryNotListed) || IsBlank(rows[k].salary)
    ensures ReformatJobData(rows)[k].salary == None
  {
    UnlistedHasNoSalary(rows[k].salary);
  }

  // ---------------------------------------------------------------------
  // Adzuna records
  // ---------------------------------------------------------------------

  /** Python truthiness of an optional number: present and non-zero. */
  predicate Truthy(x: Option<real>)
  {
    x.Some? && x.value != 0.0
  }

  /** The salary of an Adzuna record: the mean of minimum and maximum when
      both are truthy, otherwise `salary_min or salary_max` — the minimum
      when it is truthy, the maximum as it is otherwise. */
  function AdzunaSalary(lo: Option<real>, hi: Option<real>): (r: Option<real>)
    ensures r.Some? ==> r == lo || r == hi || (lo.Some? && hi.Some? && r.value == (lo.value + hi.value) / 2.0)
  {
    if Truthy(lo) && Truthy(hi) then Some((lo.value + hi.value) / 2.0)
    else if Truthy(lo) then lo
    else hi
  }

  /** The title, or "N/A" when the record has none. */
  function AdzunaTitle(job: AdzunaJob): string
  {
    if job.title.Some? then job.title.value else NotAvailable
  }

  /** The location areas joined with ", ", or "N/A" when there is no location. */
  function AdzunaLocation(job: AdzunaJob): string
  {
    if job.location.Some? then Join(", ", job.location.value) else NotAvailable
  }

  /** The row one Adzuna record becomes. */
  function AdzunaListing(job: AdzunaJob): (row: Listing)
    ensures job.title.None? ==> row.title == NotAvailable
    ensures job.title.Some? ==> row.title == job.title.value
    ensures job.location.None? ==> row.location == NotAvailable
    ensures job.location.Some? ==> row.location == Join(", ", job.location.value)
    ensures Truthy(job.salaryMin) && Truthy(job.salaryMax) ==>
      row.salary == Some((job.salaryMin.value + job.salaryMax.value) / 2.0)
    ensures Truthy(job.salaryMin) && !Truthy(job.salaryMax) ==> row.salary == job.salaryMin
    ensures !Truthy(job.salaryMin) ==> row.salary == job.salaryMax
  {
    Listing(AdzunaTitle(job), AdzunaLocation(job), AdzunaSalary(job.salaryMin, job.salaryMax))
  }

  /** The table `process_adzuna_data` builds: one row per record, in order. */
  function AdzunaFrame(jobs: seq<AdzunaJob>): (table: seq<Listing>)
    ensures |table| == |jobs|
    ensures forall k :: 0 <= k < |jobs| ==> table[k] == AdzunaListing(jobs[k])
  {
    if jobs == [] then [] else AdzunaFrame(jobs[..|jobs| - 1]) + [AdzunaListing(jobs[|jobs| - 1])]
  }

  /** `process_adzuna_data`: walk the records and append one row for each. */
  method ProcessAdzunaData(jobs: seq<AdzunaJob>) returns (table: seq<Listing>)
    ensures table == AdzunaFrame(jobs)
  {
    table := [];
    var i := 0;
    while i < |jobs|
      invariant i <= |jobs|
      invariant table == AdzunaFrame(jobs[..i])
    {
      var job := jobs[i];
      var title := if job.title.Some? then job.title.value else NotAvailable;
      var location := if job.location.Some? then Join(", ", job.location.value) else NotAvailable;
      var salary: Option<real>;
      if Truthy(job.salaryMin) && Truthy(job.salaryMax) {
        salary := Some((job.salaryMin.value + job.salaryMax.value) / 2.0);
      } else if Truthy(job.salaryMin) {
        salary := job.salaryMin;
      } else {
        salary := job.salaryMax;
      }
      assert Listing(title, location, salary) == AdzunaListing(job);
      assert jobs[..i + 1][..i] == jobs[..i];
      table := table + [Listing(title, location, salary)];
      i := i + 1;
    }
    assert jobs[..i] == jobs;
  }

  /** The salary rule case by case: a mean only when both bounds are
      truthy; the minimum alone when only it is truthy; otherwise the
      maximum exactly as given (so a zero maximum survives while a zero
      minimum does not); no value only when the minimum is falsy and the
      maximum absent. */
  lemma AdzunaSalaryCases(lo: Option<real>, hi: Option<real>)
    ensures Truthy(lo) && Truthy(hi) ==> AdzunaSalary(lo, hi) == Some((lo.value + hi.value) / 2.0)
    ensures Truthy(lo) && !Truthy(hi) ==> AdzunaSalary(lo, hi) == lo
    ensures !Truthy(lo) ==> AdzunaSalary(lo, hi) == hi
    ensures AdzunaSalary(lo, hi) == None <==> !Truthy(lo) && hi.None?
  {
  }

  /** When both bounds are truthy and ordered, the salary lies between them. */
  lemma AdzunaSalaryBetween(lo: Option<real>, hi: Option<real>)
    requires Truthy(lo) && Truthy(hi) && lo.value <= hi.value
    ensures AdzunaSalary(lo, hi).Some?
    ensures lo.value <= AdzunaSalary(lo, hi).value <= hi.value
  {
  }

  /** A missing title or location becomes "N/A"; a present title is kept,
      and a single area is the location itself. */
  lemma AdzunaDefaults(job: AdzunaJob)
    ensures job.title.None? ==> AdzunaListing(job).title == NotAvailable
    ensures job.title.Some? ==> AdzunaListing(job).title == job.title.value
    ensures job.location.None? ==> AdzunaListing(job).location == NotAvailable
    ensures job.location.Some? && |job.location.value| == 1 ==>
      AdzunaListing(job).location == job.location.value[0]
  {
  }

  /** One more area adds ", " and that area to the location of the row. */
  lemma AdzunaLocationSnoc(job: AdzunaJob, area: string)
    requires job.location.Some? && job.location.value != []
    ensures AdzunaListing(job.(location := Some(job.location.value + [area]))).location
      == AdzunaListing(job).location + ", " + area
  {
    JoinSnoc(", ", job.location.value, area);
  }

  /** Two batches of records processed one after the other give the rows of the
      whole batch. */
  lemma {:induction false} AdzunaFrameConcat(a: seq<AdzunaJob>, b: seq<AdzunaJob>)
    ensures AdzunaFrame(a + b) == AdzunaFrame(a) + AdzunaFrame(b)
    decreases |b|
  {
    if b == [] {
      assert a + b == a;
    } else {
      var b' := b[..|b| - 1];
      assert (a + b)[..|a + b| - 1] == a + b';
      AdzunaFrameConcat(a, b');
    }
  }

  /** The record {"title": "Data Analyst", "location": {"area": ["Remote"]},
      "salary_min": 85000, "salary_max": 95000} becomes the row
      ("Data Analyst", "Remote", 90000). */
  lemma AdzunaExample()
    ensures AdzunaFrame([AdzunaJob(Some("Data Analyst"), Some(["Remote"]), Some(85000.0), Some(95000.0))])
      == [Listing("Data Analyst", "Remote", Some(90000.0))]
  {
  }

  // ---------------------------------------------------------------------
  // Combining
  // ---------------------------------------------------------------------

  /** `combine_data`: the scraped rows followed by the Adzuna rows, renumbered. */
  function CombineData(scraped: seq<Listing>, adzuna: seq<Listing>): (table: seq<Listing>)
    ensures |table| == |scraped| + |adzuna|
    ensures table[..|scraped|] == scraped && table[|scraped|..] == adzuna
  {
    scraped + adzuna
  }

  /** Combining loses and invents no row: every row comes from one of the
      two tables, and every row of either table is kept. */
  lemma CombineKeepsRows(scraped: seq<Listing>, adzuna: seq<Listing>)
    ensures multiset(CombineData(scraped, adzuna)) == multiset(scraped) + multiset(adzuna)
    ensures forall row :: row in CombineData(scraped, adzuna) <==> row in scraped || row in adzuna
  {
  }
}
