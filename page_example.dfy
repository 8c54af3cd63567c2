/**
 * A worked page of the collection loop: one scraped card and one Adzuna
 * record, reformatted, processed and combined.
 */
module PageExample {
  import opened Wrappers
  import opened Records
  import opened Collection
  import opened SalaryExamples

  /** The card ("Data Engineer", "$80,000 - $100,000 a year", "Remote") and
      the record {"title": "Data Analyst", "location": {"area": ["Remote"]},
      "salary_min": 85000, "salary_max": 95000} on the first page give two
      rows at 90000 a year, the scraped one first. */
  lemma MixedPage(api: AdzunaSource, scrape: ScrapeSource)
    requires scrape == map[0 := [ScrapedRow("Data Engineer", "$80,000 - $100,000 a year", "Remote")]]
    requires api == map[1 := Some([AdzunaJob(Some("Data Analyst"), Some(["Remote"]), Some(85000.0), Some(95000.0))])]
    ensures PageRows(api, scrape, 0) ==
      [Listing("Data Engineer", "Remote", Some(90000.0)), Listing("Data Analyst", "Remote", Some(90000.0))]
    ensures Productive(api, scrape, 0)
  {
    var card := ScrapedRow("Data Engineer", "$80,000 - $100,000 a year", "Remote");
    var job := AdzunaJob(Some("Data Analyst"), Some(["Remote"]), Some(85000.0), Some(95000.0));
    assert ScrapedPage(scrape, 0) == [card];
    assert AdzunaPage(api, 0) == [job];
    RangeExample(card.salary);
    var scraped := ReformatJobData([card]);
    assert scraped == [Listing("Data Engineer", "Remote", Some(90000.0))];
    AdzunaExample();
    ProductiveIffRows(api, scrape, 0);
  }
}
