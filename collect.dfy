/**
 * The interactive collection loop of `main`: page by page, fetch Adzuna
 * results and scrape Indeed, append whatever came back, and ask whether to
 * go on. The network, the browser and the keyboard are parameters.
 */
module Collection {
  import opened Wrappers
  import opened PyStr
  import opened Records

  /** What the Adzuna search returns for each page number it is asked for:
      `None` stands for a failed request; a page number without an entry
      returns no results. */
  type AdzunaSource = map<nat, Option<seq<AdzunaJob>>>

  /** What the Indeed scraper returns for each result offset (`start=`) it
      is asked for; an offset without an entry yields no cards. */
  type ScrapeSource = map<nat, seq<ScrapedRow>>

  /** The text typed at the n-th "load more jobs?" prompt. */
  type Answers = nat -> string

  /** Why the loop ended. */
  datatype Outcome = NoMoreJobs | UserStopped

  /** The Adzuna records fetched for loop page `page` (API page `page + 1`). */
  function AdzunaPage(api: AdzunaSource, page: nat): seq<AdzunaJob>
  {
    if page + 1 in api && api[page + 1].Some? then api[page + 1].value else []
  }

  /** The scraped cards for loop page `page` (offset `page * 10`). */
  function ScrapedPage(scrape: ScrapeSource, page: nat): seq<ScrapedRow>
  {
    if page * 10 in scrape then scrape[page * 10] else []
  }

  /** The rows loop page `page` adds: the scraped table, then the Adzuna table. */
  function PageRows(api: AdzunaSource, scrape: ScrapeSource, page: nat): seq<Listing>
  {
    CombineData(ReformatJobData(ScrapedPage(scrape, page)), AdzunaFrame(AdzunaPage(api, page)))
  }

  /** Whether loop page `page` produced anything: the scraped table or the
      Adzuna table is non-empty. */
  predicate Productive(api: AdzunaSource, scrape: ScrapeSource, page: nat)
  {
    ScrapedPage(scrape, page) != [] || AdzunaPage(api, page) != []
  }

  /** A page adds rows exactly when it is productive. */
  lemma ProductiveIffRows(api: AdzunaSource, scrape: ScrapeSource, page: nat)
    ensures Productive(api, scrape, page) <==> PageRows(api, scrape, page) != []
  {
  }

  /** The rows of pages `0 .. pages - 1`, in page order. */
  function Accumulated(api: AdzunaSource, scrape: ScrapeSource, pages: nat): seq<Listing>
  {
    if pages == 0 then [] else Accumulated(api, scrape, pages - 1) + PageRows(api, scrape, pages - 1)
  }

  /** The one answer that ends the loop. */
  function StopWord(): string
  {
    "no"
  }

  /** `answer.strip().lower()` */
  function Normalised(answer: string): string
  {
    Lower(Strip(answer))
  }

  /** `input(...).strip().lower() == 'no'` */
  predicate IsNo(answer: string)
  {
    Normalised(answer) == StopWord()
  }

  /** The answer is read case-insensitively and with surrounding whitespace
      ignored: "No", " NO\n" and "no" all end the loop. */
  lemma NoIgnoresCaseAndPadding(pre: string, w: string, post: string)
    requires IsBlank(pre) && IsBlank(post)
    requires w != [] && !IsSpace(w[0]) && !IsSpace(w[|w| - 1])
    requires Lower(w) == StopWord()
    ensures IsNo(pre + w + post)
  {
    StripPadded(pre, w, post);
  }

  /** The final prompt: the table is written to CSV only when it holds
      rows and the answer, stripped and lower-cased, is "yes". */
  predicate SavesCsv(all: seq<Listing>, answer: string)
  {
    all != [] && Normalised(answer) == "yes"
  }

  /** An empty table is never saved, and neither is one the user declines
      with "no". */
  lemma NoSaveWithoutRowsOrConsent(all: seq<Listing>, answer: string)
    ensures all == [] ==> !SavesCsv(all, answer)
    ensures IsNo(answer) ==> !SavesCsv(all, answer)
  {
    if IsNo(answer) {
      assert Normalised(answer)[0] == 'n';
    }
  }

  /** An upper bound of a finite set of numbers. */
  ghost function Bound(s: set<nat>): (b: nat)
    ensures forall n :: n in s ==> n <= b
    decreases s
  {
    if s == {} then 0
    else
      var x :| x in s;
      var rest := Bound(s - {x});
      assert forall n :: n in s ==> n == x || n in s - {x};
      if x > rest then x else rest
  }

  /** A page number past which neither source has an entry. */
  ghost function Horizon(api: AdzunaSource, scrape: ScrapeSource): nat
  {
    Bound(api.Keys) + Bound(scrape.Keys)
  }

  /** Only pages up to the horizon can be productive, so the loop ends. */
  lemma ProductiveWithinHorizon(api: AdzunaSource, scrape: ScrapeSource, page: nat)
    requires Productive(api, scrape, page)
    ensures page <= Horizon(api, scrape)
  {
    if AdzunaPage(api, page) != [] {
      assert page + 1 in api.Keys;
    } else {
      assert page * 10 in scrape.Keys;
    }
  }

  /** What a finished run of the loop satisfies: it holds the rows of the
      first `pages` pages, each of which was productive; it stopped either at
      an unproductive page, having never been told "no", or right after the
      first "no". */
  predicate Finished(api: AdzunaSource, scrape: ScrapeSource, answers: Answers,
                     all: seq<Listing>, pages: nat, outcome: Outcome)
  {
    && all == Accumulated(api, scrape, pages)
    && (forall k :: 0 <= k < pages ==> Productive(api, scrape, k))
    && (outcome == NoMoreJobs ==>
          !Productive(api, scrape, pages) && forall k :: 0 <= k < pages ==> !IsNo(answers(k)))
    && (outcome == UserStopped ==>
          1 <= pages && IsNo(answers(pages - 1)) && forall k :: 0 <= k < pages - 1 ==> !IsNo(answers(k)))
  }

  /** One round of the loop before the prompt: fetch Adzuna page
      `page + 1` and process it when it returned records, and scrape
      offset `page * 10`. */
  method FetchPage(api: AdzunaSource, scrape: ScrapeSource, page: nat)
    returns (scraped: seq<Listing>, adzuna: seq<Listing>)
    ensures |scraped| == |ScrapedPage(scrape, page)| && |adzuna| == |AdzunaPage(api, page)|
    ensures CombineData(scraped, adzuna) == PageRows(api, scrape, page)
    ensures Productive(api, scrape, page) <==> scraped != [] || adzuna != []
  {
    var fetched := if page + 1 in api then api[page + 1] else Some([]);
    adzuna := [];
    if fetched.Some? && fetched.value != [] {
      adzuna := ProcessAdzunaData(fetched.value);
    }
    scraped := ReformatJobData(if page * 10 in scrape then scrape[page * 10] else []);
  }

  /** The loop's state before looking at page `page`: `all` holds the
      rows of the earlier pages, each of which was productive and was
      answered with something other than "no". */
  predicate Progress(api: AdzunaSource, scrape: ScrapeSource, answers: Answers,
                     all: seq<Listing>, page: nat)
  {
    && all == Accumulated(api, scrape, page)
    && (forall k :: 0 <= k < page ==> Productive(api, scrape, k))
    && (forall k :: 0 <= k < page ==> !IsNo(answers(k)))
  }

  /** A productive page answered with something other than "no" moves the
      loop on to the next page. */
  lemma Continue(api: AdzunaSource, scrape: ScrapeSource, answers: Answers,
                 all: seq<Listing>, page: nat, rows: seq<Listing>)
    requires Progress(api, scrape, answers, all, page)
    requires Productive(api, scrape, page) && !IsNo(answers(page))
    requires rows == PageRows(api, scrape, page)
    ensures Progress(api, scrape, answers, all + rows, page + 1)
  {
  }

  /** An unproductive page ends the loop with what was collected before it. */
  lemma Exhausted(api: AdzunaSource, scrape: ScrapeSource, answers: Answers,
                  all: seq<Listing>, page: nat)
    requires Progress(api, scrape, answers, all, page)
    requires !Productive(api, scrape, page)
    ensures Finished(api, scrape, answers, all, page, NoMoreJobs)
  {
  }

  /** A "no" after a productive page ends the loop with that page included. */
  lemma Stopped(api: AdzunaSource, scrape: ScrapeSource, answers: Answers,
                all: seq<Listing>, page: nat, rows: seq<Listing>)
    requires Progress(api, scrape, answers, all, page)
    requires Productive(api, scrape, page) && IsNo(answers(page))
    requires rows == PageRows(api, scrape, page)
    ensures Finished(api, scrape, answers, all + rows, page + 1, UserStopped)
  {
  }

  /** The "load more jobs?" prompt: whether the typed line asks to stop. */
  method AskToStop(answer: string) returns (stop: bool)
    ensures stop == IsNo(answer)
  {
    stop := Normalised(answer) == StopWord();
  }

  /** The `while True` loop of `main`. */
  method Collect(api: AdzunaSource, scrape: ScrapeSource, answers: Answers)
    returns (all: seq<Listing>, pages: nat, outcome: Outcome)
    ensures Finished(api, scrape, answers, all, pages, outcome)
  {
    all := [];
    var page := 0;
    while true
      invariant Progress(api, scrape, answers, all, page)
      invariant page <= Horizon(api, scrape) + 1
      decreases Horizon(api, scrape) + 1 - page
    {
      var scraped, adzuna := FetchPage(api, scrape, page);
      if scraped != [] || adzuna != [] {
        var rows := CombineData(scraped, adzuna);
        var stop := AskToStop(answers(page));
        if stop {
          Stopped(api, scrape, answers, all, page, rows);
          return all + rows, page + 1, UserStopped;
        }
        Continue(api, scrape, answers, all, page, rows);
        all := all + rows;
      } else {
        Exhausted(api, scrape, answers, all, page);
        return all, page, NoMoreJobs;
      }
      ProductiveWithinHorizon(api, scrape, page);
      page := page + 1;
    }
  }

  // ---------------------------------------------------------------------
  // Properties
  // ---------------------------------------------------------------------

  /** The table only grows: the rows of fewer pages are a prefix of the
      rows of more pages. */
  lemma {:induction false} AccumulatedPrefix(api: AdzunaSource, scrape: ScrapeSource, m: nat, n: nat)
    requires m <= n
    ensures Accumulated(api, scrape, m) <= Accumulated(api, scrape, n)
    decreases n
  {
    if m < n {
      AccumulatedPrefix(api, scrape, m, n - 1);
      var before := Accumulated(api, scrape, n - 1);
      assert Accumulated(api, scrape, n) == before + PageRows(api, scrape, n - 1);
      assert before <= Accumulated(api, scrape, n);
    }
  }

  /** Every page kept holds at least one row. */
  lemma {:induction false} AtLeastOneRowPerPage(api: AdzunaSource, scrape: ScrapeSource, pages: nat)
    requires forall k :: 0 <= k < pages ==> Productive(api, scrape, k)
    ensures |Accumulated(api, scrape, pages)| >= pages
  {
    if pages > 0 {
      AtLeastOneRowPerPage(api, scrape, pages - 1);
      ProductiveIffRows(api, scrape, pages - 1);
    }
  }

  /** The loop's result is determined by its inputs: two runs that both
      satisfy `Finished` agree on rows, pages and outcome. */
  lemma FinishedIsUnique(api: AdzunaSource, scrape: ScrapeSource, answers: Answers,
                         all1: seq<Listing>, pages1: nat, outcome1: Outcome,
                         all2: seq<Listing>, pages2: nat, outcome2: Outcome)
    requires Finished(api, scrape, answers, all1, pages1, outcome1)
    requires Finished(api, scrape, answers, all2, pages2, outcome2)
    ensures pages1 == pages2 && outcome1 == outcome2 && all1 == all2
  {
  }

  /** When the first page produces nothing, the loop stops at once with an
      empty table. */
  lemma FirstPageEmpty(api: AdzunaSource, scrape: ScrapeSource, answers: Answers,
                       all: seq<Listing>, pages: nat, outcome: Outcome)
    requires !Productive(api, scrape, 0)
    requires Finished(api, scrape, answers, all, pages, outcome)
    ensures all == [] && pages == 0 && outcome == NoMoreJobs
  {
    assert Finished(api, scrape, answers, [], 0, NoMoreJobs);
    FinishedIsUnique(api, scrape, answers, all, pages, outcome, [], 0, NoMoreJobs);
  }

  /** Answering "no" at the first prompt keeps exactly the first page. */
  lemma StopAfterFirstPage(api: AdzunaSource, scrape: ScrapeSource, answers: Answers,
                           all: seq<Listing>, pages: nat, outcome: Outcome)
    requires Productive(api, scrape, 0) && IsNo(answers(0))
    requires Finished(api, scrape, answers, all, pages, outcome)
    ensures all == PageRows(api, scrape, 0) && pages == 1 && outcome == UserStopped
  {
    var first := PageRows(api, scrape, 0);
    assert Accumulated(api, scrape, 1) == [] + first;
    assert Finished(api, scrape, answers, first, 1, UserStopped);
    FinishedIsUnique(api, scrape, answers, all, pages, outcome, first, 1, UserStopped);
  }
}
