/**
 * The aggregation loop of `run_scraper` (scripts/scraper.py): every
 * tournament year from 2024 down to 2014, each fetched page contributing its
 * group-stage records followed by its knockout records. Fetching is not
 * modelled: the pages that were fetched are given as a map from year to
 * document, and a year missing from the map is one whose fetch failed.
 */
module Driver {
  import opened Records
  import opened Knockout
  import opened GroupStage

  /** `range(start, stop, -1)`. */
  function DescendingRange(start: int, stop: int): (ys: seq<int>)
    ensures |ys| == if start > stop then start - stop else 0
    ensures forall i :: 0 <= i < |ys| ==> ys[i] == start - i
    decreases start - stop
  {
    if start <= stop then [] else [start] + DescendingRange(start - 1, stop)
  }

  /** `YEARS = range(2024, 2013, -1)`. */
  function Years(): seq<int>
  {
    DescendingRange(2024, 2013)
  }

  /** The records one fetched page contributes: group stage first, then knockout. */
  function YearMatches(doc: Document, year: int): seq<MatchRecord>
  {
    GroupStageMatches(doc, year) + KnockoutMatches(doc.knockouts, year)
  }

  /** The aggregate after visiting the given years in order. */
  function Aggregate(pages: map<int, Document>, years: seq<int>): seq<MatchRecord>
  {
    if years == [] then []
    else
      var y := years[|years| - 1];
      Aggregate(pages, years[..|years| - 1]) + (if y in pages then YearMatches(pages[y], y) else [])
  }

  /** One iteration of the loop: a fetched year appends its group-stage and knockout records. */
  method ScrapeYear(pages: map<int, Document>, year: int, matches0: seq<MatchRecord>) returns (allMatches: seq<MatchRecord>)
    ensures allMatches == matches0 + (if year in pages then YearMatches(pages[year], year) else [])
  {
    allMatches := matches0;
    if year !in pages {
      return;
    }
    var doc := pages[year];
    var groupMatches := ParseGroupStageMatches(doc, year);
    var knockoutMatches := ParseKnockoutMatches(doc.knockouts, year);
    allMatches := allMatches + groupMatches;
    allMatches := allMatches + knockoutMatches;
  }

  /** The scraping loop over the given years, in order. */
  method ScrapeYears(pages: map<int, Document>, years: seq<int>) returns (allMatches: seq<MatchRecord>)
    ensures allMatches == Aggregate(pages, years)
  {
    allMatches := [];
    for i := 0 to |years|
      invariant allMatches == Aggregate(pages, years[..i])
    {
      assert years[..i + 1][..i] == years[..i];
      allMatches := ScrapeYear(pages, years[i], allMatches);
    }
    assert years[..|years|] == years;
  }

  /** The scraping loop of `run_scraper` over `YEARS`, returning `all_matches`. */
  method RunScraper(pages: map<int, Document>) returns (allMatches: seq<MatchRecord>)
    ensures allMatches == Aggregate(pages, Years())
  {
    allMatches := ScrapeYears(pages, Years());
  }

  /** The records of year `y`, in order. */
  function OfYear(s: seq<MatchRecord>, y: int): (r: seq<MatchRecord>)
    ensures |r| <= |s|
    ensures forall m :: m in r ==> m in s && m.year == y
  {
    if s == [] then []
    else OfYear(s[..|s| - 1], y) + (if s[|s| - 1].year == y then [s[|s| - 1]] else [])
  }

  /** Records are in non-increasing year order. */
  predicate YearsNonIncreasing(s: seq<MatchRecord>)
  {
    forall i, j :: 0 <= i < j < |s| ==> s[i].year >= s[j].year
  }

  /** Every record a page yields carries that page's year. */
  lemma YearMatchesYear(doc: Document, year: int)
    ensures forall m :: m in YearMatches(doc, year) ==> m.year == year
  {
    GroupStageSource(doc, year);
    KnockoutRecordShape(doc.knockouts, year);
  }

  lemma {:induction false} OfYearConcat(a: seq<MatchRecord>, b: seq<MatchRecord>, y: int)
    ensures OfYear(a + b, y) == OfYear(a, y) + OfYear(b, y)
  {
    if b != [] {
      assert (a + b)[..|a + b| - 1] == a + b[..|b| - 1];
      OfYearConcat(a, b[..|b| - 1], y);
    } else {
      assert a + b == a;
    }
  }

  /** A non-empty sequence is its prefix followed by its last element. */
  lemma InitLast(s: seq<MatchRecord>)
    requires s != []
    ensures s[..|s| - 1] + [s[|s| - 1]] == s
  {
  }

  lemma {:induction false} OfYearAll(s: seq<MatchRecord>, y: int)
    requires forall m :: m in s ==> m.year == y
    ensures OfYear(s, y) == s
  {
    if s != [] {
      OfYearAll(s[..|s| - 1], y);
      InitLast(s);
    }
  }

  lemma {:induction false} OfYearNone(s: seq<MatchRecord>, y: int)
    requires forall m :: m in s ==> m.year != y
    ensures OfYear(s, y) == []
  {
    if s != [] {
      OfYearNone(s[..|s| - 1], y);
    }
  }

  /**
   * Over strictly decreasing years, the aggregate only holds years that were
   * both visited and fetched, in non-increasing year order.
   */
  lemma {:induction false} AggregateOrdered(pages: map<int, Document>, years: seq<int>)
    requires forall i, j :: 0 <= i < j < |years| ==> years[i] > years[j]
    ensures forall m :: m in Aggregate(pages, years) ==> m.year in years && m.year in pages
    ensures YearsNonIncreasing(Aggregate(pages, years))
  {
    if years != [] {
      var init := years[..|years| - 1];
      var y := years[|years| - 1];
      AggregateOrdered(pages, init);
      var before := Aggregate(pages, init);
      var block := if y in pages then YearMatches(pages[y], y) else [];
      if y in pages {
        YearMatchesYear(pages[y], y);
      }
      forall m | m in before ensures m.year > y {
        var k :| 0 <= k < |init| && init[k] == m.year;
      }
      var all := before + block;
      forall i, j | 0 <= i < j < |all| ensures all[i].year >= all[j].year {
        if j >= |before| {
          assert all[j] in block;
          if i < |before| {
            assert all[i] in before;
          } else {
            assert all[i] in block;
          }
        } else {
          assert all[i] == before[i] && all[j] == before[j];
        }
      }
    }
  }

  /**
   * Per fetched year, the aggregate holds exactly that page's group-stage
   * records followed by its knockout records; a year without a page holds
   * nothing.
   */
  lemma {:induction false} AggregateOfYear(pages: map<int, Document>, years: seq<int>, y: int)
    requires forall i, j :: 0 <= i < j < |years| ==> years[i] > years[j]
    requires y in years
    ensures OfYear(Aggregate(pages, years), y) ==
      (if y in pages then GroupStageMatches(pages[y], y) + KnockoutMatches(pages[y].knockouts, y) else [])
  {
    var init := years[..|years| - 1];
    var last := years[|years| - 1];
    var before := Aggregate(pages, init);
    var block := if last in pages then YearMatches(pages[last], last) else [];
    assert Aggregate(pages, years) == before + block;
    OfYearConcat(before, block, y);
    if last in pages {
      YearMatchesYear(pages[last], last);
    }
    AggregateOrdered(pages, init);
    if y == last {
      forall m | m in before ensures m.year != y {
        var k :| 0 <= k < |init| && init[k] == m.year;
      }
      OfYearNone(before, y);
      OfYearAll(block, y);
    } else {
      var k :| 0 <= k < |years| && years[k] == y;
      assert k < |years| - 1;
      assert y in init;
      AggregateOfYear(pages, init, y);
      OfYearNone(block, y);
    }
  }

  /** What `run_scraper` collects: fetched years only, newest first, and per year its own page's records. */
  lemma RunScraperResult(pages: map<int, Document>)
    ensures forall m :: m in Aggregate(pages, Years()) ==> 2014 <= m.year <= 2024 && m.year in pages
    ensures YearsNonIncreasing(Aggregate(pages, Years()))
    ensures forall y :: 2014 <= y <= 2024 ==>
      OfYear(Aggregate(pages, Years()), y) ==
        (if y in pages then GroupStageMatches(pages[y], y) + KnockoutMatches(pages[y].knockouts, y) else [])
  {
    var ys := Years();
    AggregateOrdered(pages, ys);
    forall m | m in Aggregate(pages, ys) ensures 2014 <= m.year <= 2024 {
      var k :| 0 <= k < |ys| && ys[k] == m.year;
    }
    forall y | 2014 <= y <= 2024
      ensures OfYear(Aggregate(pages, ys), y) ==
        (if y in pages then GroupStageMatches(pages[y], y) + KnockoutMatches(pages[y].knockouts, y) else [])
    {
      assert ys[2024 - y] == y;
      AggregateOfYear(pages, ys, y);
    }
  }
}
