/**
 * The knockout extractor `parse_knockout_matches` (scripts/scraper.py): one
 * record per single-match table, labelled with the phase carried from the
 * most recent non-empty preceding heading.
 */
module Knockout {
  import opened Wrappers
  import opened Text
  import opened Score
  import opened Names
  import opened Records

  const DefaultPhase: string := "Fase Final"

  /** The phase after looking at one table's preceding heading. */
  function NextPhase(current: string, heading: Option<string>): (r: string)
    ensures heading.None? || heading.value == [] ==> r == current
    ensures heading.Some? && heading.value != [] ==> NoEdgeSpace(r) && |r| <= |heading.value|
  {
    if heading.Some? && heading.value != [] then Strip(heading.value) else current
  }

  /** The phase in force after the given tables have been visited. */
  function PhaseAfter(tables: seq<KnockoutTable>): string
  {
    if tables == [] then DefaultPhase
    else NextPhase(PhaseAfter(tables[..|tables| - 1]), tables[|tables| - 1].heading)
  }

  /** `venue.split(",")[0]`: the text before the first comma. */
  function BeforeComma(venue: string): (r: string)
    ensures NoChar(r, ',')
    ensures |r| <= |venue| && r == venue[..|r|]
    ensures |r| == |venue| || venue[|r|] == ','
  {
    if venue == [] || venue[0] == ',' then []
    else [venue[0]] + BeforeComma(venue[1..])
  }

  /** The record read from one table's first row, if it has at least five cells. */
  function KnockoutRecord(table: KnockoutTable, phase: string, year: int): (r: Option<MatchRecord>)
    ensures r.Some? <==> |table.cells| >= 5
    ensures r.Some? ==> r.value.year == year && r.value.phase == phase
    ensures r.Some? ==> NoEdgeSpace(r.value.date) && NoEdgeSpace(r.value.score)
    ensures r.Some? ==> r.value.goals == CleanScoreText(r.value.score)
    ensures r.Some? ==> r.value.stadium.Some? && NoChar(r.value.stadium.value, ',')
    ensures r.Some? ==>
      && r.value.date == Strip(table.cells[0])
      && r.value.homeTeam == CleanTeamName(Strip(table.cells[1]))
      && r.value.score == Strip(table.cells[2])
      && r.value.awayTeam == CleanTeamName(Strip(table.cells[3]))
      && r.value.stadium == Some(BeforeComma(Strip(table.cells[4])))
  {
    var cells := table.cells;
    if |cells| < 5 then None
    else
      var scoreRaw := Strip(cells[2]);
      Some(MatchRecord(year, phase, Strip(cells[0]),
                       CleanTeamName(Strip(cells[1])), CleanTeamName(Strip(cells[3])),
                       scoreRaw, CleanScoreText(scoreRaw), Some(BeforeComma(Strip(cells[4])))))
  }

  /** The records the extractor emits for the given tables, in table order. */
  function KnockoutMatches(tables: seq<KnockoutTable>, year: int): seq<MatchRecord>
  {
    if tables == [] then []
    else
      var last := tables[|tables| - 1];
      var before := KnockoutMatches(tables[..|tables| - 1], year);
      match KnockoutRecord(last, PhaseAfter(tables), year)
      case None => before
      case Some(r) => before + [r]
  }

  /** Number of tables whose first row has at least five cells. */
  function FullTables(tables: seq<KnockoutTable>): nat
  {
    if tables == [] then 0
    else FullTables(tables[..|tables| - 1]) + (if |tables[|tables| - 1].cells| >= 5 then 1 else 0)
  }

  /** `parse_knockout_matches(doc, year)` over the page's knockout tables. */
  method ParseKnockoutMatches(tables: seq<KnockoutTable>, year: int) returns (matches: seq<MatchRecord>)
    ensures matches == KnockoutMatches(tables, year)
    ensures |matches| == FullTables(tables) <= |tables|
    ensures forall r :: r in matches ==> r.year == year && r.stadium.Some? && NoChar(r.stadium.value, ',')
  {
    matches := [];
    var currentPhase := DefaultPhase;
    for i := 0 to |tables|
      invariant matches == KnockoutMatches(tables[..i], year)
      invariant currentPhase == PhaseAfter(tables[..i])
    {
      var table := tables[i];
      assert PhaseAfter(tables[..i + 1]) == NextPhase(currentPhase, table.heading) by {
        assert tables[..i + 1][..i] == tables[..i];
      }
      assert KnockoutMatches(tables[..i + 1], year) ==
        matches + (if |table.cells| < 5 then [] else [KnockoutRecord(table, PhaseAfter(tables[..i + 1]), year).value]) by {
        assert tables[..i + 1][..i] == tables[..i];
      }
      if table.heading.Some? {
        var spanText := table.heading.value;
        if spanText != [] {
          currentPhase := Strip(spanText);
        }
      }
      var cells := table.cells;
      if |cells| < 5 {
        continue;
      }
      var date := Strip(cells[0]);
      var homeTeam := CleanTeamName(Strip(cells[1]));
      var scoreRaw := Strip(cells[2]);
      var awayTeam := CleanTeamName(Strip(cells[3]));
      var stadium := BeforeComma(Strip(cells[4]));
      var goals := CleanScoreText(scoreRaw);
      matches := matches + [MatchRecord(year, currentPhase, date, homeTeam, awayTeam, scoreRaw, goals, Some(stadium))];
    }
    assert tables[..|tables|] == tables;
    KnockoutCount(tables, year);
    KnockoutRecordShape(tables, year);
  }

  /** One record per table with at least five cells, none for the others. */
  lemma {:induction false} KnockoutCount(tables: seq<KnockoutTable>, year: int)
    ensures |KnockoutMatches(tables, year)| == FullTables(tables) <= |tables|
  {
    if tables != [] {
      KnockoutCount(tables[..|tables| - 1], year);
    }
  }

  /** Every record carries the call's year and a stadium without a comma. */
  lemma {:induction false} KnockoutRecordShape(tables: seq<KnockoutTable>, year: int)
    ensures forall r :: r in KnockoutMatches(tables, year) ==>
      r.year == year && r.stadium.Some? && NoChar(r.stadium.value, ',')
  {
    if tables != [] {
      KnockoutRecordShape(tables[..|tables| - 1], year);
    }
  }

  /** Before any table with a non-empty heading, the phase is the default "Fase Final". */
  lemma {:induction false} PhaseDefault(tables: seq<KnockoutTable>)
    requires forall i :: 0 <= i < |tables| ==> tables[i].heading.None? || tables[i].heading.value == []
    ensures PhaseAfter(tables) == DefaultPhase
  {
    if tables != [] {
      PhaseDefault(tables[..|tables| - 1]);
    }
  }

  /** The phase in force is the stripped text of the last non-empty heading seen so far. */
  lemma {:induction false} PhaseFromLastHeading(tables: seq<KnockoutTable>, k: nat)
    requires k < |tables| && tables[k].heading.Some? && tables[k].heading.value != []
    requires forall i :: k < i < |tables| ==> tables[i].heading.None? || tables[i].heading.value == []
    ensures PhaseAfter(tables) == Strip(tables[k].heading.value)
  {
    if k < |tables| - 1 {
      PhaseFromLastHeading(tables[..|tables| - 1], k);
    }
  }

  /**
   * A table that is skipped for having fewer than five cells still sets the
   * phase when its heading has text, so later records carry that phase.
   */
  lemma SkippedTableSetsPhase(tables: seq<KnockoutTable>, skipped: KnockoutTable, next: KnockoutTable, year: int)
    requires |skipped.cells| < 5 && skipped.heading.Some? && skipped.heading.value != []
    requires next.heading.None? && |next.cells| >= 5
    ensures KnockoutMatches(tables + [skipped], year) == KnockoutMatches(tables, year)
    ensures KnockoutMatches(tables + [skipped, next], year)
      == KnockoutMatches(tables, year) + [KnockoutRecord(next, Strip(skipped.heading.value), year).value]
  {
    var t1 := tables + [skipped];
    var t2 := tables + [skipped, next];
    assert t1[..|t1| - 1] == tables;
    assert t2[..|t2| - 1] == t1;
    assert PhaseAfter(t1) == Strip(skipped.heading.value);
  }

  /**
   * The knockout path does not filter unparsed scores: a table whose score
   * cell is blank still yields a record, with null goals.
   */
  lemma BlankScoreKeepsRecord(table: KnockoutTable, phase: string, year: int)
    requires |table.cells| >= 5 && Strip(table.cells[2]) == []
    ensures KnockoutRecord(table, phase, year).Some?
    ensures KnockoutRecord(table, phase, year).value.goals.None?
  {
    assert MatchAt([], 0).None?;
  }

  /** Only the first five cells of the row are read, and the heading plays no part in the record. */
  lemma KnockoutFirstFive(h: Option<string>, h2: Option<string>, cells: seq<string>, phase: string, year: int)
    requires |cells| >= 5
    ensures KnockoutRecord(KnockoutTable(h, cells), phase, year) ==
            KnockoutRecord(KnockoutTable(h2, cells[..5]), phase, year)
  {
    var five := cells[..5];
    assert five[0] == cells[0] && five[1] == cells[1] && five[2] == cells[2];
    assert five[3] == cells[3] && five[4] == cells[4];
  }

  /** `split(",")[0]` of a venue with a comma is the text before it. */
  lemma BeforeFirstComma(p: string, q: string)
    requires NoChar(p, ',')
    ensures BeforeComma(p + "," + q) == p
  {
    var v := p + "," + q;
    var r := BeforeComma(v);
    assert v[|p|] == ',' && v[..|p|] == p;
    assert |r| == |p|;
  }

  /**
   * The row `12 Feb | River Plate | 2:1 | Peñarol | Estadio X, Montevideo`
   * gives River Plate against Peñarol, goals 2 and 1, at Estadio X.
   */
  lemma KnockoutExample(h: Option<string>, cells: seq<string>, phase: string, year: int)
    requires cells == ["12 Feb", "River Plate", "2:1", "Peñarol", "Estadio X, Montevideo"]
    ensures KnockoutRecord(KnockoutTable(h, cells), phase, year) ==
      Some(MatchRecord(year, phase, "12 Feb", "River Plate", "Peñarol", "2:1",
                       Some(ScorePair("2", "1")), Some("Estadio X")))
  {
    ExampleKnockoutCells(cells);
    ExampleKnockoutScore();
    KnockoutCellsRecord(h, cells, phase, year, "12 Feb", "River Plate", "2:1", "Peñarol", "Estadio X",
                        "2", [], ':', [], "1");
  }

  /** KnockoutRecord for a row whose cells are known in their stripped and cleaned form. */
  lemma KnockoutCellsRecord(h: Option<string>, cells: seq<string>, phase: string, year: int,
                            date: string, home: string, score: string, away: string, stadium: string,
                            a: string, w1: string, sep: char, w2: string, b: string)
    requires |cells| >= 5
    requires Strip(cells[0]) == date && Strip(cells[2]) == score
    requires CleanTeamName(Strip(cells[1])) == home && CleanTeamName(Strip(cells[3])) == away
    requires BeforeComma(Strip(cells[4])) == stadium
    requires score == a + w1 + [sep] + w2 + b
    requires a != [] && AllDigits(a) && b != [] && AllDigits(b)
    requires AllSpace(w1) && AllSpace(w2) && IsSeparator(sep)
    ensures KnockoutRecord(KnockoutTable(h, cells), phase, year) ==
      Some(MatchRecord(year, phase, date, home, away, score, Some(ScorePair(a, b)), Some(stadium)))
  {
    CleanScoreBare(a, w1, sep, w2, b);
  }

  /** The stripped and cleaned cells of the example row. */
  lemma ExampleKnockoutCells(cells: seq<string>)
    requires cells == ["12 Feb", "River Plate", "2:1", "Peñarol", "Estadio X, Montevideo"]
    ensures Strip(cells[0]) == "12 Feb" && Strip(cells[2]) == "2:1"
    ensures CleanTeamName(Strip(cells[1])) == "River Plate" && CleanTeamName(Strip(cells[3])) == "Peñarol"
    ensures BeforeComma(Strip(cells[4])) == "Estadio X"
  {
    ExamplePlainCells(cells[0], cells[2], cells[4]);
    ExampleNameCells(cells[1], cells[3]);
  }

  lemma ExamplePlainCells(date: string, score: string, venue: string)
    requires date == "12 Feb" && score == "2:1" && venue == "Estadio X, Montevideo"
    ensures Strip(date) == "12 Feb" && Strip(score) == "2:1" && BeforeComma(Strip(venue)) == "Estadio X"
  {
    TrimmedCell(date, "12 Feb");
    TrimmedCell(score, "2:1");
    VenueCell(venue);
  }

  lemma ExampleNameCells(home: string, away: string)
    requires home == "River Plate" && away == "Peñarol"
    ensures CleanTeamName(Strip(home)) == "River Plate" && CleanTeamName(Strip(away)) == "Peñarol"
  {
    ExampleNamesNoAlias();
    KeptNameCell(home, "River Plate");
    KeptNameCell(away, "Peñarol");
  }

  lemma ExampleNamesNoAlias()
    ensures "River Plate" !in Aliases && "Peñarol" !in Aliases
  {
  }

  /** The example score splits into its two digit runs around the colon. */
  lemma ExampleKnockoutScore()
    ensures "2:1" == "2" + [] + [':'] + [] + "1"
    ensures AllDigits("2") && AllDigits("1") && IsSeparator(':') && AllSpace([])
  {
  }

  lemma TrimmedCell(c: string, t: string)
    requires c == t && NoEdgeSpace(t)
    ensures Strip(c) == t
  {
    StripTrimmed(c);
  }

  /** A trimmed name that no alias renames is kept by the name cleaning. */
  lemma KeptNameCell(c: string, t: string)
    requires c == t && NoEdgeSpace(t) && t !in Aliases
    ensures CleanTeamName(Strip(c)) == t
  {
    StripTrimmed(c);
    NonAliasUnchanged(c);
  }

  lemma VenueCell(c: string)
    requires c == "Estadio X, Montevideo"
    ensures BeforeComma(Strip(c)) == "Estadio X"
  {
    StripTrimmed(c);
    assert c == "Estadio X" + "," + " Montevideo";
    BeforeFirstComma("Estadio X", " Montevideo");
  }
}
