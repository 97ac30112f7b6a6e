/**
 * The group-stage extractor `parse_group_stage_matches` (scripts/scraper.py):
 * a pass over the "Grupo …" headings and the tables located for them, and a
 * document-wide fallback over every table that runs only when the heading
 * pass found nothing. The `stadium` local survives from row to row, from
 * table to table and from the heading pass into the fallback; both passes
 * are specified as left folds over a `PassState` that carries it.
 */
module GroupStage {
  import opened Wrappers
  import opened Text
  import opened Score
  import opened Names
  import opened Records

  /** Phase label of every record the fallback emits. */
  const FallbackPhase: string := "Fase de Grupos"

  /** Characters `\w` matches among ASCII and Latin-1 (letters, digits, numerics and `_`). */
  predicate IsWordChar(c: char)
  {
    || 'a' <= c <= 'z' || 'A' <= c <= 'Z' || '0' <= c <= '9' || c == '_'
    || c == 'ª' || c == '²' || c == '³' || c == 'µ' || c == '¹' || c == 'º'
    || '¼' <= c <= '¾'
    || ('À' <= c <= 'ÿ' && c != '×' && c != '÷')
  }

  /** `\bGrupo\b`, case-insensitively, matches at position `i`. */
  predicate GrupoWordAt(s: string, i: nat)
  {
    && i + 5 <= |s|
    && AsciiLower(s[i..i + 5]) == "grupo"
    && (i == 0 || !IsWordChar(s[i - 1]))
    && (i + 5 == |s| || !IsWordChar(s[i + 5]))
  }

  /** `re.search(r"\bGrupo\b", text, re.IGNORECASE)` succeeds. */
  predicate IsGroupHeading(s: string)
  {
    exists i :: 0 <= i <= |s| - 5 && GrupoWordAt(s, i)
  }

  /** Some header cell's tidied, lower-cased text contains "fecha" or "local". */
  predicate IsHeaderRow(headers: seq<string>)
  {
    exists i :: 0 <= i < |headers| &&
      (Contains(AsciiLower(Tx(headers[i])), "fecha") || Contains(AsciiLower(Tx(headers[i])), "local"))
  }

  /** The fields a data row is read into, before team names are normalised. */
  datatype RowFields = RowFields(date: string, stadium: Option<string>, home: string, score: string, away: string)

  /** `tx(cols[1]) or None`: an empty stadium text becomes `None`. */
  function StadiumOf(text: string): (r: Option<string>)
    ensures r.None? <==> Tx(text) == []
    ensures r.Some? ==> r.value == Tx(text)
  {
    var t := Tx(text);
    if t == [] then None else Some(t)
  }

  /**
   * The heading pass's column layout: five or more cells are read as date,
   * stadium, home, score, away; four cells as date followed by home, score,
   * away, unless only the second cell holds a score, which makes it
   * date, score, home, away.
   */
  function GroupRowFields(cols: seq<string>): (f: RowFields)
    requires |cols| >= 4
    ensures f.date == Tx(cols[0])
    ensures |cols| >= 5 ==> f == RowFields(Tx(cols[0]), StadiumOf(cols[1]), Tx(cols[2]), Tx(cols[3]), Tx(cols[4]))
    ensures |cols| == 4 ==> f.stadium.None? && f.away == Tx(cols[3])
    ensures |cols| == 4 && !HasScore(Tx(cols[2])) && HasScore(Tx(cols[1])) ==>
      f.score == Tx(cols[1]) && f.home == Tx(cols[2])
    ensures |cols| == 4 && (HasScore(Tx(cols[2])) || !HasScore(Tx(cols[1]))) ==>
      f.home == Tx(cols[1]) && f.score == Tx(cols[2])
  {
    if |cols| >= 5 then
      RowFields(Tx(cols[0]), StadiumOf(cols[1]), Tx(cols[2]), Tx(cols[3]), Tx(cols[4]))
    else
      var second := Tx(cols[1]);
      var third := Tx(cols[2]);
      var fourth := Tx(cols[3]);
      if HasScore(third) then RowFields(Tx(cols[0]), None, second, third, fourth)
      else if HasScore(second) then RowFields(Tx(cols[0]), None, third, second, fourth)
      else RowFields(Tx(cols[0]), None, second, third, fourth)
  }

  /** Goals of a score text: `clean_score`, retried on the first score-shaped substring. */
  function GroupGoals(scoreRaw: string): (r: Option<ScorePair>)
    requires HasScore(scoreRaw)
    ensures r.Some? && r.value.home != [] && AllDigits(r.value.home)
    ensures r.value.away != [] && AllDigits(r.value.away)
    ensures CleanScoreText(scoreRaw).Some? ==> r == CleanScoreText(scoreRaw)
  {
    CleanScoreOfFirstMatch(scoreRaw);
    match CleanScoreText(scoreRaw)
    case Some(g) => Some(g)
    case None => CleanScoreText(FirstScoreText(scoreRaw))
  }

  /** The record a heading-pass row yields, if its score and team names are usable. */
  function GroupRecord(f: RowFields, phase: string, year: int): (r: Option<MatchRecord>)
    ensures r.Some? <==> HasScore(f.score) && CleanTeamName(f.home) != [] && CleanTeamName(f.away) != []
    ensures r.Some? ==> r.value.year == year && r.value.phase == phase && r.value.date == f.date
    ensures r.Some? ==> r.value.score == f.score && r.value.stadium == f.stadium
    ensures r.Some? ==> r.value.homeTeam == CleanTeamName(f.home) && r.value.awayTeam == CleanTeamName(f.away)
    ensures r.Some? ==> r.value.goals.Some? && AllDigits(r.value.goals.value.home) && AllDigits(r.value.goals.value.away)
  {
    if !HasScore(f.score) then None
    else
      var home := CleanTeamName(f.home);
      var away := CleanTeamName(f.away);
      var goals := GroupGoals(f.score);
      if goals.None? || home == [] || away == [] then None
      else Some(MatchRecord(year, phase, f.date, home, away, f.score, goals, f.stadium))
  }

  /** What the extractor carries: the records so far and the `stadium` local. */
  datatype PassState = PassState(records: seq<MatchRecord>, stadium: Option<string>)

  /** Nothing emitted yet and `stadium` never assigned (read as `None`). */
  const Start: PassState := PassState([], None)

  /** One row of a located group table. */
  function GroupRowStep(st: PassState, row: Row, phase: string, year: int): PassState
  {
    if IsHeaderRow(row.headers) || |row.cells| < 4 then st
    else
      var f := GroupRowFields(row.cells);
      match GroupRecord(f, phase, year)
      case None => PassState(st.records, f.stadium)
      case Some(r) => PassState(st.records + [r], f.stadium)
  }

  /** The rows of one located group table, in order. */
  function RowsPass(st: PassState, rows: seq<Row>, phase: string, year: int): PassState
  {
    if rows == [] then st
    else GroupRowStep(RowsPass(st, rows[..|rows| - 1], phase, year), rows[|rows| - 1], phase, year)
  }

  /** The headings in order; a "Grupo" heading with a located table contributes its rows. */
  function HeadingsPass(st: PassState, headings: seq<Heading>, year: int): PassState
  {
    if headings == [] then st
    else
      var before := HeadingsPass(st, headings[..|headings| - 1], year);
      var h := headings[|headings| - 1];
      var name := Tx(h.text);
      if IsGroupHeading(name) && h.located.Some? then RowsPass(before, h.located.value.rows, name, year)
      else before
  }

  /**
   * The fallback's column layout: five or more cells are read as date,
   * stadium, home, score, away; four cells as date, home, score, away, with
   * the stadium carried over. Team names are already normalised here.
   */
  function FallbackRowFields(cols: seq<string>, carried: Option<string>): (f: RowFields)
    requires |cols| >= 4
    ensures |cols| >= 5 ==> f.stadium == StadiumOf(cols[1]) && f.score == Tx(cols[3])
    ensures |cols| >= 5 ==>
      f.date == Tx(cols[0]) && f.home == CleanTeamName(Tx(cols[2])) && f.away == CleanTeamName(Tx(cols[4]))
    ensures |cols| == 4 ==> f.stadium == carried && f.score == Tx(cols[2])
    ensures |cols| == 4 ==>
      f.date == Tx(cols[0]) && f.home == CleanTeamName(Tx(cols[1])) && f.away == CleanTeamName(Tx(cols[3]))
  {
    if |cols| >= 5 then
      RowFields(Tx(cols[0]), StadiumOf(cols[1]), CleanTeamName(Tx(cols[2])), Tx(cols[3]), CleanTeamName(Tx(cols[4])))
    else
      RowFields(Tx(cols[0]), carried, CleanTeamName(Tx(cols[1])), Tx(cols[2]), CleanTeamName(Tx(cols[3])))
  }

  /** One row in the fallback: only rows whose score does not parse are dropped. */
  function FallbackRowStep(st: PassState, row: Row, year: int): PassState
  {
    if |row.cells| < 4 then st
    else
      var f := FallbackRowFields(row.cells, st.stadium);
      var goals := CleanScoreText(f.score);
      if goals.None? then PassState(st.records, f.stadium)
      else PassState(st.records + [MatchRecord(year, FallbackPhase, f.date, f.home, f.away, f.score, goals, f.stadium)], f.stadium)
  }

  /** The rows of one table in the fallback. */
  function FallbackRows(st: PassState, rows: seq<Row>, year: int): PassState
  {
    if rows == [] then st
    else FallbackRowStep(FallbackRows(st, rows[..|rows| - 1], year), rows[|rows| - 1], year)
  }

  /** Every table of the document whose text holds a score, in document order. */
  function FallbackTables(st: PassState, tables: seq<Table>, year: int): PassState
  {
    if tables == [] then st
    else
      var before := FallbackTables(st, tables[..|tables| - 1], year);
      var t := tables[|tables| - 1];
      if HasScore(t.text) then FallbackRows(before, t.rows, year) else before
  }

  /** The records `parse_group_stage_matches(doc, year)` returns. */
  function GroupStageMatches(doc: Document, year: int): seq<MatchRecord>
  {
    var h := HeadingsPass(Start, doc.headings, year);
    if h.records != [] then h.records
    else FallbackTables(PassState([], h.stadium), doc.tables, year).records
  }

  /** `parse_group_stage_matches(doc, year)`, from the table-locating step on. */
  method ParseGroupStageMatches(doc: Document, year: int) returns (matches: seq<MatchRecord>)
    ensures matches == GroupStageMatches(doc, year)
  {
    var stadium;
    matches, stadium := ParseHeadings(doc.headings, year);
    if matches == [] {
      matches, stadium := ParseFallback(matches, stadium, doc.tables, year);
    }
  }

  /** The heading pass: every "Grupo" heading with a located table contributes its rows. */
  method ParseHeadings(headings: seq<Heading>, year: int) returns (matches: seq<MatchRecord>, stadium: Option<string>)
    ensures PassState(matches, stadium) == HeadingsPass(Start, headings, year)
  {
    matches := [];
    stadium := None;
    for i := 0 to |headings|
      invariant PassState(matches, stadium) == HeadingsPass(Start, headings[..i], year)
    {
      assert headings[..i + 1][..i] == headings[..i];
      var span := headings[i];
      var groupName := Tx(span.text);
      if !IsGroupHeading(groupName) || span.located.None? {
        continue;
      }
      matches, stadium := ParseGroupTable(matches, stadium, span.located.value.rows, groupName, year);
    }
    assert headings[..|headings|] == headings;
  }

  /** The document-wide fallback over every table whose text holds a score. */
  method ParseFallback(matches0: seq<MatchRecord>, stadium0: Option<string>, tables: seq<Table>, year: int)
    returns (matches: seq<MatchRecord>, stadium: Option<string>)
    ensures PassState(matches, stadium) == FallbackTables(PassState(matches0, stadium0), tables, year)
  {
    matches, stadium := matches0, stadium0;
    for i := 0 to |tables|
      invariant PassState(matches, stadium) == FallbackTables(PassState(matches0, stadium0), tables[..i], year)
    {
      assert tables[..i + 1][..i] == tables[..i];
      var t := tables[i];
      if !HasScore(t.text) {
        continue;
      }
      matches, stadium := ParseFallbackTable(matches, stadium, t.rows, year);
    }
    assert tables[..|tables|] == tables;
  }

  /** The row loop over one located group table, with `stadium` carried in and out. */
  method ParseGroupTable(matches0: seq<MatchRecord>, stadium0: Option<string>, rows: seq<Row>, groupName: string, year: int)
    returns (matches: seq<MatchRecord>, stadium: Option<string>)
    ensures PassState(matches, stadium) == RowsPass(PassState(matches0, stadium0), rows, groupName, year)
  {
    matches, stadium := matches0, stadium0;
    for j := 0 to |rows|
      invariant PassState(matches, stadium) == RowsPass(PassState(matches0, stadium0), rows[..j], groupName, year)
    {
      assert rows[..j + 1][..j] == rows[..j];
      matches, stadium := ParseGroupRow(matches, stadium, rows[j], groupName, year);
    }
    assert rows[..|rows|] == rows;
  }

  /** One iteration of the heading pass's row loop. */
  method ParseGroupRow(matches0: seq<MatchRecord>, stadium0: Option<string>, row: Row, groupName: string, year: int)
    returns (matches: seq<MatchRecord>, stadium: Option<string>)
    ensures PassState(matches, stadium) == GroupRowStep(PassState(matches0, stadium0), row, groupName, year)
  {
    matches, stadium := matches0, stadium0;
    if IsHeaderRow(row.headers) {
      return;
    }
    var cols := row.cells;
    if |cols| < 4 {
      return;
    }
    var date := "";
    stadium := None;
    var homeTeam := "";
    var awayTeam := "";
    var scoreRaw := "";
    if |cols| >= 5 {
      date := Tx(cols[0]);
      stadium := StadiumOf(cols[1]);
      homeTeam := Tx(cols[2]);
      scoreRaw := Tx(cols[3]);
      awayTeam := Tx(cols[4]);
    } else if |cols| == 4 {
      date := Tx(cols[0]);
      var secondText := Tx(cols[1]);
      var thirdText := Tx(cols[2]);
      var fourthText := Tx(cols[3]);
      if HasScore(thirdText) {
        homeTeam, scoreRaw, awayTeam := secondText, thirdText, fourthText;
      } else if HasScore(secondText) {
        scoreRaw, homeTeam, awayTeam := secondText, thirdText, fourthText;
      } else {
        homeTeam, scoreRaw, awayTeam := secondText, thirdText, fourthText;
      }
    } else {
      assert false;
    }
    ghost var f := RowFields(date, stadium, homeTeam, scoreRaw, awayTeam);
    assert f == GroupRowFields(cols);
    ghost var outcome := GroupRecord(f, groupName, year);
    assert GroupRowStep(PassState(matches0, stadium0), row, groupName, year) ==
      if outcome.None? then PassState(matches0, stadium) else PassState(matches0 + [outcome.value], stadium);
    if scoreRaw == [] || !HasScore(scoreRaw) {
      assert outcome.None?;
      return;
    }
    homeTeam := CleanTeamName(homeTeam);
    awayTeam := CleanTeamName(awayTeam);
    var goals := CleanScoreText(scoreRaw);
    if goals.None? {
      var maybe := FirstScoreText(scoreRaw);
      goals := CleanScoreText(maybe);
      CleanScoreOfFirstMatch(scoreRaw);
      if goals.None? {
        // the retry on the first score-shaped substring cannot fail
        assert false;
      }
    }
    assert goals == GroupGoals(scoreRaw);
    if homeTeam == [] || awayTeam == [] {
      assert outcome.None?;
      return;
    }
    assert outcome == Some(MatchRecord(year, groupName, date, homeTeam, awayTeam, scoreRaw, goals, stadium));
    matches := matches + [MatchRecord(year, groupName, date, homeTeam, awayTeam, scoreRaw, goals, stadium)];
  }

  /** The fallback's row loop over one table, with `stadium` carried in and out. */
  method ParseFallbackTable(matches0: seq<MatchRecord>, stadium0: Option<string>, rows: seq<Row>, year: int)
    returns (matches: seq<MatchRecord>, stadium: Option<string>)
    ensures PassState(matches, stadium) == FallbackRows(PassState(matches0, stadium0), rows, year)
  {
    matches, stadium := matches0, stadium0;
    for j := 0 to |rows|
      invariant PassState(matches, stadium) == FallbackRows(PassState(matches0, stadium0), rows[..j], year)
    {
      assert rows[..j + 1][..j] == rows[..j];
      var cols := rows[j].cells;
      if |cols| < 4 {
        continue;
      }
      var date: string;
      var homeTeam: string;
      var scoreRaw: string;
      var awayTeam: string;
      if |cols| >= 5 {
        date := Tx(cols[0]);
        stadium := StadiumOf(cols[1]);
        homeTeam := CleanTeamName(Tx(cols[2]));
        scoreRaw := Tx(cols[3]);
        awayTeam := CleanTeamName(Tx(cols[4]));
      } else {
        date := Tx(cols[0]);
        homeTeam := CleanTeamName(Tx(cols[1]));
        scoreRaw := Tx(cols[2]);
        awayTeam := CleanTeamName(Tx(cols[3]));
      }
      var goals := CleanScoreText(scoreRaw);
      if goals.None? {
        continue;
      }
      matches := matches + [MatchRecord(year, FallbackPhase, date, homeTeam, awayTeam, scoreRaw, goals, stadium)];
    }
    assert rows[..|rows|] == rows;
  }

  /** A heading-pass row that yields a record: not a header row, four or more cells, a score and two non-empty names. */
  predicate RowAccepted(row: Row)
  {
    && !IsHeaderRow(row.headers)
    && |row.cells| >= 4
    && var f := GroupRowFields(row.cells);
       HasScore(f.score) && CleanTeamName(f.home) != [] && CleanTeamName(f.away) != []
  }

  /** What every heading-pass record satisfies. */
  predicate GroupRecordOk(r: MatchRecord, year: int)
  {
    && r.year == year
    && IsGroupHeading(r.phase)
    && HasScore(r.score)
    && r.goals.Some? && r.goals.value.home != [] && AllDigits(r.goals.value.home)
    && r.goals.value.away != [] && AllDigits(r.goals.value.away)
    && r.homeTeam != [] && r.awayTeam != []
  }

  /** What every fallback record satisfies; its team names may be empty. */
  predicate FallbackRecordOk(r: MatchRecord, year: int)
  {
    && r.year == year
    && r.phase == FallbackPhase
    && r.goals.Some? && r.goals.value.home != [] && AllDigits(r.goals.value.home)
    && r.goals.value.away != [] && AllDigits(r.goals.value.away)
  }

  /**
   * The retry never fails on a text holding a score: when `clean_score`
   * rejects it, the first score-shaped substring supplies the goals.
   */
  lemma GroupGoalsRetry(s: string)
    requires HasScore(s)
    ensures GroupGoals(s).Some?
    ensures CleanScoreText(s).None? ==>
      GroupGoals(s) == Some(ScorePair(Search(s).value.home, Search(s).value.away))
  {
    CleanScoreOfFirstMatch(s);
  }

  /**
   * A score written only inside parentheses is removed by `clean_score`, yet
   * the heading pass still takes its goals from the retry.
   */
  lemma ParenOnlyScoreAccepted(inner: string)
    requires NoChar(inner, ')') && NoChar(inner, '\n') && !Contains(inner, MwMarker)
    requires HasScore("(" + inner + ")")
    ensures CleanScoreText("(" + inner + ")").None?
    ensures GroupGoals("(" + inner + ")") ==
      Some(ScorePair(Search("(" + inner + ")").value.home, Search("(" + inner + ")").value.away))
  {
    CleanScoreOnlyInParens(inner);
    GroupGoalsRetry("(" + inner + ")");
  }

  /**
   * A row adds at most one record, and adds one exactly when it is accepted:
   * the goals check never rejects a row whose score text matched.
   */
  lemma GroupRowAppends(st: PassState, row: Row, phase: string, year: int)
    ensures var next := GroupRowStep(st, row, phase, year).records;
      next == st.records || (|next| == |st.records| + 1 && next[..|st.records|] == st.records)
    ensures |GroupRowStep(st, row, phase, year).records| == |st.records| + 1 <==> RowAccepted(row)
  {
    if !IsHeaderRow(row.headers) && |row.cells| >= 4 {
      var f := GroupRowFields(row.cells);
      assert GroupRecord(f, phase, year).Some? <==> RowAccepted(row);
    }
  }

  /** A row that passes the header and cell-count checks sets `stadium`, even when it yields no record. */
  lemma GroupRowSetsStadium(st: PassState, row: Row, phase: string, year: int)
    requires !IsHeaderRow(row.headers) && |row.cells| >= 4
    ensures GroupRowStep(st, row, phase, year).stadium ==
      (if |row.cells| >= 5 then StadiumOf(row.cells[1]) else None)
  {
  }

  /** A record built by the heading pass under a "Grupo" phase satisfies `GroupRecordOk`. */
  lemma GroupRecordIsOk(f: RowFields, phase: string, year: int)
    requires IsGroupHeading(phase) && GroupRecord(f, phase, year).Some?
    ensures GroupRecordOk(GroupRecord(f, phase, year).value, year)
  {
    var goals := GroupGoals(f.score);
    assert goals == CleanScoreText(f.score) || goals == CleanScoreText(FirstScoreText(f.score));
  }

  /** Appending a record that satisfies `GroupRecordOk` keeps it for all records. */
  lemma GroupAppendOk(records: seq<MatchRecord>, added: MatchRecord, year: int)
    requires forall r :: r in records ==> GroupRecordOk(r, year)
    requires GroupRecordOk(added, year)
    ensures forall r :: r in records + [added] ==> GroupRecordOk(r, year)
  {
  }

  /** One row keeps `GroupRecordOk` for all records. */
  lemma GroupRowStepOk(st: PassState, row: Row, phase: string, year: int)
    requires IsGroupHeading(phase)
    requires forall r :: r in st.records ==> GroupRecordOk(r, year)
    ensures forall r :: r in GroupRowStep(st, row, phase, year).records ==> GroupRecordOk(r, year)
  {
    if !IsHeaderRow(row.headers) && |row.cells| >= 4 {
      var f := GroupRowFields(row.cells);
      var outcome := GroupRecord(f, phase, year);
      if outcome.Some? {
        assert GroupRowStep(st, row, phase, year).records == st.records + [outcome.value];
        GroupRecordIsOk(f, phase, year);
        GroupAppendOk(st.records, outcome.value, year);
      } else {
        assert GroupRowStep(st, row, phase, year).records == st.records;
      }
    }
  }

  /** The rows of a "Grupo" table only add records that satisfy `GroupRecordOk`. */
  lemma {:induction false} RowsPassOk(st: PassState, rows: seq<Row>, phase: string, year: int)
    requires IsGroupHeading(phase)
    requires forall r :: r in st.records ==> GroupRecordOk(r, year)
    ensures forall r :: r in RowsPass(st, rows, phase, year).records ==> GroupRecordOk(r, year)
  {
    if rows != [] {
      RowsPassOk(st, rows[..|rows| - 1], phase, year);
      GroupRowStepOk(RowsPass(st, rows[..|rows| - 1], phase, year), rows[|rows| - 1], phase, year);
    }
  }

  /** Every heading-pass record has a score, goals, two team names and a "Grupo" phase. */
  lemma {:induction false} HeadingsPassOk(st: PassState, headings: seq<Heading>, year: int)
    requires forall r :: r in st.records ==> GroupRecordOk(r, year)
    ensures forall r :: r in HeadingsPass(st, headings, year).records ==> GroupRecordOk(r, year)
  {
    if headings != [] {
      var before := HeadingsPass(st, headings[..|headings| - 1], year);
      HeadingsPassOk(st, headings[..|headings| - 1], year);
      var h := headings[|headings| - 1];
      if IsGroupHeading(Tx(h.text)) && h.located.Some? {
        RowsPassOk(before, h.located.value.rows, Tx(h.text), year);
      }
    }
  }

  /** Appending a record that satisfies `FallbackRecordOk` keeps it for all records. */
  lemma FallbackAppendOk(records: seq<MatchRecord>, added: MatchRecord, year: int)
    requires forall r :: r in records ==> FallbackRecordOk(r, year)
    requires FallbackRecordOk(added, year)
    ensures forall r :: r in records + [added] ==> FallbackRecordOk(r, year)
  {
  }

  /** One fallback row keeps `FallbackRecordOk` for all records. */
  lemma FallbackRowStepOk(st: PassState, row: Row, year: int)
    requires forall r :: r in st.records ==> FallbackRecordOk(r, year)
    ensures forall r :: r in FallbackRowStep(st, row, year).records ==> FallbackRecordOk(r, year)
  {
    if |row.cells| >= 4 {
      var f := FallbackRowFields(row.cells, st.stadium);
      var goals := CleanScoreText(f.score);
      if goals.Some? {
        var added := MatchRecord(year, FallbackPhase, f.date, f.home, f.away, f.score, goals, f.stadium);
        assert FallbackRowStep(st, row, year).records == st.records + [added];
        FallbackAppendOk(st.records, added, year);
      }
    }
  }

  /** The fallback rows of one table only add records that satisfy `FallbackRecordOk`. */
  lemma {:induction false} FallbackRowsOk(st: PassState, rows: seq<Row>, year: int)
    requires forall r :: r in st.records ==> FallbackRecordOk(r, year)
    ensures forall r :: r in FallbackRows(st, rows, year).records ==> FallbackRecordOk(r, year)
  {
    if rows != [] {
      FallbackRowsOk(st, rows[..|rows| - 1], year);
      FallbackRowStepOk(FallbackRows(st, rows[..|rows| - 1], year), rows[|rows| - 1], year);
    }
  }

  /** Every fallback record is labelled "Fase de Grupos" and has goals. */
  lemma {:induction false} FallbackTablesOk(st: PassState, tables: seq<Table>, year: int)
    requires forall r :: r in st.records ==> FallbackRecordOk(r, year)
    ensures forall r :: r in FallbackTables(st, tables, year).records ==> FallbackRecordOk(r, year)
  {
    if tables != [] {
      var before := FallbackTables(st, tables[..|tables| - 1], year);
      FallbackTablesOk(st, tables[..|tables| - 1], year);
      if HasScore(tables[|tables| - 1].text) {
        FallbackRowsOk(before, tables[|tables| - 1].rows, year);
      }
    }
  }

  /**
   * The records come from one pass only: the heading pass whenever it found
   * any, otherwise the fallback.
   */
  lemma GroupStageSource(doc: Document, year: int)
    ensures var heading := HeadingsPass(Start, doc.headings, year).records;
      heading != [] ==> GroupStageMatches(doc, year) == heading
    ensures (forall r :: r in GroupStageMatches(doc, year) ==> GroupRecordOk(r, year))
         || (forall r :: r in GroupStageMatches(doc, year) ==> FallbackRecordOk(r, year))
  {
    var h := HeadingsPass(Start, doc.headings, year);
    HeadingsPassOk(Start, doc.headings, year);
    if h.records == [] {
      FallbackTablesOk(PassState([], h.stadium), doc.tables, year);
    }
  }

  /** A four-cell fallback row reuses whatever `stadium` held before it. */
  lemma FallbackFourCellStadium(st: PassState, row: Row, year: int)
    requires |row.cells| == 4 && CleanScoreText(Tx(row.cells[2])).Some?
    ensures FallbackRowStep(st, row, year).records == st.records + [MatchRecord(year, FallbackPhase,
      Tx(row.cells[0]), CleanTeamName(Tx(row.cells[1])), CleanTeamName(Tx(row.cells[3])),
      Tx(row.cells[2]), CleanScoreText(Tx(row.cells[2])), st.stadium)]
  {
  }

  /**
   * A fallback row of five or more cells whose score parses is read as date,
   * stadium, home, score, away, and its stadium cell replaces `stadium`.
   */
  lemma FallbackFiveCellRow(st: PassState, row: Row, year: int)
    requires |row.cells| >= 5 && CleanScoreText(Tx(row.cells[3])).Some?
    ensures FallbackRowStep(st, row, year) == PassState(st.records + [MatchRecord(year, FallbackPhase,
      Tx(row.cells[0]), CleanTeamName(Tx(row.cells[2])), CleanTeamName(Tx(row.cells[4])),
      Tx(row.cells[3]), CleanScoreText(Tx(row.cells[3])), StadiumOf(row.cells[1]))], StadiumOf(row.cells[1]))
  {
  }

  /** The fallback does not reject a row for an empty team name. */
  lemma FallbackKeepsBlankTeam(st: PassState, row: Row, year: int)
    requires |row.cells| == 4 && Tx(row.cells[1]) == [] && CleanScoreText(Tx(row.cells[2])).Some?
    ensures |FallbackRowStep(st, row, year).records| == |st.records| + 1
    ensures FallbackRowStep(st, row, year).records[|st.records|].homeTeam == []
  {
    CleanTeamNameEmpty([]);
  }

  /** A five-cell row whose score cell holds no score yields nothing but still sets `stadium`. */
  lemma RejectedRowSetsStadium(st: PassState, row: Row, phase: string, year: int)
    requires !IsHeaderRow(row.headers) && |row.cells| >= 5 && !HasScore(Tx(row.cells[3]))
    ensures GroupRowStep(st, row, phase, year) == PassState(st.records, StadiumOf(row.cells[1]))
  {
    var f := GroupRowFields(row.cells);
    assert f.score == Tx(row.cells[3]);
    assert GroupRecord(f, phase, year).None?;
  }

  /** A heading pass over one group heading whose table has one rejected row leaves only the stale stadium. */
  lemma HeadingPassLeavesStadium(heading: Heading, groupTable: Table, rejected: Row, year: int)
    requires heading.located == Some(groupTable) && groupTable.rows == [rejected] && IsGroupHeading(Tx(heading.text))
    requires !IsHeaderRow(rejected.headers) && |rejected.cells| >= 5 && !HasScore(Tx(rejected.cells[3]))
    ensures HeadingsPass(Start, [heading], year) == PassState([], StadiumOf(rejected.cells[1]))
  {
    var name := Tx(heading.text);
    assert [heading][..0] == [];
    assert HeadingsPass(Start, [heading], year) == RowsPass(Start, [rejected], name, year);
    assert [rejected][..0] == [];
    assert RowsPass(Start, [rejected], name, year) == GroupRowStep(Start, rejected, name, year);
    RejectedRowSetsStadium(Start, rejected, name, year);
  }

  /** A fallback over one scored table with one four-cell row emits that row with the carried stadium. */
  lemma FallbackSingleRow(st: PassState, table: Table, row: Row, year: int)
    requires st.records == []
    requires table.rows == [row] && HasScore(table.text)
    requires |row.cells| == 4 && CleanScoreText(Tx(row.cells[2])).Some?
    ensures var found := FallbackTables(st, [table], year).records;
      |found| == 1 && found[0].phase == FallbackPhase && found[0].stadium == st.stadium
  {
    assert [table][..0] == [];
    assert FallbackTables(st, [table], year) == FallbackRows(st, [row], year);
    assert [row][..0] == [];
    assert FallbackRows(st, [row], year) == FallbackRowStep(st, row, year);
    FallbackFourCellStadium(st, row, year);
  }

  /**
   * The stadium of a five-cell row rejected in the heading pass leaks into a
   * four-cell row of the fallback, through the same `stadium` local.
   */
  lemma StaleStadiumAcrossPasses(heading: Heading, groupTable: Table, rejected: Row, table: Table, row: Row, year: int)
    requires heading.located == Some(groupTable) && groupTable.rows == [rejected] && IsGroupHeading(Tx(heading.text))
    requires !IsHeaderRow(rejected.headers) && |rejected.cells| >= 5 && !HasScore(Tx(rejected.cells[3]))
    requires table.rows == [row] && HasScore(table.text)
    requires |row.cells| == 4 && CleanScoreText(Tx(row.cells[2])).Some?
    ensures var found := GroupStageMatches(Document([heading], [table], []), year);
      |found| == 1 && found[0].phase == FallbackPhase && found[0].stadium == StadiumOf(rejected.cells[1])
  {
    var stale := PassState([], StadiumOf(rejected.cells[1]));
    HeadingPassLeavesStadium(heading, groupTable, rejected, year);
    FallbackSingleRow(stale, table, row, year);
  }

  /** "Grupo A" is a group heading; "Fase de grupos" is not, since "grupos" goes on with a word character. */
  lemma GroupHeadingExamples()
    ensures IsGroupHeading("Grupo A")
    ensures !IsGroupHeading("Fase de grupos")
  {
    var s := "Grupo A";
    assert s[0..5] == "Grupo";
    assert GrupoWordAt(s, 0);
    var t := "Fase de grupos";
    forall i | 0 <= i <= |t| - 5 ensures !GrupoWordAt(t, i) {
      if i == 8 {
        assert IsWordChar(t[13]);
      } else {
        assert AsciiLower(t[i..i + 5])[0] == LowerChar(t[i]);
        assert AsciiLower(t[i..i + 5])[1] == LowerChar(t[i + 1]);
      }
    }
  }

  /**
   * "Grupo" written in any letter case, as a word of its own (nothing but a
   * non-word character or the text's edge on either side), makes a heading a
   * group heading wherever it stands.
   */
  lemma HeadingOfGrupoWord(p: string, w: string, q: string)
    requires |w| == 5 && AsciiLower(w) == "grupo"
    requires p == [] || !IsWordChar(p[|p| - 1])
    requires q == [] || !IsWordChar(q[0])
    ensures IsGroupHeading(p + w + q)
  {
    var s := p + w + q;
    assert s[|p|..|p| + 5] == w;
    assert GrupoWordAt(s, |p|);
  }

  /** The fallback's phase label never reads as a group heading. */
  lemma FallbackPhaseIsNotGroup()
    ensures !IsGroupHeading(FallbackPhase)
  {
    var t := FallbackPhase;
    forall i | 0 <= i <= |t| - 5 ensures !GrupoWordAt(t, i) {
      if i == 8 {
        assert IsWordChar(t[13]);
      } else {
        assert AsciiLower(t[i..i + 5])[0] == LowerChar(t[i]);
        assert AsciiLower(t[i..i + 5])[1] == LowerChar(t[i + 1]);
      }
    }
  }

  /**
   * An accepted row of five or more cells yields the record read from its
   * cells: tidied date and score text, cleaned team names, the two numbers of
   * the formatted score, and the stadium cell, which `stadium` then holds.
   */
  lemma GroupRowRecord(st: PassState, row: Row, phase: string, year: int,
                       a: string, w1: string, sep: char, w2: string, b: string)
    requires !IsHeaderRow(row.headers) && |row.cells| >= 5
    requires a != [] && AllDigits(a) && b != [] && AllDigits(b)
    requires AllSpace(w1) && AllSpace(w2) && IsSeparator(sep)
    requires Tx(row.cells[3]) == a + w1 + [sep] + w2 + b
    requires CleanTeamName(Tx(row.cells[2])) != [] && CleanTeamName(Tx(row.cells[4])) != []
    ensures GroupRowStep(st, row, phase, year) ==
      PassState(st.records + [MatchRecord(year, phase, Tx(row.cells[0]),
                                          CleanTeamName(Tx(row.cells[2])), CleanTeamName(Tx(row.cells[4])),
                                          Tx(row.cells[3]), Some(ScorePair(a, b)), StadiumOf(row.cells[1]))],
                StadiumOf(row.cells[1]))
  {
    var f := GroupRowFields(row.cells);
    assert f == RowFields(Tx(row.cells[0]), StadiumOf(row.cells[1]), Tx(row.cells[2]), Tx(row.cells[3]), Tx(row.cells[4]));
    GroupRecordOfFormatted(f, phase, year, a, w1, sep, w2, b);
  }

  /** The record of row fields whose score text is a formatted score and whose names survive cleaning. */
  lemma GroupRecordOfFormatted(f: RowFields, phase: string, year: int,
                               a: string, w1: string, sep: char, w2: string, b: string)
    requires a != [] && AllDigits(a) && b != [] && AllDigits(b)
    requires AllSpace(w1) && AllSpace(w2) && IsSeparator(sep)
    requires f.score == a + w1 + [sep] + w2 + b
    requires CleanTeamName(f.home) != [] && CleanTeamName(f.away) != []
    ensures GroupRecord(f, phase, year) ==
      Some(MatchRecord(year, phase, f.date, CleanTeamName(f.home), CleanTeamName(f.away),
                       f.score, Some(ScorePair(a, b)), f.stadium))
  {
    CleanScoreBare(a, w1, sep, w2, b);
  }

  /** A tidy text that is not an alias passes through `tx` and `clean_team_name` unchanged. */
  lemma TidyNonAlias(s: string)
    requires NoEdgeSpace(s) && SingleSpaced(s) && s !in Aliases
    ensures Tx(s) == s && CleanTeamName(Tx(s)) == s
  {
    TxTidy(s);
    StripPadded([], s, []);
    assert [] + s + [] == s;
    NonAliasUnchanged(s);
  }

  /**
   * The row `12 Feb | Estadio X | River Plate | 2:1 | Peñarol` yields River
   * Plate against Peñarol, goals 2 and 1, at Estadio X.
   */
  lemma GroupRowExample(st: PassState, cells: seq<string>, phase: string, year: int)
    requires cells == ["12 Feb", "Estadio X", "River Plate", "2:1", "Peñarol"]
    ensures GroupRowStep(st, Row([], cells), phase, year) ==
      PassState(st.records + [MatchRecord(year, phase, "12 Feb", "River Plate", "Peñarol", "2:1",
                                          Some(ScorePair("2", "1")), Some("Estadio X"))],
                Some("Estadio X"))
  {
    ExampleCells(cells);
    ExampleScoreParts();
    TidyRowRecord(st, cells, phase, year, "12 Feb", "Estadio X", "River Plate", "2:1", "Peñarol",
                  "2", [], ':', [], "1");
  }

  /** The tidied cells of the example row, one cell at a time. */
  lemma ExampleCells(cells: seq<string>)
    requires cells == ["12 Feb", "Estadio X", "River Plate", "2:1", "Peñarol"]
    ensures Tx(cells[0]) == "12 Feb" && Tx(cells[1]) == "Estadio X"
    ensures CleanTeamName(Tx(cells[2])) == "River Plate" && CleanTeamName(Tx(cells[4])) == "Peñarol"
    ensures Tx(cells[3]) == "2:1"
  {
    ExampleDateCells(cells[0], cells[1]);
    ExampleTeamCells(cells[2], cells[4]);
    ExampleScoreCell(cells[3]);
  }

  lemma ExampleDateCells(date: string, stadium: string)
    requires date == "12 Feb" && stadium == "Estadio X"
    ensures Tx(date) == "12 Feb" && Tx(stadium) == "Estadio X"
  {
    ExampleDateAndStadium();
  }

  lemma ExampleTeamCells(home: string, away: string)
    requires home == "River Plate" && away == "Peñarol"
    ensures CleanTeamName(Tx(home)) == "River Plate" && CleanTeamName(Tx(away)) == "Peñarol"
  {
    RiverPlateTidy();
    PenarolKept();
  }

  lemma ExampleScoreCell(score: string)
    requires score == "2:1"
    ensures Tx(score) == "2:1"
  {
    ExampleScore();
  }

  /** The example score splits into its two digit runs around the colon. */
  lemma ExampleScoreParts()
    ensures "2:1" == "2" + [] + [':'] + [] + "1"
    ensures AllDigits("2") && AllDigits("1") && IsSeparator(':') && AllSpace([])
  {
  }

  /** GroupRowRecord for a row without header cells whose cells are already known in tidied form. */
  lemma TidyRowRecord(st: PassState, cells: seq<string>, phase: string, year: int,
                      date: string, stadium: string, home: string, score: string, away: string,
                      a: string, w1: string, sep: char, w2: string, b: string)
    requires |cells| >= 5
    requires Tx(cells[0]) == date && Tx(cells[1]) == stadium && stadium != []
    requires CleanTeamName(Tx(cells[2])) == home && home != []
    requires CleanTeamName(Tx(cells[4])) == away && away != []
    requires Tx(cells[3]) == score && score == a + w1 + [sep] + w2 + b
    requires a != [] && AllDigits(a) && b != [] && AllDigits(b)
    requires AllSpace(w1) && AllSpace(w2) && IsSeparator(sep)
    ensures GroupRowStep(st, Row([], cells), phase, year) ==
      PassState(st.records + [MatchRecord(year, phase, date, home, away, score, Some(ScorePair(a, b)), Some(stadium))],
                Some(stadium))
  {
    GroupRowRecord(st, Row([], cells), phase, year, a, w1, sep, w2, b);
  }

  lemma ExampleDateAndStadium()
    ensures Tx("12 Feb") == "12 Feb" && Tx("Estadio X") == "Estadio X"
  {
    ExampleDateTidy();
    ExampleStadiumTidy();
  }

  lemma ExampleDateTidy()
    ensures Tx("12 Feb") == "12 Feb"
  {
    TxTwoWords("12", "Feb");
    assert "12" + " " + "Feb" == "12 Feb";
  }

  lemma ExampleStadiumTidy()
    ensures Tx("Estadio X") == "Estadio X"
  {
    TxTwoWords("Estadio", "X");
    assert "Estadio" + " " + "X" == "Estadio X";
  }

  lemma RiverPlateTidy()
    ensures Tx("River Plate") == "River Plate"
    ensures CleanTeamName(Tx("River Plate")) == "River Plate"
  {
    RiverPlateKept();
    TxTwoWords("River", "Plate");
    assert "River" + " " + "Plate" == "River Plate";
  }

  lemma RiverPlateKept()
    ensures CleanTeamName("River Plate") == "River Plate"
  {
    var n := "River Plate";
    assert n !in Aliases;
    StripPadded([], n, []);
    assert [] + n + [] == n;
    NonAliasUnchanged(n);
  }

  lemma PenarolKept()
    ensures CleanTeamName(Tx("Peñarol")) == "Peñarol"
  {
    PenarolNoAlias();
    OneWordKept("Peñarol");
  }

  lemma PenarolNoAlias()
    ensures "Peñarol" !in Aliases
  {
  }

  /** A single word that no alias renames comes out of `tx` and the name cleaning as it went in. */
  lemma OneWordKept(n: string)
    requires forall i :: 0 <= i < |n| ==> !IsSpace(n[i])
    requires n !in Aliases
    ensures CleanTeamName(Tx(n)) == n
  {
    TxNoSpace(n);
    StripPadded([], n, []);
    assert [] + n + [] == n;
    NonAliasUnchanged(n);
  }

  lemma ExampleScore()
    ensures Tx("2:1") == "2" + [] + [':'] + [] + "1"
  {
    TxBareScore("2", ':', "1");
    assert "2" + [':'] + "1" == "2:1" == "2" + [] + [':'] + [] + "1";
  }

  /** A score written without spaces is left alone by `tx`. */
  lemma TxBareScore(a: string, sep: char, b: string)
    requires AllDigits(a) && AllDigits(b) && IsSeparator(sep)
    ensures Tx(a + [sep] + b) == a + [sep] + b
  {
    var s := a + [sep] + b;
    forall i | 0 <= i < |s|
      ensures !IsSpace(s[i])
    {
      if i < |a| {
        assert s[i] == a[i];
      } else if i > |a| {
        assert s[i] == b[i - |a| - 1];
      }
    }
    TxNoSpace(s);
  }

  /** A row is a header row as soon as one tidy header cell mentions "fecha" or "local" in any letter case. */
  lemma HeaderRowByCell(headers: seq<string>, k: nat)
    requires k < |headers| && NoEdgeSpace(headers[k]) && SingleSpaced(headers[k])
    requires Contains(AsciiLower(headers[k]), "fecha") || Contains(AsciiLower(headers[k]), "local")
    ensures IsHeaderRow(headers)
  {
    TxTidy(headers[k]);
  }
}
