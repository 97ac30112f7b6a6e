# Soccer match scraper — a verified model of its extraction core

The scraper reads one Wikipedia page per tournament year (Copa Libertadores or
Copa Sudamericana, 2024 back to 2014). It turns the page's match tables into flat
match records. Each record holds the year, the phase, the date, the home and
away team, the raw score text, the home and away goals and the stadium. Two
post-processing scripts then use those records:

- one joins them against a city → {altitude, teams} mapping to compute an
  altitude difference per match;
- the other writes the sorted list of distinct team names.

This project models that core in Dafny and proves what it does:

- `text.dfy`: Python's `str.strip` (with the exact `str.isspace` character set),
  the `tx` whitespace tidier, ASCII lower-casing, substring search and decimal
  rendering.
- `score.dfy`: `clean_score`. Each regular expression it uses is written out as
  a scanner with the same leftmost, greedy and lazy matching.
- `names.dfy`: `clean_team_name` as a flat alias table.
- `records.dfy`: the match record, and the page as the extractors see it. A page
  is given as the texts the selector queries return: headline spans with the
  table located for each, all tables as rows of `th`/`td` texts, and the knockout
  tables.
- `knockout.dfy`: `parse_knockout_matches`, with the phase carried from table to
  table.
- `group_stage.dfy`: the row parser of `parse_group_stage_matches` and its
  document-wide fallback. The `stadium` local is carried across rows, tables and
  both passes.
- `driver.dfy`: the year loop of `run_scraper`.
- `altitude.dfy`: `build_reverse_team_map`, the join and the missing-team report
  of `process_data`.
- `unique_teams.dfy`: the set building, sorting and line writing of
  `generate_unique_teams`.

The loops of the source are methods with loop invariants. Most of them are proved
equal to a specification function written as a left fold over the prefix they
have visited; the others state their result directly. The properties are lemmas
about those functions.

Three behaviours of the code are worth knowing, and the model keeps them:

- Every fallback record is labelled "Fase de Grupos" (scripts/scraper.py:348),
  whatever group the table belonged to.
- The fallback reads a four-cell row in one fixed layout, date, home, score,
  away (scripts/scraper.py:338-342). It does not look for the score in the
  second cell as the heading pass does (scripts/scraper.py:261-270).
- The knockout extractor appends a record for every table with five cells
  (scripts/scraper.py:105-124). It does not drop a record whose goals are null
  or whose team names are empty.

## Model

| member | source | states |
|---|---|---|
| Text.Strip | scripts/scraper.py:37 | the result of `str.strip` has no leading or trailing whitespace and is no longer than the input |
| Text.StripPadded | scripts/scraper.py:47 | stripping whitespace padding off a trimmed text gives back exactly that text |
| Text.StripTrimmed | scripts/scraper.py:105-109 | text without edge whitespace is unchanged by `str.strip()` |
| Text.StripIdempotent | scripts/scraper.py:80 | stripping twice is stripping once (the second `strip` in `clean_team_name` changes nothing) |
| Text.CollapseSpace | scripts/scraper.py:148-149 | `re.sub(r"\s+", " ", s)` leaves only single plain spaces, is empty exactly when the input is, and keeps whether the ends are whitespace |
| Text.CollapseFixed | scripts/scraper.py:148-149 | a text that is already single-spaced is unchanged by the collapse |
| Text.Tx | scripts/scraper.py:148-149 | `tx` output is trimmed, has no whitespace but single spaces, and is no longer than the input |
| Text.CollapseJoin | scripts/scraper.py:148-149 | two texts joined by a whitespace run collapse separately, and the run becomes exactly one space |
| Text.TxJoin | scripts/scraper.py:148-149 | `tx` of two words separated by whitespace and padded with whitespace is the tidied words joined by one space |
| Text.TxNoSpace | scripts/scraper.py:148-149 | a text without whitespace comes out of `tx` unchanged |
| Text.TxTwoWords | scripts/scraper.py:148-149 | two whitespace-free words joined by one space come out of `tx` unchanged |
| Text.TxTidy | scripts/scraper.py:148-149 | text that is already tidy comes back from `tx` unchanged |
| Text.TxIdempotent | scripts/scraper.py:148-149 | tidying twice is tidying once |
| Text.ContainsLonger | scripts/scraper.py:67 | a string never contains a longer one |
| Text.NatToString | scripts/process_altitude.py:123 | the count in the report is a non-empty digit string denoting the number, without leading zeros |
| Score.MatchAt | scripts/scraper.py:39 | a match of `(\d+)\s*[:–-]\s*(\d+)` at a position is non-empty and has two non-empty digit groups |
| Score.SearchFrom | scripts/scraper.py:39 | the search finds the leftmost match: it matches where it starts, nothing earlier matches, and no result means no position matches |
| Score.Search | scripts/scraper.py:39 | `re.search` gives the leftmost match of the score pattern, or none when no position matches |
| Score.HasScore | scripts/scraper.py:142-146 | `score_re.search` succeeds exactly when the score pattern matches at some position; the four-cell layout test (line 261) and the row's score check (line 291) are the same search |
| Score.FirstScoreText | scripts/scraper.py:299-301 | `m.group(0)` of a successful search is non-empty |
| Score.LineLength | scripts/scraper.py:34 | the lazy `.*?(\n\|$)` stops at the first newline or at the end |
| Score.MwMatchLength | scripts/scraper.py:33-35 | a markup match starts with whitespace followed by the `.mw-parser-output` dot and stays within the text |
| Score.RemoveMarkup | scripts/scraper.py:33-35 | removing leaked markup never lengthens the text |
| Score.LineLengthExact | scripts/scraper.py:34 | the lazy `.*?(\n\|$)` spans exactly the rest of the line when no newline precedes its end |
| Score.MwMatchLine | scripts/scraper.py:33-35 | a leaked stylesheet line (whitespace, the marker, text without a newline) is matched up to and including its newline, or to the end of the text |
| Score.RemoveMarkupLine | scripts/scraper.py:33-35 | such a leaked line is deleted together with its newline, leaving the removal of what follows; at the end of the text it leaves nothing |
| Score.RemoveMarkupPrefix | scripts/scraper.py:33-35 | text without a dot in front of the rest passes through unchanged, when no whitespace run of it could start a match |
| Score.RemoveMarkupNoMarker | scripts/scraper.py:33-35 | text that does not contain `.mw-parser-output` passes through the markup removal unchanged |
| Score.GroupLength | scripts/scraper.py:36 | the lazy `.*?` of `\(.*?\)` stops at the first `)` and never crosses a newline |
| Score.ParenMatchLength | scripts/scraper.py:36 | an annotation match starts with `(` and stays within the text |
| Score.RemoveParens | scripts/scraper.py:36 | removing parenthesised annotations never lengthens the text |
| Score.CleanScoreText | scripts/scraper.py:33-42 | `clean_score` returns goals exactly when the cleaned text holds a score pattern, and then both are non-empty digit strings |
| Score.CleanScore | scripts/scraper.py:26-42 | `None` input gives `(None, None)`; any goals are non-empty digit strings |
| Score.RemoveMarkupNoDot | scripts/scraper.py:33-35 | a text without a dot holds no markup and passes through unchanged |
| Score.RemoveParensPrefix | scripts/scraper.py:36 | text before the first `(` passes through the annotation removal unchanged |
| Score.RemoveParensGroup | scripts/scraper.py:36 | a parenthesised annotation closed on its line is removed entirely |
| Score.MatchAtWhole | scripts/scraper.py:39 | digits, spaces, a separator, spaces, digits spanning a text match as a whole with the two digit runs as groups |
| Score.MatchFormatted | scripts/scraper.py:39 | a formatted score `a ws sep ws b` matches at its start with groups `a` and `b` |
| Score.CleanedFormatted | scripts/scraper.py:33-37 | cleaning a bare score followed by padding and an annotation on one line that does not contain `.mw-parser-output` leaves exactly the bare score |
| Score.CleanScoreFormatted | scripts/scraper.py:26-42 | round trip: any score `a sep b`, with optional spaces and a trailing one-line annotation that does not contain `.mw-parser-output`, parses back to `(a, b)` |
| Score.CleanScoreBare | scripts/scraper.py:26-42 | a bare score `a sep b` with optional spaces holds a score and parses back to `(a, b)` |
| Score.CleanScoreWithMarkup | scripts/scraper.py:26-42 | a score followed by a leaked stylesheet line, ending in a newline or at the end of the text, parses back to `(a, b)`: the markup is removed before the search |
| Score.CleanScorePenaltyExample | scripts/scraper.py:26-42 | `"1:1 (4:3)"` gives `("1", "1")` |
| Score.CleanScoreOnlyInParens | scripts/scraper.py:33-42 | a score written only inside one-line parentheses that do not contain `.mw-parser-output` is removed with them, so `clean_score` fails |
| Score.CleanScoreOfFirstMatch | scripts/scraper.py:297-304 | `clean_score` on the first score-shaped substring always succeeds, with that match's two groups |
| Score.MatchedTextParses | scripts/scraper.py:299-302 | the text of any score match parses back with `clean_score` to that match's two digit groups |
| Names.CleanTeamName | scripts/scraper.py:45-80 | the normalised name has no leading or trailing whitespace |
| Names.NacionalRuleNeverFires | scripts/scraper.py:67-68 | the "Nacional" rule's condition can never hold |
| Names.AliasesTrimmed | scripts/scraper.py:47-78 | every alias is trimmed and non-empty, so only a stripped name can match it |
| Names.AliasTargetsTrimmed | scripts/scraper.py:49-78 | every canonical name is trimmed and non-empty |
| Names.AliasTargetsCanonical | scripts/scraper.py:49-78 | every canonical name that is itself an alias maps to itself |
| Names.AliasMapped | scripts/scraper.py:47-78 | each listed alias, with any surrounding whitespace, maps to its canonical name |
| Names.NonAliasUnchanged | scripts/scraper.py:47-80 | a name that is not an alias comes back trimmed and otherwise unchanged |
| Names.NacionalUnchanged | scripts/scraper.py:67-80 | "Nacional" is left as it is |
| Names.CleanTeamNameIdempotent | scripts/scraper.py:45-80 | normalising twice is normalising once |
| Names.CleanTeamNameEmpty | scripts/scraper.py:45-80 | the normalised name is empty exactly when the trimmed input is |
| Knockout.BeforeComma | scripts/scraper.py:109 | `split(",")[0]` is the longest comma-free prefix: a prefix with no comma, followed by a comma or the end |
| Knockout.BeforeFirstComma | scripts/scraper.py:109 | a venue with a comma is cut to exactly the comma-free text before its first comma |
| Knockout.NextPhase | scripts/scraper.py:95-99 | a missing or empty heading keeps the current phase; a heading with text replaces it by a text without edge whitespace and no longer than the heading |
| Knockout.KnockoutRecord | scripts/scraper.py:101-124 | a table yields a record exactly when it has at least five cells; the record reads cell 0 as the stripped date, cells 1 and 3 as the cleaned home and away teams, cell 2 as the stripped score with the goals `clean_score` gives for it, and cell 4, cut at its first comma, as the stadium; it carries the call's year and the current phase |
| Knockout.KnockoutFirstFive | scripts/scraper.py:101-109 | only the first five cells are read: cutting the row to them, or changing the heading, gives the same record |
| Knockout.KnockoutExample | scripts/scraper.py:101-124 | the row `12 Feb`, `River Plate`, `2:1`, `Peñarol`, `Estadio X, Montevideo` gives River Plate against Peñarol, goals 2 and 1, at Estadio X |
| Knockout.ParseKnockoutMatches | scripts/scraper.py:83-128 | the loop returns the knockout specification's records: one per table with at least five cells, each with the call's year and a comma-free stadium |
| Knockout.KnockoutCount | scripts/scraper.py:101-124 | exactly one record per table with at least five cells, so never more records than tables |
| Knockout.KnockoutRecordShape | scripts/scraper.py:109-122 | every record carries the call's year and a stadium without a comma |
| Knockout.PhaseDefault | scripts/scraper.py:91-99 | the phase stays "Fase Final" until a heading with text is seen |
| Knockout.PhaseFromLastHeading | scripts/scraper.py:95-99 | the phase is the stripped text of the last non-empty heading seen |
| Knockout.SkippedTableSetsPhase | scripts/scraper.py:95-103 | a table skipped for having fewer than five cells adds no record but still sets the phase of later records |
| Knockout.BlankScoreKeepsRecord | scripts/scraper.py:105-124 | a blank score cell still gives a record, with null goals |
| GroupStage.StadiumOf | scripts/scraper.py:251 | `tx(cell) or None` is `None` exactly when the tidied text is empty, otherwise that text |
| GroupStage.GroupRowFields | scripts/scraper.py:249-275 | five or more cells are read as date, stadium, home, score, away; four cells as date, home, score, away unless only the second cell holds a score, which swaps home and score; four-cell rows have no stadium |
| GroupStage.ParseGroupStageMatches | scripts/scraper.py:151-359 | the function returns the heading-pass records, or the fallback records when there are none |
| GroupStage.ParseHeadings | scripts/scraper.py:157-320 | the loop over the group headings is the heading pass's fold, starting with no records and `stadium` unset |
| GroupStage.ParseFallback | scripts/scraper.py:322-357 | the loop over the document's tables visits only tables holding a score and is the fallback's fold, `stadium` carried in |
| GroupStage.ParseGroupTable | scripts/scraper.py:231-320 | the row loop over a located table is the heading pass's fold over its rows, with `stadium` carried in and out |
| GroupStage.ParseGroupRow | scripts/scraper.py:232-320 | one row iteration: header skip, cell-count skip, layout, score check, retry, name check, append |
| GroupStage.ParseFallbackTable | scripts/scraper.py:326-357 | the fallback's row loop over one table, with `stadium` carried in and out |
| GroupStage.FallbackRowFields | scripts/scraper.py:332-342 | five or more cells are read as date (cell 0), stadium (cell 1), cleaned home (cell 2), score (cell 3) and cleaned away (cell 4); four cells as date, cleaned home, score and cleaned away, keeping the carried stadium |
| GroupStage.GroupGoals | scripts/scraper.py:297-304 | for a text holding a score the goals are always found, as non-empty digit strings, and are `clean_score`'s own whenever that succeeds |
| GroupStage.GroupRecord | scripts/scraper.py:291-320 | a record is built exactly when the score text holds a score and both cleaned team names are non-empty; it carries the year, the heading as phase, the date, the cleaned names, the score text, digit goals and the stadium |
| GroupStage.GroupRowRecord | scripts/scraper.py:249-320 | a row of five or more cells is read as date, stadium, home, score, away; when its tidied score is `a sep b` and its cleaned names are non-empty, the row appends exactly the record with those tidied fields and goals `(a, b)`, and sets `stadium` |
| GroupStage.GroupRowExample | scripts/scraper.py:249-320 | the row `12 Feb`, `Estadio X`, `River Plate`, `2:1`, `Peñarol` appends River Plate against Peñarol, goals 2 and 1, at Estadio X |
| GroupStage.GroupGoalsRetry | scripts/scraper.py:297-304 | for a text holding a score the retry never fails; when `clean_score` fails the goals are the first match's groups |
| GroupStage.ParenOnlyScoreAccepted | scripts/scraper.py:297-304 | a score found only inside one-line parentheses that do not contain `.mw-parser-output` fails `clean_score` but is accepted through the retry |
| GroupStage.GroupRowAppends | scripts/scraper.py:232-320 | a row adds at most one record, and adds one exactly when it is not a header row, has four or more cells, holds a score and has two non-empty team names |
| GroupStage.GroupRowSetsStadium | scripts/scraper.py:243-275 | every row that passes the header and cell-count checks sets `stadium`, whether or not it yields a record |
| GroupStage.GroupRecordIsOk | scripts/scraper.py:291-320 | a heading-pass record has a score, digit goals, two non-empty names and a "Grupo" phase |
| GroupStage.GroupRowStepOk | scripts/scraper.py:231-320 | one row keeps that property for all records |
| GroupStage.RowsPassOk | scripts/scraper.py:231-320 | the rows of a "Grupo" table only add records with that property |
| GroupStage.HeadingsPassOk | scripts/scraper.py:151-320 | every heading-pass record has a score, goals, two team names and a phase containing the word "Grupo" |
| GroupStage.FallbackRowStepOk | scripts/scraper.py:326-357 | one fallback row only adds a record labelled "Fase de Grupos" with goals |
| GroupStage.FallbackRowsOk | scripts/scraper.py:326-357 | the rows of one table keep that property |
| GroupStage.FallbackTablesOk | scripts/scraper.py:322-357 | every fallback record is labelled "Fase de Grupos", has the call's year and has goals |
| GroupStage.GroupStageSource | scripts/scraper.py:322 | the fallback runs only when the heading pass found nothing, so the records all come from one pass |
| GroupStage.FallbackFourCellStadium | scripts/scraper.py:336-355 | a four-cell fallback row is read as date, home, score, away and reuses whatever `stadium` held |
| GroupStage.FallbackFiveCellRow | scripts/scraper.py:331-357 | a fallback row of five or more cells whose score parses appends the record read as date, stadium, home, score, away, and its stadium cell replaces `stadium` |
| GroupStage.FallbackKeepsBlankTeam | scripts/scraper.py:336-345 | the fallback keeps a row whose home team is empty |
| GroupStage.RejectedRowSetsStadium | scripts/scraper.py:249-292 | a five-cell row whose score cell has no score yields nothing but still sets `stadium` |
| GroupStage.StaleStadiumAcrossPasses | scripts/scraper.py:244-355 | the stadium of a row rejected in the heading pass ends up on a four-cell fallback record |
| GroupStage.HeadingPassLeavesStadium | scripts/scraper.py:231-292 | a heading pass whose only row is rejected yields no records but leaves that row's stadium behind |
| GroupStage.FallbackSingleRow | scripts/scraper.py:322-357 | a fallback over one scored table with one four-cell row emits exactly one record, with the carried stadium |
| GroupStage.IsGroupHeading | scripts/scraper.py:155 | `re.search(r"\bGrupo\b", text, re.IGNORECASE)`: "Grupo" in any letter case with no word character on either side |
| GroupStage.HeadingOfGrupoWord | scripts/scraper.py:155 | "Grupo" in any letter case, as a word of its own, makes a heading a group heading wherever it stands |
| GroupStage.GroupHeadingExamples | scripts/scraper.py:155 | "Grupo A" is a group heading; "Fase de grupos" is not, because `\b` needs a non-word character after "Grupo" |
| GroupStage.FallbackPhaseIsNotGroup | scripts/scraper.py:348 | the fallback's label never reads as a group heading, so fallback and heading-pass records can be told apart |
| GroupStage.IsHeaderRow | scripts/scraper.py:232-237 | a row is a header row when one of its header cells, tidied and lower-cased, contains "fecha" or "local" |
| GroupStage.HeaderRowByCell | scripts/scraper.py:232-237 | one tidy header cell mentioning "fecha" or "local" in any letter case makes the row a header row |
| Driver.DescendingRange | scripts/scraper.py:368 | `range(start, stop, -1)` has `start - stop` elements, the i-th being `start - i` |
| Driver.ScrapeYear | scripts/scraper.py:375-386 | one iteration adds nothing for a failed fetch, otherwise the page's group records then its knockout records |
| Driver.ScrapeYears | scripts/scraper.py:371-386 | the loop over the years is the fold of those iterations |
| Driver.RunScraper | scripts/scraper.py:364-386 | the loop's aggregate is the fold over the years 2024 to 2014, each fetched year adding its group records and then its knockout records |
| Driver.YearMatchesYear | scripts/scraper.py:309-320 | every record a page yields carries that page's year |
| Driver.AggregateOrdered | scripts/scraper.py:371-386 | over strictly decreasing years the aggregate only holds visited and fetched years, in non-increasing year order |
| Driver.AggregateOfYear | scripts/scraper.py:371-386 | the records of one year are exactly that page's group records followed by its knockout records, or nothing when its fetch failed |
| Driver.RunScraperResult | scripts/scraper.py:368-386 | all records are from 2014-2024 and from fetched years, newest first, and each year holds exactly its own page's records |
| Altitude.Problem | scripts/process_altitude.py:29-37 | a malformed city adds one message naming that city |
| Altitude.Register | scripts/process_altitude.py:32-33 | registering a city's teams adds exactly those teams, maps each to the city's location and leaves other entries alone |
| Altitude.BuildReverseTeamMap | scripts/process_altitude.py:20-46 | the loop builds the inversion specification's lookup and malformed-city list |
| Altitude.InvertDomain | scripts/process_altitude.py:25-33 | a team is in the lookup exactly when some well-formed city lists it |
| Altitude.InvertLastWins | scripts/process_altitude.py:25-33 | a team listed by several cities maps to the city and altitude of the last well-formed one |
| Altitude.InvertMalformed | scripts/process_altitude.py:26-37 | one message per malformed city, each naming a malformed city |
| Altitude.ProcessMatches | scripts/process_altitude.py:73-115 | the join loop yields the join specification's rows and missing-team set |
| Altitude.JoinRowsOrigin | scripts/process_altitude.py:76-115 | the rows are the joinable matches (both names non-empty, both in the lookup), each exactly once and in input order; never more rows than matches |
| Altitude.JoinRowsValues | scripts/process_altitude.py:92-109 | each row copies its cities and altitudes from the lookup, and its altitude difference is home minus away |
| Altitude.MissingTeamsExact | scripts/process_altitude.py:76-90 | a team is missing exactly when it is unmapped and named in a match whose two names are non-empty |
| Altitude.MissingNeverJoined | scripts/process_altitude.py:82-90 | missing teams are never in the lookup and never appear in a row |
| Altitude.ListOf | scripts/process_altitude.py:121 | `list(missing_teams)` lists each element exactly once |
| Altitude.ReportMissing | scripts/process_altitude.py:117-125 | the warning is the header, then the first ten names of the listing, then a count of the rest |
| Altitude.ReportLinesShape | scripts/process_altitude.py:117-125 | the warning is empty exactly when nothing is missing, lists at most ten names and ends with "... and N-10 more." when there are more |
| Altitude.ProcessData | scripts/process_altitude.py:63-131 | nothing is processed for an empty mapping; otherwise the rows are the join against the inverted mapping, with no output when none survive, and the warning is exactly the report of some listing of the missing teams: empty exactly when none is missing |
| UniqueTeams.BelowIrreflexive | scripts/generate_teams.py:32 | no string sorts before itself |
| UniqueTeams.BelowTransitive | scripts/generate_teams.py:32 | string order is transitive |
| UniqueTeams.BelowTotal | scripts/generate_teams.py:32 | any two strings are equal or ordered one way |
| UniqueTeams.BelowAsymmetric | scripts/generate_teams.py:32 | two strings are never ordered both ways |
| UniqueTeams.TeamNamesExact | scripts/generate_teams.py:21-26 | a name is collected exactly when some match has it, after stripping, as a non-empty home or away name |
| UniqueTeams.BlankNameCollected | scripts/generate_teams.py:23-24 | a whitespace-only team name is truthy and contributes the empty name |
| UniqueTeams.SortedUnique | scripts/generate_teams.py:32 | a strictly increasing list of given names is unique, so the sorted output is fully determined |
| UniqueTeams.SortNames | scripts/generate_teams.py:32 | `sorted(list(team_names))` is strictly increasing and holds exactly the set's names |
| UniqueTeams.GenerateUniqueTeams | scripts/generate_teams.py:21-37 | no output exactly when no name was collected; otherwise one line per name, in strictly increasing order |
| UniqueTeams.TeamLines | scripts/generate_teams.py:36-37 | one line per team, in order, each the name and a newline |
| UniqueTeams.OutputLinesUnique | scripts/generate_teams.py:32-37 | no line is written twice |

## Left out

- Fetching pages (`fetch_html_tree`, scripts/scraper.py:9-23) is HTTP and is not modelled. The fetched pages are a map from year to document, and a missing year stands for a failed fetch.
- The PyQuery selector queries and tree walks are not modelled. This covers the knockout table selector and `prev_all` (scripts/scraper.py:89-101), the headline selector (scripts/scraper.py:151-153), `find("tr")`/`find("td")`, and the sibling walks with their wrapper and collapsible checks (scripts/scraper.py:160-229). The table located for a heading, and the nearest heading of a knockout table, are inputs.
- `.text()` is not modelled: cell texts are given as produced by PyQuery.
- Text.IsDigit: `\d` is ASCII digits only. Python's `\d` also accepts other Unicode decimal digits.
- GroupStage.IsWordChar: the `\b` of `\bGrupo\b` treats ASCII letters and digits, `_` and the Latin-1 letters and numerics as word characters. Every other non-ASCII character is treated as a non-word character.
- GroupStage.IsHeaderRow uses ASCII lower-casing where the source uses `str.lower()`. No non-ASCII character lower-cases to a letter of "fecha" or "local", so the test gives the same answer.
- The dead locals `score_clean` and `score_parts` (scripts/scraper.py:30-31) are not modelled.
- The generic column branch (scripts/scraper.py:276-289) cannot be reached: after the `< 4` check a row has four or five-plus cells. ParseGroupRow marks that branch with `assert false`.
- The `except` handlers of the extractors (scripts/scraper.py:125-127, 357-358) are left out. On the modelled inputs no exception can be raised.
- The sibling walk can raise an uncaught `TypeError`, and that is not modelled. At scripts/scraper.py:172, `"wikitable-wrapper" in sib.attr("class")` fails on a sibling without a `class` attribute. No handler in `parse_group_stage_matches` or in `run_scraper` (scripts/scraper.py:371-386) catches it. The whole run then aborts and no output is written. The model takes the located table as an input, so every modelled run finishes.
- Altitudes are integers; the source accepts any JSON number, including floats. An `"altitude": null` would make the subtraction raise; that crash is not modelled.
- Altitude.Problem: the text of the `except Exception` message is not modelled; an unindexable city value is reported as `Unreadable`.
- The unhashable-team corner of `build_reverse_team_map` is not modelled. A list or object inside `teams` raises part-way through a city (scripts/process_altitude.py:36-37).
- The city mapping is a sequence of entries in the mapping's order. Merging of duplicate JSON keys is not modelled.
- Reading and writing JSON, CSV and text files, creating directories, printing, and the command-line handling of the three scripts are not modelled. Warnings and output lines are returned as values.
- Altitude.ReportMissing: the order of `list(missing_teams)` is Python's set iteration order, which is unspecified. The model picks some order and returns it with the lines.
- UniqueTeams.GenerateUniqueTeams states the output through the existence of a strictly increasing listing of the names. SortedUnique shows that there is only one such listing.
- Names.NacionalRuleNeverFires: the "Nacional" rule at scripts/scraper.py:67 looks as if it was meant to map "Nacional" to "Atlético Nacional". The model keeps the code's behaviour, in which "Nacional" is left unchanged.
