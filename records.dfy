/**
 * The extracted match record and the abstract view of a parsed page that the
 * extractors read. Selector queries and sibling walks over the HTML tree are
 * not modelled; a page is given as the texts those queries return.
 */
module Records {
  import opened Wrappers
  import opened Score

  /**
   * One match, with the keys of the emitted dictionary: `year`, `phase`,
   * `date`, `home_team`, `away_team`, `score` (the raw text), the goals
   * (`home_goals`/`away_goals`, both `None` or both digit strings) and
   * `stadium`.
   */
  datatype MatchRecord = MatchRecord(
    year: int,
    phase: string,
    date: string,
    homeTeam: string,
    awayTeam: string,
    score: string,
    goals: Option<ScorePair>,
    stadium: Option<string>)

  /** A table row: the texts of its `th` cells and of its `td` cells, in order. */
  datatype Row = Row(headers: seq<string>, cells: seq<string>)

  /** A table: its whole text (`table.text()`) and its rows (`find("tr")`). */
  datatype Table = Table(text: string, rows: seq<Row>)

  /** A headline span of an `h2`, `h3` or `h4`, with the table the locating heuristics found for it. */
  datatype Heading = Heading(text: string, located: Option<Table>)

  /**
   * A single-match knockout table: the headline text of the nearest
   * preceding `h2`/`h3` (`None` when there is no such heading) and the `td`
   * texts of its first row.
   */
  datatype KnockoutTable = KnockoutTable(heading: Option<string>, cells: seq<string>)

  /**
   * One tournament-year page: its headline spans in document order, every
   * `table` element in document order, and the knockout match tables.
   */
  datatype Document = Document(headings: seq<Heading>, tables: seq<Table>, knockouts: seq<KnockoutTable>)
}
