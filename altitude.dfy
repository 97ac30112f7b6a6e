/**
 * The altitude enrichment of scripts/process_altitude.py: inverting the
 * city mapping into a team lookup (`build_reverse_team_map`) and joining the
 * scraped matches against it (`process_data`). Reading and writing files,
 * JSON and CSV handling and printing are not modelled; the printed warning
 * about missing teams is returned as lines.
 */
module Altitude {
  import opened Wrappers
  import opened Text
  import opened Score
  import opened Records

  /** The value under a city's "teams" key: a list of team names, or anything else. */
  datatype TeamsField = TeamList(names: seq<string>) | NotAList

  /**
   * The value a city maps to: an object, whose "altitude" and "teams" keys
   * may be absent, or some other JSON value (which cannot be indexed by key).
   */
  datatype CityData = CityObject(altitude: Option<int>, teams: Option<TeamsField>) | NotAnObject

  /** One `(city, data)` item of the mapping, in the mapping's order. */
  datatype CityEntry = CityEntry(city: string, data: CityData)

  /** A lookup value `{"city": …, "altitude": …}`. */
  datatype Location = Location(city: string, altitude: int)

  /** Why a city was reported as malformed. */
  datatype Malformation = TeamsNotList(city: string) | MissingKeys(city: string) | Unreadable(city: string)

  /** The city has both keys and its "teams" value is a list. */
  predicate WellFormed(d: CityData)
  {
    d.CityObject? && d.altitude.Some? && d.teams.Some? && d.teams.value.TeamList?
  }

  /** The city is well formed and lists the team. */
  predicate Lists(e: CityEntry, team: string)
  {
    WellFormed(e.data) && team in e.data.teams.value.names
  }

  /** The message a malformed city adds to `malformed_cities`. */
  function Problem(e: CityEntry): (m: Malformation)
    requires !WellFormed(e.data)
    ensures m.city == e.city
  {
    match e.data
    case NotAnObject => Unreadable(e.city)
    case CityObject(altitude, teams) =>
      if altitude.None? || teams.None? then MissingKeys(e.city) else TeamsNotList(e.city)
  }

  /** `team_lookup[team] = loc` for each team in turn. */
  function Register(lookup: map<string, Location>, teams: seq<string>, loc: Location): (r: map<string, Location>)
    ensures forall t :: t in r <==> t in lookup || t in teams
    ensures forall t :: t in teams ==> r[t] == loc
    ensures forall t :: t in lookup && t !in teams ==> r[t] == lookup[t]
  {
    if teams == [] then lookup
    else Register(lookup, teams[..|teams| - 1], loc)[teams[|teams| - 1] := loc]
  }

  /** The lookup and the malformed-city list `build_reverse_team_map` builds. */
  datatype Inversion = Inversion(lookup: map<string, Location>, malformed: seq<Malformation>)

  /** The inversion after visiting the given cities in order. */
  function Invert(cities: seq<CityEntry>): Inversion
  {
    if cities == [] then Inversion(map[], [])
    else
      var before := Invert(cities[..|cities| - 1]);
      var e := cities[|cities| - 1];
      if WellFormed(e.data) then
        Inversion(Register(before.lookup, e.data.teams.value.names, Location(e.city, e.data.altitude.value)), before.malformed)
      else
        Inversion(before.lookup, before.malformed + [Problem(e)])
  }

  /** `build_reverse_team_map(city_mappings)`, also returning `malformed_cities`. */
  method BuildReverseTeamMap(cities: seq<CityEntry>) returns (teamLookup: map<string, Location>, malformedCities: seq<Malformation>)
    ensures Inversion(teamLookup, malformedCities) == Invert(cities)
  {
    teamLookup := map[];
    malformedCities := [];
    for i := 0 to |cities|
      invariant Inversion(teamLookup, malformedCities) == Invert(cities[..i])
    {
      assert cities[..i + 1][..i] == cities[..i];
      var city := cities[i].city;
      var data := cities[i].data;
      if data.NotAnObject? {
        malformedCities := malformedCities + [Unreadable(city)];
        continue;
      }
      if data.altitude.None? || data.teams.None? {
        malformedCities := malformedCities + [MissingKeys(city)];
        continue;
      }
      var altitude := data.altitude.value;
      var teams := data.teams.value;
      if !teams.TeamList? {
        malformedCities := malformedCities + [TeamsNotList(city)];
        continue;
      }
      ghost var entry := teamLookup;
      for j := 0 to |teams.names|
        invariant teamLookup == Register(entry, teams.names[..j], Location(city, altitude))
      {
        assert teams.names[..j + 1][..j] == teams.names[..j];
        teamLookup := teamLookup[teams.names[j] := Location(city, altitude)];
      }
      assert teams.names[..|teams.names|] == teams.names;
    }
    assert cities[..|cities|] == cities;
  }

  /** A team is in the lookup exactly when some well-formed city lists it. */
  lemma {:induction false} InvertDomain(cities: seq<CityEntry>, team: string)
    ensures team in Invert(cities).lookup <==> exists k :: 0 <= k < |cities| && Lists(cities[k], team)
  {
    if cities != [] {
      var init := cities[..|cities| - 1];
      InvertDomain(init, team);
      if exists k :: 0 <= k < |init| && Lists(init[k], team) {
        var k :| 0 <= k < |init| && Lists(init[k], team);
        assert Lists(cities[k], team);
      }
      if exists k :: 0 <= k < |cities| && Lists(cities[k], team) {
        var k :| 0 <= k < |cities| && Lists(cities[k], team);
        if k < |init| {
          assert Lists(init[k], team);
        }
      }
    }
  }

  /** A team listed by several cities maps to the last well-formed city that lists it. */
  lemma {:induction false} InvertLastWins(cities: seq<CityEntry>, team: string, k: nat)
    requires k < |cities| && Lists(cities[k], team)
    requires forall j :: k < j < |cities| ==> !Lists(cities[j], team)
    ensures team in Invert(cities).lookup
    ensures Invert(cities).lookup[team] == Location(cities[k].city, cities[k].data.altitude.value)
  {
    var init := cities[..|cities| - 1];
    if k < |cities| - 1 {
      assert Lists(init[k], team);
      InvertLastWins(init, team, k);
    }
  }

  /** Number of cities that are not well formed. */
  function MalformedCount(cities: seq<CityEntry>): nat
  {
    if cities == [] then 0
    else MalformedCount(cities[..|cities| - 1]) + (if WellFormed(cities[|cities| - 1].data) then 0 else 1)
  }

  /**
   * Each malformed city adds exactly one message, naming it, and the
   * messages follow the mapping's order.
   */
  lemma {:induction false} InvertMalformed(cities: seq<CityEntry>)
    ensures |Invert(cities).malformed| == MalformedCount(cities)
    ensures forall m :: m in Invert(cities).malformed ==>
      exists k :: 0 <= k < |cities| && !WellFormed(cities[k].data) && m == Problem(cities[k])
  {
    if cities != [] {
      var init := cities[..|cities| - 1];
      InvertMalformed(init);
      forall m | m in Invert(cities).malformed
        ensures exists k :: 0 <= k < |cities| && !WellFormed(cities[k].data) && m == Problem(cities[k])
      {
        if m in Invert(init).malformed {
          var k :| 0 <= k < |init| && !WellFormed(init[k].data) && m == Problem(init[k]);
          assert cities[k] == init[k];
        } else {
          assert m == Problem(cities[|cities| - 1]);
        }
      }
    }
  }

  /** One row of the processed table. */
  datatype ProcessedRow = ProcessedRow(
    year: int,
    phase: string,
    date: string,
    homeTeam: string,
    homeCity: string,
    homeAltitude: int,
    awayTeam: string,
    awayCity: string,
    awayAltitude: int,
    altitudeDifference: int,
    goals: Option<ScorePair>,
    scoreRaw: string,
    stadium: Option<string>)

  /** Both team names are non-empty. */
  predicate Named(m: MatchRecord)
  {
    m.homeTeam != [] && m.awayTeam != []
  }

  /** A match that makes it into the processed table. */
  predicate Joinable(m: MatchRecord, lookup: map<string, Location>)
  {
    Named(m) && m.homeTeam in lookup && m.awayTeam in lookup
  }

  /** The processed row for a joinable match. */
  function JoinRow(m: MatchRecord, lookup: map<string, Location>): ProcessedRow
    requires Joinable(m, lookup)
  {
    var home := lookup[m.homeTeam];
    var away := lookup[m.awayTeam];
    ProcessedRow(m.year, m.phase, m.date, m.homeTeam, home.city, home.altitude,
                 m.awayTeam, away.city, away.altitude, home.altitude - away.altitude,
                 m.goals, m.score, m.stadium)
  }

  /** The processed rows for the given matches, in order. */
  function JoinRows(matches: seq<MatchRecord>, lookup: map<string, Location>): seq<ProcessedRow>
  {
    if matches == [] then []
    else
      var m := matches[|matches| - 1];
      JoinRows(matches[..|matches| - 1], lookup) + (if Joinable(m, lookup) then [JoinRow(m, lookup)] else [])
  }

  /** Team names of named matches that the lookup lacks. */
  function MissingTeams(matches: seq<MatchRecord>, lookup: map<string, Location>): set<string>
  {
    if matches == [] then {}
    else
      var m := matches[|matches| - 1];
      MissingTeams(matches[..|matches| - 1], lookup)
        + (if Named(m) && m.homeTeam !in lookup then {m.homeTeam} else {})
        + (if Named(m) && m.awayTeam !in lookup then {m.awayTeam} else {})
  }

  /** The join loop of `process_data`, returning `processed_data` and `missing_teams`. */
  method ProcessMatches(matches: seq<MatchRecord>, teamLookup: map<string, Location>)
    returns (processedData: seq<ProcessedRow>, missingTeams: set<string>)
    ensures processedData == JoinRows(matches, teamLookup)
    ensures missingTeams == MissingTeams(matches, teamLookup)
  {
    processedData := [];
    missingTeams := {};
    for i := 0 to |matches|
      invariant processedData == JoinRows(matches[..i], teamLookup)
      invariant missingTeams == MissingTeams(matches[..i], teamLookup)
    {
      assert matches[..i + 1][..i] == matches[..i];
      var match_ := matches[i];
      var homeTeam := match_.homeTeam;
      var awayTeam := match_.awayTeam;
      if homeTeam == [] || awayTeam == [] {
        continue;
      }
      var homeMapping := if homeTeam in teamLookup then Some(teamLookup[homeTeam]) else None;
      var awayMapping := if awayTeam in teamLookup then Some(teamLookup[awayTeam]) else None;
      if homeMapping.None? {
        missingTeams := missingTeams + {homeTeam};
      }
      if awayMapping.None? {
        missingTeams := missingTeams + {awayTeam};
      }
      if homeMapping.None? || awayMapping.None? {
        continue;
      }
      var homeCity := homeMapping.value.city;
      var homeAltitude := homeMapping.value.altitude;
      var awayCity := awayMapping.value.city;
      var awayAltitude := awayMapping.value.altitude;
      var altitudeDifference := homeAltitude - awayAltitude;
      processedData := processedData + [ProcessedRow(match_.year, match_.phase, match_.date,
        homeTeam, homeCity, homeAltitude, awayTeam, awayCity, awayAltitude, altitudeDifference,
        match_.goals, match_.score, match_.stadium)];
    }
    assert matches[..|matches|] == matches;
  }

  /**
   * The processed rows are the joinable matches, each exactly once and in
   * input order: `origin[k]` is the match row `k` came from.
   */
  lemma {:induction false} JoinRowsOrigin(matches: seq<MatchRecord>, lookup: map<string, Location>)
    returns (origin: seq<nat>)
    ensures |origin| == |JoinRows(matches, lookup)| <= |matches|
    ensures forall k :: 0 <= k < |origin| ==> origin[k] < |matches| && Joinable(matches[origin[k]], lookup)
    ensures forall k :: 0 <= k < |origin| ==> JoinRows(matches, lookup)[k] == JoinRow(matches[origin[k]], lookup)
    ensures forall k, l :: 0 <= k < l < |origin| ==> origin[k] < origin[l]
    ensures forall i :: 0 <= i < |matches| && Joinable(matches[i], lookup) ==> i in origin
  {
    if matches == [] {
      origin := [];
    } else {
      var init := matches[..|matches| - 1];
      var n := |matches| - 1;
      var before := JoinRowsOrigin(init, lookup);
      if Joinable(matches[n], lookup) {
        origin := before + [n];
      } else {
        origin := before;
      }
      forall i | 0 <= i < |matches| && Joinable(matches[i], lookup) ensures i in origin {
        if i < n {
          assert init[i] == matches[i];
          assert i in before;
        }
      }
    }
  }

  /** Every processed row copies its cities and altitudes from the lookup and subtracts away from home. */
  lemma {:induction false} JoinRowsValues(matches: seq<MatchRecord>, lookup: map<string, Location>)
    ensures forall r :: r in JoinRows(matches, lookup) ==>
      && r.homeTeam != [] && r.awayTeam != []
      && r.homeTeam in lookup && r.awayTeam in lookup
      && lookup[r.homeTeam] == Location(r.homeCity, r.homeAltitude)
      && lookup[r.awayTeam] == Location(r.awayCity, r.awayAltitude)
      && r.altitudeDifference == r.homeAltitude - r.awayAltitude
  {
    if matches != [] {
      JoinRowsValues(matches[..|matches| - 1], lookup);
    }
  }

  /** `missing_teams` holds exactly the unmapped names of matches whose two names are non-empty. */
  lemma {:induction false} MissingTeamsExact(matches: seq<MatchRecord>, lookup: map<string, Location>, team: string)
    ensures team in MissingTeams(matches, lookup) <==>
      team !in lookup &&
      exists i :: 0 <= i < |matches| && Named(matches[i]) && (matches[i].homeTeam == team || matches[i].awayTeam == team)
  {
    if matches != [] {
      var init := matches[..|matches| - 1];
      MissingTeamsExact(init, lookup, team);
      if exists i :: 0 <= i < |init| && Named(init[i]) && (init[i].homeTeam == team || init[i].awayTeam == team) {
        var i :| 0 <= i < |init| && Named(init[i]) && (init[i].homeTeam == team || init[i].awayTeam == team);
        assert matches[i] == init[i];
      }
      if exists i :: 0 <= i < |matches| && Named(matches[i]) && (matches[i].homeTeam == team || matches[i].awayTeam == team) {
        var i :| 0 <= i < |matches| && Named(matches[i]) && (matches[i].homeTeam == team || matches[i].awayTeam == team);
        if i < |init| {
          assert init[i] == matches[i];
        }
      }
    }
  }

  /** Missing teams are never in the lookup, and a match with a missing team yields no row. */
  lemma MissingNeverJoined(matches: seq<MatchRecord>, lookup: map<string, Location>)
    ensures forall t :: t in MissingTeams(matches, lookup) ==> t !in lookup
    ensures forall r :: r in JoinRows(matches, lookup) ==>
      r.homeTeam !in MissingTeams(matches, lookup) && r.awayTeam !in MissingTeams(matches, lookup)
  {
    forall t | t in MissingTeams(matches, lookup) ensures t !in lookup {
      MissingTeamsExact(matches, lookup, t);
    }
    JoinRowsValues(matches, lookup);
  }

  /** The warning's header line. */
  function MissingHeader(count: nat): string
  {
    "\n[Warning] " + NatToString(count) + " teams are missing from your 'city_mappings.json' file:"
  }

  /** The warning printed for the missing teams, listed in the given order. */
  function ReportLines(order: seq<string>): (lines: seq<string>)
  {
    if order == [] then []
    else
      var shown := if |order| <= 10 then |order| else 10;
      [MissingHeader(|order|)]
        + seq(shown, k requires 0 <= k < shown => "  - " + order[k])
        + (if |order| > 10 then ["  ... and " + NatToString(|order| - 10) + " more."] else [])
  }

  /** No repeated element. */
  predicate Distinct(xs: seq<string>)
  {
    forall i, j :: 0 <= i < j < |xs| ==> xs[i] != xs[j]
  }

  /** `list(missing_teams)`: the set's elements in some order. */
  method ListOf(s: set<string>) returns (xs: seq<string>)
    ensures Distinct(xs) && |xs| == |s|
    ensures forall x :: x in xs <==> x in s
  {
    xs := [];
    var rest := s;
    while rest != {}
      invariant rest <= s && Distinct(xs)
      invariant forall x :: x in xs <==> x in s && x !in rest
      invariant |xs| + |rest| == |s|
      decreases |rest|
    {
      var x :| x in rest;
      xs := xs + [x];
      rest := rest - {x};
    }
  }

  /**
   * The missing-team warning: the header, then the first ten names of
   * `list(missing_teams)`, then a count of the rest; nothing when no team is
   * missing. `order` is the order the set was listed in.
   */
  method ReportMissing(missingTeams: set<string>) returns (order: seq<string>, lines: seq<string>)
    ensures Distinct(order) && |order| == |missingTeams|
    ensures forall x :: x in order <==> x in missingTeams
    ensures lines == ReportLines(order)
  {
    order := ListOf(missingTeams);
    lines := [];
    if missingTeams == {} {
      return;
    }
    lines := [MissingHeader(|missingTeams|)];
    var i := 0;
    while i < |order|
      invariant 0 <= i <= |order| && i <= 10
      invariant lines == [MissingHeader(|order|)] + seq(i, k requires 0 <= k < i => "  - " + order[k])
    {
      if i >= 10 {
        lines := lines + ["  ... and " + NatToString(|missingTeams| - 10) + " more."];
        break;
      }
      lines := lines + ["  - " + order[i]];
      i := i + 1;
    }
  }

  /** The warning lists at most ten names; with more than ten it ends with how many were not listed. */
  lemma ReportLinesShape(order: seq<string>)
    ensures order == [] <==> ReportLines(order) == []
    ensures order != [] ==> |ReportLines(order)| == 1 + (if |order| <= 10 then |order| else 11)
    ensures forall k :: 1 <= k < |ReportLines(order)| && k <= 10 && k <= |order| ==>
      ReportLines(order)[k] == "  - " + order[k - 1]
    ensures |order| > 10 ==>
      ReportLines(order)[11] == "  ... and " + NatToString(|order| - 10) + " more."
  {
  }

  /** What `process_data` ends with. */
  datatype Outcome =
    | MappingEmpty
    | NothingProcessed
    | Processed(rows: seq<ProcessedRow>)

  /**
   * `process_data` on an already-loaded mapping and match list: the outcome,
   * the malformed-city list and the missing-team warning.
   */
  method ProcessData(cities: seq<CityEntry>, matches: seq<MatchRecord>)
    returns (outcome: Outcome, malformedCities: seq<Malformation>, warning: seq<string>)
    ensures cities == [] ==> outcome == MappingEmpty && malformedCities == [] && warning == []
    ensures cities != [] ==> malformedCities == Invert(cities).malformed
    ensures cities != [] ==>
      var rows := JoinRows(matches, Invert(cities).lookup);
      outcome == if rows == [] then NothingProcessed else Processed(rows)
    ensures cities != [] ==>
      (warning == [] <==> MissingTeams(matches, Invert(cities).lookup) == {})
    ensures cities != [] ==> exists order ::
      && Distinct(order)
      && (forall x :: x in order <==> x in MissingTeams(matches, Invert(cities).lookup))
      && warning == ReportLines(order)
    ensures |warning| <= 12
  {
    if cities == [] {
      return MappingEmpty, [], [];
    }
    var teamLookup;
    teamLookup, malformedCities := BuildReverseTeamMap(cities);
    var processedData, missingTeams := ProcessMatches(matches, teamLookup);
    var order;
    order, warning := ReportMissing(missingTeams);
    ReportLinesShape(order);
    if processedData == [] {
      return NothingProcessed, malformedCities, warning;
    }
    outcome := Processed(processedData);
  }
}
