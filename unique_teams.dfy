/**
 * The unique team list of scripts/generate_teams.py
 * (`generate_unique_teams`): the stripped names of every non-empty home or
 * away team, sorted, one per line. Reading the match file and writing the
 * list are not modelled; the lines are returned instead.
 */
module UniqueTeams {
  import opened Wrappers
  import opened Text
  import opened Records

  /** Python's `<` on strings: code-point lexicographic order. */
  predicate Below(a: string, b: string)
  {
    if a == [] then b != []
    else if b == [] then false
    else if a[0] == b[0] then Below(a[1..], b[1..])
    else a[0] < b[0]
  }

  lemma {:induction false} BelowIrreflexive(a: string)
    ensures !Below(a, a)
  {
    if a != [] {
      BelowIrreflexive(a[1..]);
    }
  }

  lemma {:induction false} BelowTransitive(a: string, b: string, c: string)
    requires Below(a, b) && Below(b, c)
    ensures Below(a, c)
  {
    if a != [] && b != [] && c != [] && a[0] == b[0] && b[0] == c[0] {
      BelowTransitive(a[1..], b[1..], c[1..]);
    }
  }

  lemma {:induction false} BelowTotal(a: string, b: string)
    ensures a == b || Below(a, b) || Below(b, a)
  {
    if a != [] && b != [] && a[0] == b[0] {
      BelowTotal(a[1..], b[1..]);
      if a[1..] == b[1..] {
        assert a == [a[0]] + a[1..] && b == [b[0]] + b[1..];
      }
    }
  }

  lemma {:induction false} BelowAsymmetric(a: string, b: string)
    requires Below(a, b)
    ensures !Below(b, a)
  {
    if a != [] && b != [] && a[0] == b[0] {
      BelowAsymmetric(a[1..], b[1..]);
    }
  }

  /** Strictly increasing: sorted and free of duplicates. */
  predicate StrictlyIncreasing(xs: seq<string>)
  {
    forall i, j :: 0 <= i < j < |xs| ==> Below(xs[i], xs[j])
  }

  /** The names a match contributes: each truthy team name, stripped. */
  function MatchNames(m: MatchRecord): set<string>
  {
    (if m.homeTeam != [] then {Strip(m.homeTeam)} else {})
      + (if m.awayTeam != [] then {Strip(m.awayTeam)} else {})
  }

  /** `team_names` after the given matches. */
  function TeamNames(matches: seq<MatchRecord>): set<string>
  {
    if matches == [] then {}
    else TeamNames(matches[..|matches| - 1]) + MatchNames(matches[|matches| - 1])
  }

  /** A name is collected exactly when some match contributes it. */
  lemma {:induction false} TeamNamesExact(matches: seq<MatchRecord>, name: string)
    ensures name in TeamNames(matches) <==> exists i :: 0 <= i < |matches| && name in MatchNames(matches[i])
  {
    if matches != [] {
      var init := matches[..|matches| - 1];
      TeamNamesExact(init, name);
      if name in TeamNames(init) {
        var i :| 0 <= i < |init| && name in MatchNames(init[i]);
        assert matches[i] == init[i];
      }
      if exists i :: 0 <= i < |matches| && name in MatchNames(matches[i]) {
        var i :| 0 <= i < |matches| && name in MatchNames(matches[i]);
        if i < |init| {
          assert init[i] == matches[i];
        }
      }
    }
  }

  /** A whitespace-only name is truthy, so it contributes the empty name. */
  lemma BlankNameCollected(m: MatchRecord)
    requires m.homeTeam != [] && AllSpace(m.homeTeam)
    ensures [] in TeamNames([m])
  {
    assert [m][..0] == [];
    StripPadded(m.homeTeam, [], []);
    assert m.homeTeam + [] + [] == m.homeTeam;
  }

  /** Two strictly increasing lists of the same names are the same list. */
  lemma {:induction false} SortedUnique(xs: seq<string>, ys: seq<string>)
    requires StrictlyIncreasing(xs) && StrictlyIncreasing(ys)
    requires forall x :: x in xs <==> x in ys
    ensures xs == ys
  {
    var names := set x | x in xs;
    DistinctLength(xs, names);
    DistinctLength(ys, names);
    if xs != [] {
      HeadsAgree(xs, ys);
      HeadsAgree(ys, xs);
      BelowTotal(xs[0], ys[0]);
      forall x ensures x in xs[1..] <==> x in ys[1..] {
        if x in xs[1..] {
          var k :| 1 <= k < |xs| && xs[k] == x;
          BelowIrreflexive(x);
          assert x in ys;
        }
        if x in ys[1..] {
          var k :| 1 <= k < |ys| && ys[k] == x;
          BelowIrreflexive(x);
          assert x in xs;
        }
      }
      SortedUnique(xs[1..], ys[1..]);
      assert xs == [xs[0]] + xs[1..] && ys == [ys[0]] + ys[1..];
    }
  }

  /** The head of a strictly increasing list is not above any element of another list with the same names. */
  lemma HeadsAgree(xs: seq<string>, ys: seq<string>)
    requires StrictlyIncreasing(xs) && StrictlyIncreasing(ys) && xs != [] && ys != []
    requires forall x :: x in xs <==> x in ys
    ensures !Below(ys[0], xs[0])
  {
    if Below(ys[0], xs[0]) {
      assert ys[0] in xs;
      var k :| 0 <= k < |xs| && xs[k] == ys[0];
      if k == 0 {
        BelowIrreflexive(xs[0]);
      } else {
        BelowAsymmetric(xs[0], xs[k]);
      }
    }
  }

  /** `sorted(list(team_names))`: the names in increasing order. */
  method SortNames(names: set<string>) returns (sorted: seq<string>)
    ensures StrictlyIncreasing(sorted) && |sorted| == |names|
    ensures forall x :: x in sorted <==> x in names
  {
    sorted := [];
    var rest := names;
    while rest != {}
      invariant rest <= names && StrictlyIncreasing(sorted)
      invariant forall x :: x in sorted <==> x in names && x !in rest
      invariant |sorted| + |rest| == |names|
      decreases |rest|
    {
      var x :| x in rest;
      var k := 0;
      while k < |sorted| && Below(sorted[k], x)
        invariant 0 <= k <= |sorted|
        invariant forall i :: 0 <= i < k ==> Below(sorted[i], x)
      {
        k := k + 1;
      }
      if k < |sorted| {
        BelowTotal(sorted[k], x);
        forall i | k <= i < |sorted| ensures Below(x, sorted[i]) {
          if i > k {
            BelowTransitive(x, sorted[k], sorted[i]);
          }
        }
      }
      sorted := sorted[..k] + [x] + sorted[k..];
      rest := rest - {x};
    }
    DistinctLength(sorted, names);
  }

  /** A strictly increasing list of a set's elements is as long as the set. */
  lemma {:induction false} DistinctLength(xs: seq<string>, s: set<string>)
    requires StrictlyIncreasing(xs)
    requires forall x :: x in xs <==> x in s
    ensures |xs| == |s|
  {
    if xs != [] {
      var rest := xs[1..];
      forall x ensures x in rest <==> x in s - {xs[0]} {
        if x in rest {
          var k :| 1 <= k < |xs| && xs[k] == x;
          BelowIrreflexive(x);
        }
      }
      DistinctLength(rest, s - {xs[0]});
    } else {
      assert forall x :: x !in s;
    }
  }

  /**
   * `generate_unique_teams` on an already-loaded match list: `None` when no
   * name was collected (only a warning is printed), otherwise the lines of
   * the output file.
   */
  method GenerateUniqueTeams(matches: seq<MatchRecord>) returns (lines: Option<seq<string>>)
    ensures lines.None? <==> TeamNames(matches) == {}
    ensures lines.Some? ==> exists sorted ::
      StrictlyIncreasing(sorted) && (forall x :: x in sorted <==> x in TeamNames(matches)) &&
      lines.value == TeamLines(sorted)
  {
    var teamNames: set<string> := {};
    for i := 0 to |matches|
      invariant teamNames == TeamNames(matches[..i])
    {
      assert matches[..i + 1][..i] == matches[..i];
      var m := matches[i];
      if m.homeTeam != [] {
        teamNames := teamNames + {Strip(m.homeTeam)};
      }
      if m.awayTeam != [] {
        teamNames := teamNames + {Strip(m.awayTeam)};
      }
    }
    assert matches[..|matches|] == matches;
    if teamNames == {} {
      return None;
    }
    var sortedTeams := SortNames(teamNames);
    var out: seq<string> := [];
    for i := 0 to |sortedTeams|
      invariant out == TeamLines(sortedTeams[..i])
    {
      assert sortedTeams[..i + 1][..i] == sortedTeams[..i];
      out := out + [sortedTeams[i] + "\n"];
    }
    assert sortedTeams[..|sortedTeams|] == sortedTeams;
    lines := Some(out);
  }

  /** One line per team, in order, each ending in a newline. */
  function TeamLines(teams: seq<string>): (lines: seq<string>)
    ensures |lines| == |teams|
    ensures forall k :: 0 <= k < |teams| ==> lines[k] == teams[k] + "\n"
  {
    if teams == [] then [] else TeamLines(teams[..|teams| - 1]) + [teams[|teams| - 1] + "\n"]
  }

  /** Every unique name is written exactly once, in increasing order. */
  lemma OutputLinesUnique(sorted: seq<string>)
    requires StrictlyIncreasing(sorted)
    ensures forall i, j :: 0 <= i < j < |sorted| ==> TeamLines(sorted)[i] != TeamLines(sorted)[j]
  {
    forall i, j | 0 <= i < j < |sorted| ensures TeamLines(sorted)[i] != TeamLines(sorted)[j] {
      if sorted[i] + "\n" == sorted[j] + "\n" {
        assert sorted[i] == (sorted[i] + "\n")[..|sorted[i]|];
        assert sorted[j] == (sorted[j] + "\n")[..|sorted[j]|];
        BelowIrreflexive(sorted[i]);
      }
    }
  }
}
