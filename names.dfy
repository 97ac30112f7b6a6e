/**
 * The name normaliser `clean_team_name` (scripts/scraper.py): trim the
 * scraped name, then map a fixed set of aliases (accent variants and short
 * forms) to the canonical names the city mapping uses. The chain of `if`s in
 * the source tests exact, pairwise distinct strings, so it is one flat table.
 */
module Names {
  import opened Text

  /** The alias table; the identity rows are in the source too. */
  const Aliases: map<string, string> := map[
    "Bahia" := "Bahia",
    "Bahía" := "Bahia",
    "Brasilia" := "Brasilia",
    "Brasília" := "Brasilia",
    "Athletico Paranaense" := "Atlético Paranaense",
    "Paranaense" := "Atlético Paranaense",
    "Táchira" := "Deportivo Táchira",
    "Mineiro" := "Atlético Mineiro",
    "Goianiense" := "Atlético Goianiense",
    "Cali" := "Deportivo Cali",
    "Capiatá" := "Deportivo Capiatá",
    "Tucumán" := "Atlético Tucumán",
    "Medellín" := "Independiente Medellín",
    "Racing Club" := "Racing Club",
    "Racing" := "Racing",
    "Estudiantes" := "Estudiantes (LP)",
    "Estudiantes (LP)" := "Estudiantes (LP)"
  ]

  /** The rule for "Nacional": the name must equal "Nacional" and contain "Atlético Nacional". */
  predicate NacionalRuleFires(name: string)
  {
    name == "Nacional" && Contains(name, "Atlético Nacional")
  }

  /** `clean_team_name(name)`. */
  function CleanTeamName(name: string): (r: string)
    ensures NoEdgeSpace(r)
  {
    var t := Strip(name);
    AliasTargetsTrimmed();
    if t in Aliases then Aliases[t]
    else if NacionalRuleFires(t) then "Atlético Nacional"
    else t
  }

  /** The "Nacional" rule can never fire: a string cannot contain a longer one. */
  lemma NacionalRuleNeverFires(name: string)
    ensures !NacionalRuleFires(name)
  {
    if name == "Nacional" {
      ContainsLonger(name, "Atlético Nacional");
    }
  }

  /** Every alias is trimmed and non-empty, so it can match a stripped name. */
  lemma AliasesTrimmed()
    ensures forall k :: k in Aliases ==> NoEdgeSpace(k) && k != []
  {
  }

  /** Every canonical name is trimmed and non-empty. */
  lemma AliasTargetsTrimmed()
    ensures forall k :: k in Aliases ==> NoEdgeSpace(Aliases[k]) && Aliases[k] != []
  {
  }

  /** The canonical names that are not aliases themselves. */
  lemma RenamedTargetsOutside()
    ensures "Atlético Paranaense" !in Aliases
    ensures "Deportivo Táchira" !in Aliases
    ensures "Atlético Mineiro" !in Aliases
    ensures "Atlético Goianiense" !in Aliases
    ensures "Deportivo Cali" !in Aliases
    ensures "Deportivo Capiatá" !in Aliases
    ensures "Atlético Tucumán" !in Aliases
    ensures "Independiente Medellín" !in Aliases
  {
  }

  /** The canonical names that are aliases map to themselves. */
  lemma KeptTargetsFixed()
    ensures Aliases["Bahia"] == "Bahia"
    ensures Aliases["Brasilia"] == "Brasilia"
    ensures Aliases["Racing Club"] == "Racing Club"
    ensures Aliases["Racing"] == "Racing"
    ensures Aliases["Estudiantes (LP)"] == "Estudiantes (LP)"
  {
  }

  /** Every canonical name is its own canonical name. */
  lemma AliasTargetsCanonical()
    ensures forall k :: k in Aliases && Aliases[k] in Aliases ==> Aliases[Aliases[k]] == Aliases[k]
  {
    RenamedTargetsOutside();
    KeptTargetsFixed();
    forall k | k in Aliases
      ensures Aliases[k] in Aliases ==> Aliases[Aliases[k]] == Aliases[k]
    {
      if k == "Bahia" || k == "Bahía" {
        assert Aliases[k] == "Bahia";
      } else if k == "Brasilia" || k == "Brasília" {
        assert Aliases[k] == "Brasilia";
      } else if k == "Athletico Paranaense" || k == "Paranaense" {
        assert Aliases[k] == "Atlético Paranaense";
      } else if k == "Táchira" {
        assert Aliases[k] == "Deportivo Táchira";
      } else if k == "Mineiro" {
        assert Aliases[k] == "Atlético Mineiro";
      } else if k == "Goianiense" {
        assert Aliases[k] == "Atlético Goianiense";
      } else if k == "Cali" {
        assert Aliases[k] == "Deportivo Cali";
      } else if k == "Capiatá" {
        assert Aliases[k] == "Deportivo Capiatá";
      } else if k == "Tucumán" {
        assert Aliases[k] == "Atlético Tucumán";
      } else if k == "Medellín" {
        assert Aliases[k] == "Independiente Medellín";
      } else if k == "Racing Club" {
        assert Aliases[k] == "Racing Club";
      } else if k == "Racing" {
        assert Aliases[k] == "Racing";
      } else {
        assert k == "Estudiantes" || k == "Estudiantes (LP)";
        assert Aliases[k] == "Estudiantes (LP)";
      }
    }
  }

  /** Each alias, with any surrounding whitespace, maps to its canonical name. */
  lemma AliasMapped(w1: string, alias: string, w2: string)
    requires alias in Aliases && AllSpace(w1) && AllSpace(w2)
    ensures CleanTeamName(w1 + alias + w2) == Aliases[alias]
  {
    AliasesTrimmed();
    StripPadded(w1, alias, w2);
  }

  /** A name that is not an alias comes back trimmed and otherwise unchanged. */
  lemma NonAliasUnchanged(name: string)
    requires Strip(name) !in Aliases
    ensures CleanTeamName(name) == Strip(name)
  {
    NacionalRuleNeverFires(Strip(name));
  }

  /** In particular "Nacional" is left as it is. */
  lemma NacionalUnchanged()
    ensures CleanTeamName("Nacional") == "Nacional"
  {
    var n := "Nacional";
    StripPadded([], n, []);
    assert [] + n + [] == n;
    assert n !in Aliases;
    NonAliasUnchanged(n);
  }

  /** Normalising twice is normalising once. */
  lemma CleanTeamNameIdempotent(name: string)
    ensures CleanTeamName(CleanTeamName(name)) == CleanTeamName(name)
  {
    var t := Strip(name);
    var r := CleanTeamName(name);
    NacionalRuleNeverFires(t);
    NacionalRuleNeverFires(r);
    StripPadded([], r, []);
    assert [] + r + [] == r;
    AliasTargetsTrimmed();
    AliasTargetsCanonical();
  }

  /** A blank name stays blank, and only a blank name becomes blank. */
  lemma CleanTeamNameEmpty(name: string)
    ensures CleanTeamName(name) == [] <==> Strip(name) == []
  {
    NacionalRuleNeverFires(Strip(name));
    AliasesTrimmed();
    AliasTargetsTrimmed();
  }
}
