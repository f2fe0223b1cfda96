/** The expectations of the repository's unit tests, replayed on the model. */
module Scenarios {
  import opened Wrappers
  import Seqs
  import opened Strings
  import opened Sorting
  import opened Countries
  import opened Filters
  import opened CountriesService
  import opened ThemeSlice

  const Brazil := Country("BRA", "Brazil", 1000000, "Americas", Some(map["por" := "Portuguese"]))
  const Argentina := Country("ARG", "Argentina", 500000, "Americas", Some(map["spa" := "Spanish"]))

  /** The order of two elements: kept unless the comparator puts the second strictly first. */
  lemma SortPair<T>(le: (T, T) -> bool, x: T, y: T)
    ensures SortSeq(le, [x, y]) == if le(x, y) then [x, y] else [y, x]
  {
    assert [x][..0] == [];
    assert SortSeq(le, [x]) == Insert(le, x, []) == [x];
    assert [x, y][..1] == [x];
    assert SortSeq(le, [x, y]) == Insert(le, y, [x]);
    assert [x][..0] == [];
    assert Insert(le, y, [x]) == if le(x, y) then [x, y] else Insert(le, y, []) + [x];
  }

  lemma BrazilAfterArgentina()
    ensures StrLe("Argentina", "Brazil") && !StrLe("Brazil", "Argentina")
  {
    assert "Brazil"[0] == 'B' && "Argentina"[0] == 'A';
  }

  /** The four sort orders applied to Brazil and Argentina. */
  method SortScenario() returns (byName: seq<Country>, byNameDesc: seq<Country>,
                                 byPopulation: seq<Country>, byPopulationDesc: seq<Country>)
    ensures byName == [Argentina, Brazil] && byNameDesc == [Brazil, Argentina]
    ensures byPopulation == [Argentina, Brazil] && byPopulationDesc == [Brazil, Argentina]
  {
    var mock := [Brazil, Argentina];
    BrazilAfterArgentina();
    SortPair(CountryLe(ByName), Brazil, Argentina);
    SortPair(CountryLe(ByNameDesc), Brazil, Argentina);
    SortPair(CountryLe(ByPopulation), Brazil, Argentina);
    SortPair(CountryLe(ByPopulationDesc), Brazil, Argentina);
    byName := SortCountries(mock, Some("name"));
    byNameDesc := SortCountries(mock, Some("nameDesc"));
    byPopulation := SortCountries(mock, Some("population"));
    byPopulationDesc := SortCountries(mock, Some("populationDesc"));
  }

  lemma SingletonMapValues(k: string, v: string)
    ensures map[k := v].Values == {v}
  {
    var m := map[k := v];
    assert m[k] == v;
    forall w | w in m.Values ensures w == v {
      var j :| j in m && m[j] == w;
    }
  }

  /** The facets of Brazil and Argentina, and of no countries at all. */
  method FacetScenario() returns (regions: seq<string>, languages: seq<string>,
                                  noRegions: seq<string>, noLanguages: seq<string>)
    ensures regions == ["Americas"] && languages == ["Portuguese", "Spanish"]
    ensures noRegions == [] && noLanguages == []
  {
    regions, languages := GetUniqueRegionsAndLanguages([Brazil, Argentina]);
    SingletonMapValues("por", "Portuguese");
    SingletonMapValues("spa", "Spanish");
    assert LanguageValues(Brazil) == {"Portuguese"} && LanguageValues(Argentina) == {"Spanish"};
    assert Brazil in [Brazil, Argentina] && Argentina in [Brazil, Argentina];
    StrictlyIncreasingUnique(regions, ["Americas"]);
    assert StrLt("Portuguese", "Spanish") by { assert "Portuguese"[0] == 'P' && "Spanish"[0] == 'S'; }
    StrictlyIncreasingUnique(languages, ["Portuguese", "Spanish"]);
    noRegions, noLanguages := GetUniqueRegionsAndLanguages([]);
  }

  /** A name search with one region and one language keeps the single match. */
  method SearchScenario() returns (result: Result<seq<Country>, string>)
    ensures result == Success([Brazil])
  {
    var brazilOnly := [Brazil];
    var catalog := (e: Endpoint) => Ok(brazilOnly);
    result := FilterCountries("brazil", ["Americas"], ["Portuguese"], catalog);
    assert SpeaksSelected(Brazil, ["Portuguese"]) by {
      SingletonMapValues("por", "Portuguese");
      assert "Portuguese" in Brazil.languages.value.Values;
      assert "Portuguese" in ["Portuguese"];
    }
    assert Brazil in result.value;
    SingletonSubseq(result.value, Brazil);
  }

  /** The only subsequences of a one-element list that contain its element are the list itself. */
  lemma SingletonSubseq(s: seq<Country>, c: Country)
    requires Seqs.IsSubseq(s, [c]) && c in s
    ensures s == [c]
  {
    assert s[0] == c;
    assert Seqs.IsSubseq(s[1..], []);
  }

  /** A 404 from the name endpoint becomes the "couldn't find" message. */
  method NotFoundScenario() returns (result: Result<seq<Country>, string>)
    ensures result == Failure(NotFoundMessage)
  {
    var catalog := (e: Endpoint) => Fail(Some(404), true);
    result := FilterCountries("nonexistent", [], [], catalog);
  }

  /** The theme starts light and following the system; a manual choice stops
      following it; following it again adopts the system's preference. */
  method ThemeScenario() returns (initial: (bool, bool), manual: (bool, bool), system: (bool, bool))
    ensures initial == (false, true)
    ensures manual == (true, false)
    ensures system == (true, true)
  {
    var theme := new ThemeStore();
    initial := (theme.darkMode, theme.useSystemTheme);
    theme.SetDarkMode(true);
    manual := (theme.darkMode, theme.useSystemTheme);
    theme.darkMode, theme.useSystemTheme := false, false;
    theme.SetUseSystemTheme(true);
    system := (theme.darkMode, theme.useSystemTheme);
  }
}
