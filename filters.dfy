/** `src/utils/filters.util.js`: the sort orders of the listing and the
    region/language facets offered by the search filter. */
module Filters {
  import opened Wrappers
  import opened Seqs
  import opened Strings
  import opened Sorting
  import opened Countries

  /** The branches of the `switch (sortBy)` in `sortCountries`. */
  datatype SortKey = ByName | ByNameDesc | ByPopulation | ByPopulationDesc | Unsorted

  /** The key a `sortBy` argument selects; a missing argument is `None`
      and, like every unknown string, selects no order. */
  function KeyOf(sortBy: Option<string>): SortKey {
    if sortBy == Some("name") then ByName
    else if sortBy == Some("nameDesc") then ByNameDesc
    else if sortBy == Some("population") then ByPopulation
    else if sortBy == Some("populationDesc") then ByPopulationDesc
    else Unsorted
  }

  /** The comparator of each key, read as "`a` may stay before `b`"
      (`compare(a, b) <= 0`). */
  function CountryLe(key: SortKey): (Country, Country) -> bool {
    match key
    case ByName => (a: Country, b: Country) => StrLe(a.name, b.name)
    case ByNameDesc => (a: Country, b: Country) => StrLe(b.name, a.name)
    case ByPopulation => (a: Country, b: Country) => a.population <= b.population
    case ByPopulationDesc => (a: Country, b: Country) => b.population <= a.population
    case Unsorted => (a: Country, b: Country) => true
  }

  /** Every comparator is a consistent total preorder, as `Array.prototype.sort` needs. */
  lemma CountryLeTotalPreorder(key: SortKey)
    ensures TotalPreorder(CountryLe(key))
  {
    var le := CountryLe(key);
    forall a, b ensures le(a, b) || le(b, a) {
      StrLeTotal(a.name, b.name);
    }
    forall a, b, c | le(a, b) && le(b, c) ensures le(a, c) {
      if key == ByName {
        StrLeTrans(a.name, b.name, c.name);
      } else if key == ByNameDesc {
        StrLeTrans(c.name, b.name, a.name);
      }
    }
  }

  /** `sortCountries`: sorts a copy of the list by the selected key; an
      unknown or missing key returns the copy in the original order. */
  method SortCountries(countries: seq<Country>, sortBy: Option<string>) returns (sorted: seq<Country>)
    ensures multiset(sorted) == multiset(countries)
    ensures KeyOf(sortBy) == Unsorted ==> sorted == countries
    ensures KeyOf(sortBy) != Unsorted ==> sorted == SortSeq(CountryLe(KeyOf(sortBy)), countries)
    ensures sortBy == Some("name") ==>
      forall i, j :: 0 <= i < j < |sorted| ==> StrLe(sorted[i].name, sorted[j].name)
    ensures sortBy == Some("nameDesc") ==>
      forall i, j :: 0 <= i < j < |sorted| ==> StrLe(sorted[j].name, sorted[i].name)
    ensures sortBy == Some("population") ==>
      forall i, j :: 0 <= i < j < |sorted| ==> sorted[i].population <= sorted[j].population
    ensures sortBy == Some("populationDesc") ==>
      forall i, j :: 0 <= i < j < |sorted| ==> sorted[i].population >= sorted[j].population
  {
    var key := KeyOf(sortBy);
    var copy := new Country[|countries|](k requires 0 <= k < |countries| => countries[k]);
    assert copy[..] == countries;
    if key != Unsorted {
      SortInPlace(copy, CountryLe(key));
      SortSeqPermutes(CountryLe(key), countries);
      CountryLeTotalPreorder(key);
      SortSeqSorted(CountryLe(key), countries);
    }
    sorted := copy[..];
  }

  /** For countries with distinct names, sorting the name-ascending order
      by `nameDesc` gives exactly its reverse. */
  lemma NameDescReversesName(countries: seq<Country>)
    requires forall i, j :: 0 <= i < j < |countries| ==> countries[i].name != countries[j].name
    ensures SortSeq(CountryLe(ByNameDesc), SortSeq(CountryLe(ByName), countries))
         == Reversed(SortSeq(CountryLe(ByName), countries))
  {
    var asc := SortSeq(CountryLe(ByName), countries);
    var desc := CountryLe(ByNameDesc);
    CountryLeTotalPreorder(ByName);
    CountryLeTotalPreorder(ByNameDesc);
    SortSeqPermutes(CountryLe(ByName), countries);
    SortSeqSorted(CountryLe(ByName), countries);
    var a := SortSeq(desc, asc);
    SortSeqPermutes(desc, asc);
    SortSeqSorted(desc, asc);
    var b := Reversed(asc);
    ReversedPermutes(asc);
    var n := |asc|;
    assert SortedBy(desc, b) by {
      forall i, j | 0 <= i < j < n ensures desc(b[i], b[j]) {
        assert CountryLe(ByName)(asc[n - 1 - j], asc[n - 1 - i]);
      }
    }
    forall x, y | x in multiset(a) && y in multiset(a) && desc(x, y) && desc(y, x) ensures x == y {
      assert x in multiset(countries) && y in multiset(countries);
      StrLeAntisymmetric(x.name, y.name);
      var i :| 0 <= i < |countries| && countries[i] == x;
      var j :| 0 <= j < |countries| && countries[j] == y;
      assert i == j;
    }
    SortedPermutationUnique(desc, a, b);
  }

  /** A country's non-empty region, as a set of at most one value. */
  function RegionOf(c: Country): set<string> {
    if c.region != "" then {c.region} else {}
  }

  /** `Array.from(set).sort()`: the elements of a set of strings in increasing order. */
  method SortedFromSet(s: set<string>) returns (r: seq<string>)
    ensures StrictlyIncreasing(r)
    ensures forall x :: x in r <==> x in s
    ensures |r| == |s|
  {
    var items: seq<string> := [];
    var rest := s;
    while rest != {}
      invariant forall x :: x in s <==> x in items || x in rest
      invariant forall x :: x in items ==> x !in rest
      invariant forall x :: multiset(items)[x] <= 1
      invariant |items| + |rest| == |s|
      decreases |rest|
    {
      var x :| x in rest;
      items := items + [x];
      rest := rest - {x};
    }
    var a := new string[|items|](k requires 0 <= k < |items| => items[k]);
    assert a[..] == items;
    SortInPlace(a, StrLe);
    r := a[..];
    SortSeqPermutes(StrLe, items);
    assert forall x :: x in r <==> x in multiset(r);
    assert forall x :: x in items <==> x in multiset(items);
    CountsAtMostOneDistinct(r);
    StrLeTotalPreorder();
    SortSeqSorted(StrLe, items);
  }

  lemma StrLeTotalPreorder()
    ensures TotalPreorder(StrLe)
  {
    forall a, b ensures StrLe(a, b) || StrLe(b, a) { StrLeTotal(a, b); }
    forall a, b, c | StrLe(a, b) && StrLe(b, c) ensures StrLe(a, c) { StrLeTrans(a, b, c); }
  }

  /** `getUniqueRegionsAndLanguages`: every non-empty region and every
      language name of the input, each once, in increasing order. */
  method GetUniqueRegionsAndLanguages(countries: seq<Country>) returns (regions: seq<string>, languages: seq<string>)
    ensures StrictlyIncreasing(regions) && StrictlyIncreasing(languages)
    ensures forall r :: r in regions <==> exists c :: c in countries && r in RegionOf(c)
    ensures forall l :: l in languages <==> exists c :: c in countries && l in LanguageValues(c)
    ensures countries == [] ==> regions == [] && languages == []
  {
    var regionSet: set<string> := {};
    var languageSet: set<string> := {};
    for i := 0 to |countries|
      invariant forall r :: r in regionSet <==> exists c :: c in countries[..i] && r in RegionOf(c)
      invariant forall l :: l in languageSet <==> exists c :: c in countries[..i] && l in LanguageValues(c)
    {
      var country := countries[i];
      ghost var seen, next := countries[..i], countries[..i + 1];
      assert next == seen + [country];
      if country.region != "" {
        regionSet := regionSet + {country.region};
      }
      if country.languages.Some? {
        languageSet := languageSet + country.languages.value.Values;
      }
      forall r | r in regionSet ensures exists c :: c in next && r in RegionOf(c) {
        if r !in RegionOf(country) {
          var c :| c in seen && r in RegionOf(c);
          assert c in next;
        }
      }
      forall r | exists c :: c in next && r in RegionOf(c) ensures r in regionSet {
        var c :| c in next && r in RegionOf(c);
        if c != country { assert c in seen; }
      }
      forall l | l in languageSet ensures exists c :: c in next && l in LanguageValues(c) {
        if l !in LanguageValues(country) {
          var c :| c in seen && l in LanguageValues(c);
          assert c in next;
        }
      }
      forall l | exists c :: c in next && l in LanguageValues(c) ensures l in languageSet {
        var c :| c in next && l in LanguageValues(c);
        if c != country { assert c in seen; }
      }
    }
    assert countries[..|countries|] == countries;
    regions := SortedFromSet(regionSet);
    languages := SortedFromSet(languageSet);
    if countries == [] {
      assert regionSet == {} && languageSet == {};
    }
  }
}
