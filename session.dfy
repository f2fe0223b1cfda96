/** The `session` reducer of `src/store/store.js`: search text, selected
    languages and regions, and the sort key. Every case builds a new state. */
module Session {
  import opened Seqs

  datatype SessionState = SessionState(
    searchQuery: string,
    selectedLanguages: seq<string>,
    selectedRegions: seq<string>,
    sortBy: string)

  /** The `session/...` actions. `Other` stands only for an action type that
      matches none of the seven cases of the reducer's `switch`. */
  datatype Action =
    | SetSearchQuery(query: string)
    | AddLanguageFilter(language: string)
    | RemoveLanguageFilter(language: string)
    | AddRegionFilter(region: string)
    | RemoveRegionFilter(region: string)
    | ClearFilters
    | SetSortBy(key: string)
    | Other(actionType: string)

  /** The state before any action, and what is kept of it when nothing is persisted. */
  const InitialSession := SessionState("", [], [], "name")

  /** `[...new Set(s)]`: each value once, at the place it first occurs. */
  function Dedup(s: seq<string>): (r: seq<string>)
    ensures Distinct(r)
    ensures forall x :: x in r <==> x in s
    ensures IsSubseq(r, s)
    ensures forall i, j, k :: 0 <= i < j < |r| && 0 <= k < |s| && s[k] == r[j] ==> r[i] in s[..k]
  {
    if s == [] then []
    else
      var p, x := s[..|s| - 1], s[|s| - 1];
      assert s == p + [x];
      var d := Dedup(p);
      SubseqSnoc(d, p, x);
      if x in d then d else d + [x]
  }

  /** A duplicate-free list is its own de-duplication. */
  lemma {:induction false} DedupOfDistinct(s: seq<string>)
    requires Distinct(s)
    ensures Dedup(s) == s
  {
    if s != [] {
      var p, x := s[..|s| - 1], s[|s| - 1];
      assert Distinct(p) by {
        forall i, j | 0 <= i < j < |p| ensures p[i] != p[j] { assert p[i] == s[i] && p[j] == s[j]; }
      }
      DedupOfDistinct(p);
      assert x !in p by {
        forall k | 0 <= k < |p| ensures p[k] != x { assert p[k] == s[k]; }
      }
      assert s == p + [x];
    }
  }

  /** `filter(v => v !== x)`. */
  function Without(s: seq<string>, x: string): seq<string> {
    Filter((v: string) => v != x, s)
  }

  /** `session/addLanguageFilter`: appends and de-duplicates. */
  function WithLanguage(languages: seq<string>, language: string): seq<string> {
    Dedup(languages + [language])
  }

  /** `session/addRegionFilter`: removes the region when selected, appends it otherwise. */
  function ToggledRegion(regions: seq<string>, region: string): seq<string> {
    if region in regions then Without(regions, region) else regions + [region]
  }

  /** The reducer. */
  function Reduce(state: SessionState, action: Action): (next: SessionState)
    ensures !action.SetSearchQuery? ==> next.searchQuery == state.searchQuery
    ensures !action.SetSortBy? ==> next.sortBy == state.sortBy
    ensures !(action.AddLanguageFilter? || action.RemoveLanguageFilter? || action.ClearFilters?) ==>
      next.selectedLanguages == state.selectedLanguages
    ensures !(action.AddRegionFilter? || action.RemoveRegionFilter? || action.ClearFilters?) ==>
      next.selectedRegions == state.selectedRegions
    ensures action.SetSearchQuery? ==> next.searchQuery == action.query
    ensures action.SetSortBy? ==> next.sortBy == action.key
    ensures action.ClearFilters? ==> next.selectedLanguages == [] && next.selectedRegions == []
    ensures action.Other? ==> next == state
  {
    match action
    case SetSearchQuery(q) => state.(searchQuery := q)
    case AddLanguageFilter(l) => state.(selectedLanguages := WithLanguage(state.selectedLanguages, l))
    case RemoveLanguageFilter(l) => state.(selectedLanguages := Without(state.selectedLanguages, l))
    case AddRegionFilter(r) => state.(selectedRegions := ToggledRegion(state.selectedRegions, r))
    case RemoveRegionFilter(r) => state.(selectedRegions := Without(state.selectedRegions, r))
    case ClearFilters => state.(selectedLanguages := [], selectedRegions := [])
    case SetSortBy(k) => state.(sortBy := k)
    case Other(_) => state
  }

  /** Both selections are free of duplicates. */
  predicate Valid(state: SessionState) {
    Distinct(state.selectedLanguages) && Distinct(state.selectedRegions)
  }

  lemma InitialSessionValid()
    ensures Valid(InitialSession)
    ensures InitialSession.searchQuery == "" && InitialSession.sortBy == "name"
    ensures InitialSession.selectedLanguages == [] && InitialSession.selectedRegions == []
  {
  }

  /** Removing a value leaves none of it, keeps every other value, their
      order and their distinctness, and does nothing when it is absent. */
  lemma WithoutSpec(s: seq<string>, x: string)
    ensures x !in Without(s, x)
    ensures forall v :: v in Without(s, x) <==> v in s && v != x
    ensures IsSubseq(Without(s, x), s)
    ensures Distinct(s) ==> Distinct(Without(s, x))
    ensures x !in s ==> Without(s, x) == s
  {
    FilterIsSubseq((v: string) => v != x, s);
    if Distinct(s) {
      SubseqDistinct(Without(s, x), s);
    }
    if x !in s {
      FilterKeepsAll((v: string) => v != x, s);
    }
  }

  /** Adding a language has set semantics: the result is duplicate-free,
      holds the old languages and the new one, and on a duplicate-free list
      either appends the language or changes nothing. */
  lemma WithLanguageSpec(languages: seq<string>, language: string)
    ensures Distinct(WithLanguage(languages, language))
    ensures forall v :: v in WithLanguage(languages, language) <==> v in languages || v == language
    ensures Distinct(languages) && language in languages ==> WithLanguage(languages, language) == languages
    ensures Distinct(languages) && language !in languages ==>
      WithLanguage(languages, language) == languages + [language]
  {
    if Distinct(languages) {
      DedupOfDistinct(languages);
      var s := languages + [language];
      assert s[..|s| - 1] == languages;
      if language !in languages {
        assert Distinct(s);
        DedupOfDistinct(s);
      }
    }
  }

  /** Adding the same language twice is adding it once. */
  lemma WithLanguageIdempotent(languages: seq<string>, language: string)
    ensures WithLanguage(WithLanguage(languages, language), language) == WithLanguage(languages, language)
  {
    var once := WithLanguage(languages, language);
    WithLanguageSpec(once, language);
  }

  /** The region toggle removes a selected region and appends an unselected one. */
  lemma ToggledRegionSpec(regions: seq<string>, region: string)
    ensures region in regions ==> region !in ToggledRegion(regions, region)
    ensures region in regions ==> forall v :: v in ToggledRegion(regions, region) <==> v in regions && v != region
    ensures region !in regions ==> ToggledRegion(regions, region) == regions + [region]
    ensures Distinct(regions) ==> Distinct(ToggledRegion(regions, region))
  {
    WithoutSpec(regions, region);
    if Distinct(regions) && region !in regions {
      assert Distinct(regions + [region]);
    }
  }

  /** Toggling an unselected region twice restores the list; toggling a
      selected one twice brings back the same regions, the toggled one last. */
  lemma ToggledRegionTwice(regions: seq<string>, region: string)
    ensures region !in regions ==> ToggledRegion(ToggledRegion(regions, region), region) == regions
    ensures region in regions ==>
      ToggledRegion(ToggledRegion(regions, region), region) == Without(regions, region) + [region]
    ensures forall v :: v in ToggledRegion(ToggledRegion(regions, region), region) <==> v in regions
  {
    WithoutSpec(regions, region);
    if region !in regions {
      var once := regions + [region];
      WithoutAppended(regions, region);
    }
  }

  /** Removing the value just appended to a list that lacked it restores the list. */
  lemma WithoutAppended(s: seq<string>, x: string)
    requires x !in s
    ensures Without(s + [x], x) == s
  {
    FilterAppend((v: string) => v != x, s, [x]);
    WithoutSpec(s, x);
  }

  /** A concrete case: toggling a selected region that is not the last one moves it to the end. */
  lemma ToggledRegionTwiceReorders()
    ensures ToggledRegion(ToggledRegion(["Asia", "Europe"], "Asia"), "Asia") == ["Europe", "Asia"]
  {
    WithoutSpec(["Asia", "Europe"], "Asia");
    assert Without(["Asia", "Europe"], "Asia") == ["Europe"];
  }

  /** Every action keeps both selections duplicate-free. */
  lemma ReducePreservesValid(state: SessionState, action: Action)
    requires Valid(state)
    ensures Valid(Reduce(state, action))
  {
    match action
    case AddLanguageFilter(l) => WithLanguageSpec(state.selectedLanguages, l);
    case RemoveLanguageFilter(l) => WithoutSpec(state.selectedLanguages, l);
    case AddRegionFilter(r) => ToggledRegionSpec(state.selectedRegions, r);
    case RemoveRegionFilter(r) => WithoutSpec(state.selectedRegions, r);
    case _ =>
  }

  /** `session/clearFilters` empties both selections and keeps the query and the sort key. */
  lemma ClearFiltersSpec(state: SessionState)
    ensures Reduce(state, ClearFilters) == SessionState(state.searchQuery, [], [], state.sortBy)
    ensures Valid(Reduce(state, ClearFilters))
  {
  }
}
