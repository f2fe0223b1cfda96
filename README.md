# Countries Explorer — verified model of the client-side state and filters

Countries Explorer is a browser application that lists countries from the
REST Countries catalog. Users can search, filter by region and language,
sort, compare up to three countries, keep favorites and see the countries
they recently viewed. This project models in Dafny the parts of it that are
logic rather than rendering or remote calls:

- the filter/sort engine of `src/utils/filters.util.js`: `sortCountries` and
  `getUniqueRegionsAndLanguages`;
- the query refinement and error mapping of `filterCountries`, and
  `getCountryDetails`, in `src/services/countries.service.js`. The HTTP
  client is abstracted as a function `catalog: Endpoint -> Response` from
  the four catalog endpoints to either a decoded list or a failure that
  carries the HTTP status and the value of `navigator.onLine`;
- the `session` reducer of `src/store/store.js` (search text, selected
  languages and regions, sort key) as a pure function over a state record;
- the Redux slices `compare`, `recentlyViewed`, `favorites`, `auth` and
  `theme`. Their reducers change a draft state in place, so each slice is a
  class whose methods update its fields. The list-changing actions are also
  given as functions (`Toggled`, `Recorded`), and the methods are proved to
  compute them. The slice invariants are proved about those functions.

Modules: one per source file, five helper modules (`Wrappers`, `Seqs`,
`Strings`, `Sorting`, `Countries`), and `Scenarios`, which replays the
repository's unit tests on the model and models no source file of its own:

| file | module | models |
|---|---|---|
| wrappers.dfy | `Wrappers` | `Option` (JavaScript `null`/`undefined`) and `Result` (a rejected promise) |
| seqs.dfy | `Seqs` | `Array.prototype.filter`, subsequences, duplicate-freedom, reversal |
| strings.dfy | `Strings` | string order and ASCII `toLowerCase` |
| sorting.dfy | `Sorting` | `Array.prototype.sort` with a comparator: a stable insertion sort on arrays, specified by `SortSeq` |
| countries.dfy | `Countries` | the country record and look-ups by `cca3` |
| filters.dfy | `Filters` | `src/utils/filters.util.js` |
| countries_service.dfy | `CountriesService` | `src/services/countries.service.js` |
| session.dfy | `Session` | the `session` reducer of `src/store/store.js` |
| compare_slice.dfy | `CompareSlice` | `src/store/compareSlice.store.js` |
| recently_viewed_slice.dfy | `RecentlyViewedSlice` | `src/store/recentlyViewedSlice.store.js` |
| favorites_slice.dfy | `FavoritesSlice` | `src/store/favoritesSlice.store.js` |
| auth_slice.dfy | `AuthSlice` | `src/store/authSlice.store.js` |
| theme_slice.dfy | `ThemeSlice` | `src/store/themeSlice.store.js` |
| scenarios.dfy | `Scenarios` | the expectations of the repository's unit tests, on the model |

Modelling choices:

- `localeCompare` and the default comparison of `.sort()` are both modelled
  as lexicographic order on Dafny characters, which are Unicode scalar
  values (`Strings.StrLe`). Locale collation is not modelled, and the
  UTF-16 code-unit order of the default `.sort()` differs from it only for
  characters at or above U+E000 (see "Left out").
- `Array.prototype.sort` is stable (ECMAScript 2019 and later). It is
  modelled as insertion sort, `Sorting.SortInPlace`, which runs in place on
  an array copied from the input. The method is proved equal to the sequence
  function `Sorting.SortSeq`. Permutation, sortedness, stability and
  idempotence are then proved about `SortSeq`.
- `toLowerCase` lowers the ASCII letters `A`–`Z` only.
- A missing `region` and an empty one are both `""`, because both are falsy
  in `if (country.region)`. A missing `languages` object is `None`.
- The `localStorage` copy of the signed-in user is the ghost field
  `AuthStore.storedUser`. The system dark-mode preference is a parameter of
  `ThemeStore.SetUseSystemTheme`.

## Model

| member | source | states |
|---|---|---|
| `Filters.SortCountries` | src/utils/filters.util.js:2-25 | the result is a permutation of the input; an unknown or missing key returns the input order; `name`/`nameDesc` give ascending/descending names, `population`/`populationDesc` non-decreasing/non-increasing population |
| `Filters.CountryLeTotalPreorder` | src/utils/filters.util.js:6-21 | each of the four comparators is total and transitive, which is what `sort` needs to produce a sorted result |
| `Filters.NameDescReversesName` | src/utils/filters.util.js:6-13 | for countries with distinct names, sorting the name-ascending order by `nameDesc` gives exactly its reverse |
| `Sorting.SortInPlace` | src/utils/filters.util.js:7-21 | sorting the copied array in place leaves it equal to `SortSeq` of its old contents |
| `Sorting.InsertInPlace` | src/utils/filters.util.js:7-21 | one insertion step shifts the element left past the strictly greater ones and touches nothing after it |
| `Sorting.SortSeqPermutes` | src/utils/filters.util.js:7-21 | the sorted list has the same elements, with the same multiplicities, as the input |
| `Sorting.SortSeqSorted` | src/utils/filters.util.js:7-21 | for a total preorder, every earlier element is ordered before every later one |
| `Sorting.SortSeqStable` | src/utils/filters.util.js:7-21 | elements that compare equal keep their input order |
| `Sorting.SortSeqIdempotent` | src/utils/filters.util.js:7-21 | sorting an already sorted list by the same key changes nothing |
| `Sorting.SortSeqOfSorted` | src/utils/filters.util.js:7-21 | a list already sorted by the comparator is returned unchanged |
| `Sorting.SortedPermutationUnique` | src/utils/filters.util.js:7-21 | two sorted permutations of each other are equal when ties occur only between equal elements |
| `Filters.SortedFromSet` | src/utils/filters.util.js:40-41 | `Array.from(set).sort()` lists exactly the set's elements, strictly increasing |
| `Filters.GetUniqueRegionsAndLanguages` | src/utils/filters.util.js:28-43 | `regions` is strictly increasing and holds exactly the non-empty regions; `languages` is strictly increasing and holds exactly the values of all `languages` maps; empty input gives two empty lists |
| `CountriesService.ErrorMessageCases` | src/services/countries.service.js:60-69 | each message corresponds to exactly one class of failure, in the order 404, 429, offline, anything else |
| `CountriesService.FilterCountries` | src/services/countries.service.js:26-71 | a non-empty query uses the name endpoint; otherwise exactly one region uses the lower-cased region endpoint, and any other count uses `/all`; a success is a subsequence of the response holding every copy of exactly the countries that pass the region filter (two or more regions) and the case-insensitive language filter; with at most one region and no language the response is returned unchanged; a failure yields its fixed message |
| `CountriesService.GetCountryDetails` | src/services/countries.service.js:20-23 | a failed request fails; a successful one yields element 0 of the response list, or nothing when the list is empty |
| `Session.Reduce` | src/store/store.js:33-83 | each action changes only its own field(s): query and sort key are replaced by the payload, `clearFilters` empties both lists, and an unknown action returns the state unchanged |
| `Session.InitialSessionValid` | src/store/store.js:9-14 | the initial session has an empty query, empty language and region lists and sort key `"name"` |
| `Session.Dedup` | src/store/store.js:43 | `[...new Set(s)]` is duplicate-free, has the same members as `s`, is a subsequence of it, and lists values in the order of their first occurrences |
| `Seqs.FilterCounts` | src/services/countries.service.js:43-56 | `filter` keeps every copy of each element that passes the test and no copy of one that fails it |
| `Session.DedupOfDistinct` | src/store/store.js:43 | a duplicate-free list is its own de-duplication |
| `Session.WithLanguageSpec` | src/store/store.js:38-45 | adding a language gives a duplicate-free list holding the old languages and the new one; on a duplicate-free list it appends an absent language and leaves the list alone for a present one |
| `Session.WithLanguageIdempotent` | src/store/store.js:38-45 | adding the same language twice equals adding it once |
| `Session.WithoutSpec` | src/store/store.js:46-53 | removal leaves no occurrence of the payload, keeps every other value in its relative order, keeps duplicate-freedom and is a no-op when the payload is absent (the same filter serves `removeRegionFilter`, lines 66-73) |
| `Session.ToggledRegionSpec` | src/store/store.js:54-65 | adding a selected region removes it; adding an unselected one appends it; duplicate-freedom is kept |
| `Session.ToggledRegionTwice` | src/store/store.js:54-65 | toggling an unselected region twice restores the list; toggling a selected one twice restores the same set of regions, with the region moved last |
| `Session.ToggledRegionTwiceReorders` | src/store/store.js:54-65 | a concrete case where toggling a selected region twice changes the order |
| `Session.WithoutAppended` | src/store/store.js:54-65 | removing a region just appended to a list that lacked it restores the list |
| `Session.ReducePreservesValid` | src/store/store.js:33-83 | every action keeps both selections duplicate-free |
| `Session.ClearFiltersSpec` | src/store/store.js:74-76 | `clearFilters` empties both lists and keeps query and sort key |
| `Countries.IndexOfCode` | src/store/compareSlice.store.js:13-15 | `findIndex` by `cca3` returns -1 exactly when no entry has the code, and otherwise the first matching index |
| `Countries.WithoutCodeSpec` | src/store/recentlyViewedSlice.store.js:14 | filtering out a code removes every entry with it, keeps the others in order and keeps codes distinct |
| `CompareSlice.ToggleRemovesPresent` | src/store/compareSlice.store.js:13-17 | toggling a present country removes one entry, the rest keep their order, and no entry with that code remains |
| `CompareSlice.ToggleAppendsAbsent` | src/store/compareSlice.store.js:18-19 | an absent country is appended when fewer than three are compared |
| `CompareSlice.ToggleIgnoresWhenFull` | src/store/compareSlice.store.js:18 | an absent country is ignored when three are compared |
| `CompareSlice.TogglePreservesValid` | src/store/compareSlice.store.js:7-20 | at most three entries with distinct codes stays true after a toggle |
| `CompareSlice.ToggleTwiceRestores` | src/store/compareSlice.store.js:13-20 | toggling an absent country twice, with room for it, restores the list |
| `CompareSlice.CompareStore.constructor` | src/store/compareSlice.store.js:6-9 | the comparison starts empty and closed |
| `CompareSlice.CompareStore.ToggleCompare` | src/store/compareSlice.store.js:12-21 | the list becomes `Toggled` of the old list; `isComparing` is unchanged; the invariant is kept |
| `CompareSlice.CompareStore.SetComparing` | src/store/compareSlice.store.js:23-25 | only `isComparing` changes |
| `CompareSlice.CompareStore.ClearComparison` | src/store/compareSlice.store.js:27-30 | the list is emptied and `isComparing` becomes false |
| `RecentlyViewedSlice.RecordedFront` | src/store/recentlyViewedSlice.store.js:12-19 | after viewing `c`, element 0 is `c`, it is the only entry with its code, and the other entries keep their relative order |
| `RecentlyViewedSlice.RecordedPreservesValid` | src/store/recentlyViewedSlice.store.js:7-18 | at most ten entries with distinct codes stays true |
| `RecentlyViewedSlice.RecordedMovesToFront` | src/store/recentlyViewedSlice.store.js:14-15 | re-viewing a listed country moves it to the front and keeps the length |
| `RecentlyViewedSlice.WithoutCodeCount` | src/store/recentlyViewedSlice.store.js:14 | filtering out a code held by exactly one entry shortens the list by one |
| `RecentlyViewedSlice.RecordedDropsOldest` | src/store/recentlyViewedSlice.store.js:16-18 | a new country viewed with ten listed drops the last entry |
| `RecentlyViewedSlice.RecordedPrependsNew` | src/store/recentlyViewedSlice.store.js:14-15 | a new country viewed with room is put in front of the unchanged list |
| `RecentlyViewedSlice.RecentlyViewedStore.constructor` | src/store/recentlyViewedSlice.store.js:6-8 | the history starts empty |
| `RecentlyViewedSlice.RecentlyViewedStore.AddRecentlyViewed` | src/store/recentlyViewedSlice.store.js:12-19 | the list becomes `Recorded` of the old list and the invariant is kept |
| `RecentlyViewedSlice.RecentlyViewedStore.ClearRecentlyViewed` | src/store/recentlyViewedSlice.store.js:21-23 | the list becomes empty |
| `FavoritesSlice.CountryCodes` | src/store/favoritesSlice.store.js:19 | the projection has the same length as the items, and entry `i` is item `i`'s `countryCode` |
| `FavoritesSlice.CountryCodesMembers` | src/store/favoritesSlice.store.js:19 | a code is listed exactly when some favorite carries it |
| `FavoritesSlice.FavoritesStore.constructor` | src/store/favoritesSlice.store.js:4-9 | empty items and ids, not loading, no error |
| `FavoritesSlice.FavoritesStore.SetFavorites` | src/store/favoritesSlice.store.js:17-22 | items become the payload, ids its projection, loading false and error null |
| `FavoritesSlice.FavoritesStore.SetLoading` | src/store/favoritesSlice.store.js:24-26 | only `loading` changes |
| `FavoritesSlice.FavoritesStore.SetError` | src/store/favoritesSlice.store.js:28-31 | the error is set, loading becomes false, items and ids are unchanged |
| `AuthSlice.AuthStore.constructor` | src/store/authSlice.store.js:7-12 | the user is the stored user or none, not loading, no error |
| `AuthSlice.AuthStore.LoginStart` | src/store/authSlice.store.js:15-18 | loading true, error cleared, user unchanged |
| `AuthSlice.AuthStore.LoginSuccess` | src/store/authSlice.store.js:20-24 | loading false, the user and the stored user become the payload, error untouched |
| `AuthSlice.AuthStore.LoginFailure` | src/store/authSlice.store.js:26-29 | loading false, error set, user unchanged |
| `AuthSlice.AuthStore.Logout` | src/store/authSlice.store.js:31-35 | user, error and stored user cleared; loading unchanged |
| `ThemeSlice.ThemeStore.constructor` | src/store/themeSlice.store.js:6-9 | light mode, following the system |
| `ThemeSlice.ThemeStore.SetDarkMode` | src/store/themeSlice.store.js:12-15 | dark mode becomes the argument and the system is no longer followed, whatever the prior state, so a repeated call changes nothing |
| `ThemeSlice.ThemeStore.SetUseSystemTheme` | src/store/themeSlice.store.js:17-22 | the system is followed and dark mode becomes its preference, whatever the prior state, so a repeated call changes nothing |
| `Scenarios.SortScenario` | src/__tests__/utils/filters.test.js:20-43 | the four sort keys order Brazil and Argentina as the unit tests expect |
| `Scenarios.FacetScenario` | src/__tests__/utils/filters.test.js:46-57 | the facets of Brazil and Argentina are `["Americas"]` and `["Portuguese", "Spanish"]`, and no countries give two empty lists |
| `Scenarios.SearchScenario` | src/__tests__/api/countries.test.js:35-47 | a name search with one region and one language returns the single Brazil record |
| `Scenarios.NotFoundScenario` | src/__tests__/api/countries.test.js:49-55 | a 404 rejects with the "couldn't find any countries" message |
| `Scenarios.ThemeScenario` | src/__tests__/store/themeSlice.test.js:10-33 | initial state, `setDarkMode(true)` and `setUseSystemTheme` with a dark system preference give the tested states |

## Left out

- HTTP: axios calls are replaced by the `catalog` parameter. `fetchCountries` and `searchCountries` (src/services/countries.service.js:8-17) only return a catalog response unchanged, so they are represented by the `All` and `Name` endpoints and not modelled as operations.
- `navigator.onLine` and `window.matchMedia` are inputs: a field of the failure, and a method parameter.
- CountriesService.FilterCountries: a country whose `region` is missing is modelled with region `""`, so it would pass the multi-region filter if `""` were selected; in JavaScript `regions.includes(undefined)` is false. The selected regions come from facets, which never contain `""`.
- Filters.SortedFromSet: the default `.sort()` compares UTF-16 code units, while `Strings.StrLe` compares Unicode scalar values; the two orders differ between characters above U+FFFF and characters in U+E000–U+FFFF, so for such region or language names the modelled order is not the source's.
- Strings.ToLower: lowers ASCII letters only, not full Unicode case mapping.
- Filters.SortCountries: `localeCompare` is lexicographic character order, not locale collation.
- `localStorage` persistence: the session preload and the write-through subscription of src/store/store.js:17-28 and 95-105, and JSON (de)serialisation in the auth slice. Only the stored user is kept, as a ghost field.
- Redux dispatch, action creators and Immer's draft copying: each reducer case is a method or a function called directly.
- Asynchronous orchestration: the debounce, minimum loading time and superseded-cycle discarding of the listing page, and the favorites subscription lifetimes, are timers and foreign asynchronous calls.
- Rendering, routing, the login and signup forms and their error tables.
