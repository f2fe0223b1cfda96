/** `src/services/countries.service.js`: the calls to the REST Countries
    catalog. HTTP is abstracted: `catalog` gives the response the service
    returns for each endpoint. */
module CountriesService {
  import opened Wrappers
  import opened Seqs
  import opened Strings
  import opened Countries
  import opened Filters

  /** The endpoints under `https://restcountries.com/v3.1`: `/all`,
      `/name/{name}`, `/region/{region}` and `/alpha/{code}`. */
  datatype Endpoint = All | Name(name: string) | Region(region: string) | Alpha(code: string)

  /** The outcome of one GET: the decoded list of countries, or a rejection,
      with the HTTP status when a response arrived (`error.response?.status`)
      and the value of `navigator.onLine` when the rejection is handled. */
  datatype Response = Ok(data: seq<Country>) | Fail(status: Option<int>, online: bool)

  const NotFoundMessage := "We couldn't find any countries matching your search. Try adjusting your search terms or filters."
  const TooManyRequestsMessage := "Too many requests. Please try again later."
  const OfflineMessage := "No internet connection. Please check your network."
  const GenericMessage := "Failed to load countries. Please try again later."

  /** The message of the error `filterCountries` rethrows for a failed request. */
  function ErrorMessage(status: Option<int>, online: bool): string {
    if status == Some(404) then NotFoundMessage
    else if status == Some(429) then TooManyRequestsMessage
    else if !online then OfflineMessage
    else GenericMessage
  }

  /** Each message belongs to exactly one class of failures, tested in the
      order 404, 429, offline, anything else. */
  lemma ErrorMessageCases(status: Option<int>, online: bool)
    ensures ErrorMessage(status, online) == NotFoundMessage <==> status == Some(404)
    ensures ErrorMessage(status, online) == TooManyRequestsMessage <==> status == Some(429)
    ensures ErrorMessage(status, online) == OfflineMessage
        <==> status != Some(404) && status != Some(429) && !online
    ensures ErrorMessage(status, online) == GenericMessage
        <==> status != Some(404) && status != Some(429) && online
  {
  }

  /** The client-side region test, applied when two or more regions are selected. */
  predicate InSelectedRegions(c: Country, regions: seq<string>) {
    c.region in regions
  }

  /** The client-side language test: some language of the country equals,
      ignoring case, some selected language. A country without `languages` fails it. */
  predicate SpeaksSelected(c: Country, languages: seq<string>) {
    && c.languages.Some?
    && exists lang :: lang in c.languages.value.Values
         && exists selected :: selected in languages && ToLower(lang) == ToLower(selected)
  }

  /** Whether a country of the response survives both client-side filters. */
  predicate Kept(c: Country, regions: seq<string>, languages: seq<string>) {
    && (|regions| > 1 ==> InSelectedRegions(c, regions))
    && (|languages| > 0 ==> SpeaksSelected(c, languages))
  }

  /** What `filterCountries` resolves or rejects with, given the response. */
  ghost predicate Answers(result: Result<seq<Country>, string>, response: Response,
                          regions: seq<string>, languages: seq<string>)
  {
    match response
    case Fail(status, online) => result == Failure(ErrorMessage(status, online))
    case Ok(data) =>
      && result.Success?
      && IsSubseq(result.value, data)
      && (forall c :: c in result.value <==> c in data && Kept(c, regions, languages))
      && (forall c :: multiset(result.value)[c] == if Kept(c, regions, languages) then multiset(data)[c] else 0)
      && (|regions| <= 1 && |languages| == 0 ==> result.value == data)
  }

  /** `filtered` keeps, of `data`, every copy of each element satisfying
      `keep` and nothing else, in the order of `data`. */
  ghost predicate Refined(filtered: seq<Country>, data: seq<Country>, keep: Country -> bool) {
    && IsSubseq(filtered, data)
    && forall c :: multiset(filtered)[c] == if keep(c) then multiset(data)[c] else 0
  }

  lemma RefinedStart(data: seq<Country>)
    ensures Refined(data, data, c => true)
  {
    SubseqRefl(data);
  }

  /** Filtering a refinement of `data` again refines it by both tests. */
  lemma RefinedStep(filtered: seq<Country>, data: seq<Country>, keep: Country -> bool, p: Country -> bool)
    requires Refined(filtered, data, keep)
    ensures Refined(Filter(p, filtered), data, c => keep(c) && p(c))
  {
    FilterIsSubseq(p, filtered);
    SubseqTrans(Filter(p, filtered), filtered, data);
    FilterCounts(p, filtered);
  }

  /** A refinement holds an element exactly when `data` does and it passes `keep`. */
  lemma RefinedMembers(filtered: seq<Country>, data: seq<Country>, keep: Country -> bool)
    requires Refined(filtered, data, keep)
    ensures forall c :: c in filtered <==> c in data && keep(c)
  {
    forall c ensures c in filtered <==> c in data && keep(c) {
      assert c in filtered <==> multiset(filtered)[c] > 0;
      assert c in data <==> multiset(data)[c] > 0;
    }
  }

  /** `filterCountries`: picks the narrowest endpoint, refines the response
      on the client and maps failures to fixed messages. */
  method FilterCountries(searchQuery: string, regions: seq<string>, languages: seq<string>,
                         catalog: Endpoint -> Response)
    returns (result: Result<seq<Country>, string>)
    ensures searchQuery != "" ==>
      Answers(result, catalog(Name(searchQuery)), regions, languages)
    ensures searchQuery == "" && |regions| == 1 ==>
      Answers(result, catalog(Region(ToLower(regions[0]))), regions, languages)
    ensures searchQuery == "" && |regions| != 1 ==>
      Answers(result, catalog(All), regions, languages)
  {
    var endpoint: Endpoint;
    if searchQuery != "" {
      endpoint := Name(searchQuery);
    } else if |regions| == 1 {
      endpoint := Region(ToLower(regions[0]));
    } else {
      endpoint := All;
    }
    var response := catalog(endpoint);
    match response
    case Fail(status, online) =>
      result := Failure(ErrorMessage(status, online));
    case Ok(data) =>
      var filteredData := data;
      ghost var keep: Country -> bool := c => true;
      RefinedStart(data);
      if |regions| > 1 {
        var byRegion := (c: Country) => InSelectedRegions(c, regions);
        RefinedStep(filteredData, data, keep, byRegion);
        filteredData := Filter(byRegion, filteredData);
        keep := c => InSelectedRegions(c, regions);
      }
      if |languages| > 0 {
        var byLanguage := (c: Country) => SpeaksSelected(c, languages);
        RefinedStep(filteredData, data, keep, byLanguage);
        filteredData := Filter(byLanguage, filteredData);
        ghost var before := keep;
        keep := c => before(c) && SpeaksSelected(c, languages);
      }
      assert forall c :: keep(c) == Kept(c, regions, languages);
      RefinedMembers(filteredData, data, keep);
      var sorted := SortCountries(filteredData, None);
      result := Success(sorted);
  }

  /** `getCountryDetails`: the first record of the `/alpha/{code}` response
      (`undefined`, here `None`, when the list is empty); a failed request
      is passed on with its status. */
  function GetCountryDetails(code: string, catalog: Endpoint -> Response): (r: Result<Option<Country>, Option<int>>)
    ensures catalog(Alpha(code)).Fail? <==> r.Failure?
    ensures r.Failure? ==> r.error == catalog(Alpha(code)).status
    ensures r.Success? ==> (r.value.Some? <==> catalog(Alpha(code)).data != [])
    ensures r.Success? && r.value.Some? ==>
      r.value.value == catalog(Alpha(code)).data[0] && r.value.value in catalog(Alpha(code)).data
  {
    match catalog(Alpha(code))
    case Fail(status, _) => Failure(status)
    case Ok(data) => Success(if data == [] then None else Some(data[0]))
  }
}
