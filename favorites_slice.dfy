/** `src/store/favoritesSlice.store.js`: the signed-in user's favorites, as
    last delivered by the remote subscription, and their country codes. */
module FavoritesSlice {
  import opened Wrappers

  /** One favorite document: the country it marks and the document id. */
  datatype Favorite = Favorite(countryCode: string, favoriteId: string)

  /** `items.map(item => item.countryCode)`. */
  function CountryCodes(items: seq<Favorite>): (ids: seq<string>)
    ensures |ids| == |items|
    ensures forall i :: 0 <= i < |items| ==> ids[i] == items[i].countryCode
  {
    if items == [] then [] else [items[0].countryCode] + CountryCodes(items[1..])
  }

  /** A code is listed exactly when some favorite carries it. */
  lemma CountryCodesMembers(items: seq<Favorite>, code: string)
    ensures code in CountryCodes(items) <==> exists f :: f in items && f.countryCode == code
  {
    var ids := CountryCodes(items);
    if code in ids {
      var i :| 0 <= i < |ids| && ids[i] == code;
      assert items[i] in items;
    }
    if exists f :: f in items && f.countryCode == code {
      var f :| f in items && f.countryCode == code;
      var i :| 0 <= i < |items| && items[i] == f;
      assert ids[i] == code;
    }
  }

  /** The favorites slice of the store. */
  class FavoritesStore {
    var items: seq<Favorite>
    var favoriteIds: seq<string>
    var loading: bool
    var error: Option<string>

    /** `favoriteIds` is always the projection of `items`. */
    ghost predicate Valid()
      reads this
    {
      favoriteIds == CountryCodes(items)
    }

    constructor()
      ensures Valid()
      ensures items == [] && favoriteIds == [] && !loading && error == None
    {
      items := [];
      favoriteIds := [];
      loading := false;
      error := None;
    }

    /** `setFavorites`: replaces the whole projection with a new snapshot. */
    method SetFavorites(payload: seq<Favorite>)
      modifies this
      ensures items == payload && favoriteIds == CountryCodes(payload)
      ensures !loading && error == None
      ensures Valid()
    {
      items := payload;
      favoriteIds := CountryCodes(payload);
      loading := false;
      error := None;
    }

    /** `setLoading`. */
    method SetLoading(isLoading: bool)
      modifies this
      ensures loading == isLoading
      ensures items == old(items) && favoriteIds == old(favoriteIds) && error == old(error)
      ensures old(Valid()) ==> Valid()
    {
      loading := isLoading;
    }

    /** `setError`: records the error and ends loading; the favorites stay. */
    method SetError(message: string)
      modifies this
      ensures error == Some(message) && !loading
      ensures items == old(items) && favoriteIds == old(favoriteIds)
      ensures old(Valid()) ==> Valid()
    {
      error := Some(message);
      loading := false;
    }
  }
}
