/** `src/store/recentlyViewedSlice.store.js`: the last countries whose
    details were opened, most recent first. */
module RecentlyViewedSlice {
  import opened Seqs
  import opened Countries

  /** The length the history is trimmed back to. */
  const MaxRecent := 10

  /** The list after `addRecentlyViewed(c)`: entries with `c`'s code are
      filtered out, `c` is put in front, and one entry is popped off the end
      if the list then exceeds ten. */
  function Recorded(cs: seq<Country>, c: Country): seq<Country> {
    var moved := [c] + WithoutCode(cs, c.cca3);
    if |moved| > MaxRecent then moved[..|moved| - 1] else moved
  }

  /** At most ten entries, no code twice. */
  predicate ValidHistory(cs: seq<Country>) {
    |cs| <= MaxRecent && DistinctCodes(cs)
  }

  /** `c` comes first and is the only entry with its code; the others keep
      their relative order. */
  lemma RecordedFront(cs: seq<Country>, c: Country)
    ensures Recorded(cs, c) != [] && Recorded(cs, c)[0] == c
    ensures forall k :: 0 <= k < |Recorded(cs, c)| ==> (Recorded(cs, c)[k].cca3 == c.cca3 <==> k == 0)
    ensures IsSubseq(Recorded(cs, c)[1..], cs)
  {
    var rest := WithoutCode(cs, c.cca3);
    WithoutCodeSpec(cs, c.cca3);
    var r := Recorded(cs, c);
    assert r[1..] == rest[..|r| - 1];
    PrefixIsSubseq(rest, |r| - 1);
    SubseqTrans(r[1..], rest, cs);
    forall k | 0 < k < |r| ensures r[k].cca3 != c.cca3 {
      assert r[k] == rest[k - 1];
    }
  }

  /** A prefix is a subsequence. */
  lemma {:induction false} PrefixIsSubseq(s: seq<Country>, n: nat)
    requires n <= |s|
    ensures IsSubseq(s[..n], s)
  {
    if n > 0 {
      PrefixIsSubseq(s[1..], n - 1);
      assert s[..n][1..] == s[1..][..n - 1];
    }
  }

  /** Recording keeps at most ten entries with distinct codes. */
  lemma RecordedPreservesValid(cs: seq<Country>, c: Country)
    requires ValidHistory(cs)
    ensures ValidHistory(Recorded(cs, c))
  {
    WithoutCodeSpec(cs, c.cca3);
    RecordedFront(cs, c);
    var r := Recorded(cs, c);
    var rest := WithoutCode(cs, c.cca3);
    forall i, j | 0 <= i < j < |r| ensures r[i].cca3 != r[j].cca3 {
      if i > 0 {
        assert r[i] == rest[i - 1] && r[j] == rest[j - 1];
      }
    }
  }

  /** Viewing a country already in a valid history moves it to the front
      and keeps the length. */
  lemma RecordedMovesToFront(cs: seq<Country>, c: Country)
    requires ValidHistory(cs) && HasCode(cs, c.cca3)
    ensures Recorded(cs, c) == [c] + WithoutCode(cs, c.cca3)
    ensures |Recorded(cs, c)| == |cs|
  {
    WithoutCodeCount(cs, c.cca3);
  }

  /** Removing a code that occurs exactly once shortens the list by one. */
  lemma {:induction false} WithoutCodeCount(cs: seq<Country>, code: string)
    requires DistinctCodes(cs) && HasCode(cs, code)
    ensures |WithoutCode(cs, code)| == |cs| - 1
  {
    assert cs != [];
    var tail := cs[1..];
    assert DistinctCodes(tail) by {
      forall i, j | 0 <= i < j < |tail| ensures tail[i].cca3 != tail[j].cca3 {
        assert tail[i] == cs[i + 1] && tail[j] == cs[j + 1];
      }
    }
    if cs[0].cca3 == code {
      assert !HasCode(tail, code) by {
        forall k | 0 <= k < |tail| ensures tail[k].cca3 != code { assert tail[k] == cs[k + 1]; }
      }
      WithoutCodeSpec(tail, code);
    } else {
      var k :| 0 <= k < |cs| && cs[k].cca3 == code;
      assert tail[k - 1] == cs[k];
      WithoutCodeCount(tail, code);
    }
  }

  /** A new country viewed with ten already in the history drops the oldest. */
  lemma RecordedDropsOldest(cs: seq<Country>, c: Country)
    requires !HasCode(cs, c.cca3) && |cs| == MaxRecent
    ensures Recorded(cs, c) == [c] + cs[..MaxRecent - 1]
  {
    WithoutCodeSpec(cs, c.cca3);
  }

  /** A new country viewed with room to spare is simply put in front. */
  lemma RecordedPrependsNew(cs: seq<Country>, c: Country)
    requires !HasCode(cs, c.cca3) && |cs| < MaxRecent
    ensures Recorded(cs, c) == [c] + cs
  {
    WithoutCodeSpec(cs, c.cca3);
  }

  /** The recently-viewed slice of the store. */
  class RecentlyViewedStore {
    var countries: seq<Country>

    ghost predicate Valid()
      reads this
    {
      ValidHistory(countries)
    }

    constructor()
      ensures Valid() && countries == []
    {
      countries := [];
    }

    /** `addRecentlyViewed`. */
    method AddRecentlyViewed(country: Country)
      modifies this
      ensures countries == Recorded(old(countries), country)
      ensures old(Valid()) ==> Valid()
    {
      countries := WithoutCode(countries, country.cca3);
      countries := [country] + countries;
      if |countries| > MaxRecent {
        countries := countries[..|countries| - 1];
      }
      if old(Valid()) {
        RecordedPreservesValid(old(countries), country);
      }
    }

    /** `clearRecentlyViewed`. */
    method ClearRecentlyViewed()
      modifies this
      ensures countries == [] && Valid()
    {
      countries := [];
    }
  }
}
