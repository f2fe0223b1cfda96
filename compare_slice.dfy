/** `src/store/compareSlice.store.js`: up to three countries shown side by
    side, and whether the comparison view is open. */
module CompareSlice {
  import opened Seqs
  import opened Countries

  /** The most countries the comparison holds. */
  const MaxCompared := 3

  /** The list after `toggleCompare(c)`: the entry with `c`'s code is
      spliced out if there is one; otherwise `c` is pushed when there is room. */
  function Toggled(cs: seq<Country>, c: Country): seq<Country> {
    var i := IndexOfCode(cs, c.cca3);
    if i > -1 then cs[..i] + cs[i + 1..]
    else if |cs| < MaxCompared then cs + [c]
    else cs
  }

  /** At most three entries, no code twice. */
  predicate ValidComparison(cs: seq<Country>) {
    |cs| <= MaxCompared && DistinctCodes(cs)
  }

  /** A present country is removed; the others stay, in order. */
  lemma ToggleRemovesPresent(cs: seq<Country>, c: Country)
    requires HasCode(cs, c.cca3)
    ensures |Toggled(cs, c)| == |cs| - 1
    ensures IsSubseq(Toggled(cs, c), cs)
    ensures forall d :: d in Toggled(cs, c) && d.cca3 != c.cca3 <==> d in cs && d.cca3 != c.cca3
    ensures DistinctCodes(cs) ==> !HasCode(Toggled(cs, c), c.cca3)
  {
    var i := IndexOfCode(cs, c.cca3);
    var r := Toggled(cs, c);
    assert r == cs[..i] + cs[i + 1..];
    SpliceIsSubseq(cs, i);
    forall d | d in cs && d.cca3 != c.cca3 ensures d in r {
      var k :| 0 <= k < |cs| && cs[k] == d;
      if k < i { assert r[k] == d; } else { assert k > i && r[k - 1] == d; }
    }
    SubseqMembers(r, cs);
    if DistinctCodes(cs) {
      forall k | 0 <= k < |r| ensures r[k].cca3 != c.cca3 {
        if k < i { assert r[k] == cs[k]; } else { assert r[k] == cs[k + 1]; }
      }
    }
  }

  /** Splicing out one element leaves a subsequence. */
  lemma SpliceIsSubseq(cs: seq<Country>, i: nat)
    requires i < |cs|
    ensures IsSubseq(cs[..i] + cs[i + 1..], cs)
  {
    var tail := cs[i + 1..];
    SubseqRefl(tail);
    SubseqConsRight(tail, tail, cs[i]);
    assert cs[i..] == [cs[i]] + tail;
    SpliceIsSubseqPrefix(cs[..i], cs[i..], tail);
    assert cs[..i] + cs[i..] == cs;
  }

  lemma {:induction false} SpliceIsSubseqPrefix(p: seq<Country>, a: seq<Country>, b: seq<Country>)
    requires IsSubseq(b, a)
    ensures IsSubseq(p + b, p + a)
    decreases |p|
  {
    if p != [] {
      SpliceIsSubseqPrefix(p[1..], a, b);
      assert (p + b)[0] == p[0] && (p + b)[1..] == p[1..] + b;
      assert (p + a)[0] == p[0] && (p + a)[1..] == p[1..] + a;
    } else {
      assert p + b == b && p + a == a;
    }
  }

  /** An absent country is appended while there are fewer than three. */
  lemma ToggleAppendsAbsent(cs: seq<Country>, c: Country)
    requires !HasCode(cs, c.cca3) && |cs| < MaxCompared
    ensures Toggled(cs, c) == cs + [c]
  {
  }

  /** An absent country is ignored when three are already compared. */
  lemma ToggleIgnoresWhenFull(cs: seq<Country>, c: Country)
    requires !HasCode(cs, c.cca3) && |cs| >= MaxCompared
    ensures Toggled(cs, c) == cs
  {
  }

  /** Toggling keeps at most three entries with distinct codes. */
  lemma TogglePreservesValid(cs: seq<Country>, c: Country)
    requires ValidComparison(cs)
    ensures ValidComparison(Toggled(cs, c))
  {
    if HasCode(cs, c.cca3) {
      ToggleRemovesPresent(cs, c);
      SubseqDistinctCodes(Toggled(cs, c), cs);
    } else if |cs| < MaxCompared {
      var r := cs + [c];
      forall i, j | 0 <= i < j < |r| ensures r[i].cca3 != r[j].cca3 {
        if j == |cs| { assert r[i] == cs[i]; }
      }
    }
  }

  /** Toggling an absent country twice, with room for it, restores the list. */
  lemma ToggleTwiceRestores(cs: seq<Country>, c: Country)
    requires !HasCode(cs, c.cca3) && |cs| < MaxCompared
    ensures Toggled(Toggled(cs, c), c) == cs
  {
    var once := cs + [c];
    assert IndexOfCode(once, c.cca3) == |cs| by {
      forall k | 0 <= k < |cs| ensures once[k].cca3 != c.cca3 { assert once[k] == cs[k]; }
      assert once[|cs|].cca3 == c.cca3;
      var i := IndexOfCode(once, c.cca3);
      assert i >= 0;
      assert !(i < |cs|);
    }
    assert once[..|cs|] == cs;
  }

  /** The comparison slice of the store. */
  class CompareStore {
    var countries: seq<Country>
    var isComparing: bool

    ghost predicate Valid()
      reads this
    {
      ValidComparison(countries)
    }

    constructor()
      ensures Valid()
      ensures countries == [] && !isComparing
    {
      countries := [];
      isComparing := false;
    }

    /** `toggleCompare`. */
    method ToggleCompare(country: Country)
      modifies this
      ensures countries == Toggled(old(countries), country)
      ensures isComparing == old(isComparing)
      ensures old(Valid()) ==> Valid()
    {
      var countryIndex := IndexOfCode(countries, country.cca3);
      if countryIndex > -1 {
        countries := countries[..countryIndex] + countries[countryIndex + 1..];
      } else if |countries| < MaxCompared {
        countries := countries + [country];
      }
      if old(Valid()) {
        TogglePreservesValid(old(countries), country);
      }
    }

    /** `setComparing`. */
    method SetComparing(comparing: bool)
      modifies this
      ensures isComparing == comparing
      ensures countries == old(countries)
    {
      isComparing := comparing;
    }

    /** `clearComparison`. */
    method ClearComparison()
      modifies this
      ensures countries == [] && !isComparing
      ensures Valid()
    {
      countries := [];
      isComparing := false;
    }
  }
}
