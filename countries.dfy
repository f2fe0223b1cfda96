/** The country record of the remote catalog, reduced to the fields the core reads. */
module Countries {
  import opened Wrappers
  import opened Seqs

  /** `name` is `name.common`. A missing or empty `region` is the empty
      string; a missing `languages` object is `None`. */
  datatype Country = Country(
    cca3: string,
    name: string,
    population: int,
    region: string,
    languages: Option<map<string, string>>)

  /** `Object.values(country.languages)`, as a set; nothing when it is missing. */
  function LanguageValues(c: Country): set<string> {
    if c.languages.Some? then c.languages.value.Values else {}
  }

  predicate HasCode(cs: seq<Country>, code: string) {
    exists k :: 0 <= k < |cs| && cs[k].cca3 == code
  }

  /** No two entries share a `cca3`. */
  predicate DistinctCodes(cs: seq<Country>) {
    forall i, j :: 0 <= i < j < |cs| ==> cs[i].cca3 != cs[j].cca3
  }

  /** `cs.findIndex(c => c.cca3 === code)`: the first match, or -1. */
  function IndexOfCode(cs: seq<Country>, code: string): (r: int)
    ensures -1 <= r < |cs|
    ensures r == -1 <==> !HasCode(cs, code)
    ensures r >= 0 ==> cs[r].cca3 == code && forall k :: 0 <= k < r ==> cs[k].cca3 != code
  {
    if cs == [] then -1
    else if cs[0].cca3 == code then 0
    else
      var k := IndexOfCode(cs[1..], code);
      assert forall m :: 0 < m < |cs| ==> cs[m] == cs[1..][m - 1];
      if k == -1 then -1 else k + 1
  }

  /** `cs.filter(c => c.cca3 !== code)`. */
  function WithoutCode(cs: seq<Country>, code: string): seq<Country> {
    Filter((c: Country) => c.cca3 != code, cs)
  }

  /** Removing a code leaves none with it, keeps every other entry and their order. */
  lemma WithoutCodeSpec(cs: seq<Country>, code: string)
    ensures !HasCode(WithoutCode(cs, code), code)
    ensures forall c :: c in WithoutCode(cs, code) <==> c in cs && c.cca3 != code
    ensures IsSubseq(WithoutCode(cs, code), cs)
    ensures DistinctCodes(cs) ==> DistinctCodes(WithoutCode(cs, code))
    ensures !HasCode(cs, code) ==> WithoutCode(cs, code) == cs
  {
    var r := WithoutCode(cs, code);
    FilterIsSubseq((c: Country) => c.cca3 != code, cs);
    forall k | 0 <= k < |r| ensures r[k].cca3 != code {
      assert r[k] in r;
    }
    if DistinctCodes(cs) {
      SubseqDistinctCodes(r, cs);
    }
    if !HasCode(cs, code) {
      forall c | c in cs ensures c.cca3 != code {
        var k :| 0 <= k < |cs| && cs[k] == c;
      }
      FilterKeepsAll((c: Country) => c.cca3 != code, cs);
    }
  }

  /** A subsequence of a list with distinct codes has distinct codes. */
  lemma {:induction false} SubseqDistinctCodes(a: seq<Country>, b: seq<Country>)
    requires IsSubseq(a, b) && DistinctCodes(b)
    ensures DistinctCodes(a)
    decreases |b|
  {
    if a != [] {
      assert DistinctCodes(b[1..]) by {
        forall i, j | 0 <= i < j < |b[1..]| ensures b[1..][i].cca3 != b[1..][j].cca3 {
          assert b[1..][i] == b[i + 1] && b[1..][j] == b[j + 1];
        }
      }
      if a[0] == b[0] {
        SubseqDistinctCodes(a[1..], b[1..]);
        SubseqMembers(a[1..], b[1..]);
        forall i, j | 0 <= i < j < |a| ensures a[i].cca3 != a[j].cca3 {
          if i == 0 {
            assert a[j] == a[1..][j - 1];
            assert a[j] in b[1..];
            var k :| 0 <= k < |b[1..]| && b[1..][k] == a[j];
            assert b[k + 1] == a[j];
          } else {
            assert a[i] == a[1..][i - 1] && a[j] == a[1..][j - 1];
          }
        }
      } else {
        SubseqDistinctCodes(a, b[1..]);
      }
    }
  }
}
