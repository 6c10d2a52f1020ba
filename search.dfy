/**
  searchAddresses as a function of the dataset, the query and the user's
  location: the short-query cut-off, the case-insensitive prefix filter on
  four keys, the optional stable ordering by distance and the cap of five.
 */
module Search {
  import opened Records
  import opened JsText
  import opened Ranking

  /** Queries shorter than this return no results without a scan. */
  const MinQueryLength: nat := 2
  /** At most this many results are returned and cached. */
  const MaxResults: nat := 5

  /**
    The ranking key that the user's location induces on a record's
    coordinates: a stand-in for the squared equirectangular distance from
    the user, of which only the order matters.
   */
  type DistanceKey = Coords -> int

  /** A record's distance key. */
  function RankOf(key: DistanceKey): Place -> int {
    (p: Place) => key(p.coords)
  }

  /**
    The full-street key: house number, a space and road, lower-cased. The
    fields are not defaulted, so a missing one contributes "undefined": the
    key of a record without a house number starts with "undefined ".
   */
  function FullStreetKey(a: Address): (r: string)
    ensures |r| == |Concatenated(a.houseNumber)| + 1 + |Concatenated(a.road)|
    ensures var s := Concatenated(a.houseNumber) + " " + Concatenated(a.road);
            forall i :: 0 <= i < |r| ==> r[i] == LowerChar(s[i])
    ensures Lower(r) == r
    ensures a.houseNumber.None? ==> r[..10] == "undefined "
  {
    var s := Concatenated(a.houseNumber) + " " + Concatenated(a.road);
    LowerIdempotent(s);
    if a.houseNumber.None? then
      assert s == "undefined " + Concatenated(a.road);
      LowerAppend("undefined ", Concatenated(a.road));
      LowerOfLowercase("undefined ");
      Lower(s)
    else
      Lower(s)
  }

  /** The road key: the road (missing as ""), lower-cased, one character per character of the road. */
  function RoadKey(a: Address): (r: string)
    ensures |r| == |OrElse(a.road, "")|
    ensures forall i :: 0 <= i < |r| ==> r[i] == LowerChar(OrElse(a.road, "")[i])
    ensures Lower(r) == r
    ensures !Truthy(a.road) ==> r == ""
  {
    LowerIdempotent(OrElse(a.road, ""));
    Lower(OrElse(a.road, ""))
  }

  /** The city key: the raw city field (missing as ""), lower-cased; town and village are not consulted. */
  function CityKey(a: Address): (r: string)
    ensures |r| == |OrElse(a.city, "")|
    ensures forall i :: 0 <= i < |r| ==> r[i] == LowerChar(OrElse(a.city, "")[i])
    ensures Lower(r) == r
    ensures !Truthy(a.city) ==> r == ""
  {
    LowerIdempotent(OrElse(a.city, ""));
    Lower(OrElse(a.city, ""))
  }

  /** The postcode key: the postcode (missing as "") in its own case, not lower-cased. */
  function PostcodeKey(a: Address): (r: string)
    ensures a.postcode.Some? ==> r == a.postcode.value
    ensures a.postcode.None? ==> r == ""
  {
    OrElse(a.postcode, "")
  }

  /**
    The filter callback: `q` (already lower-cased) is at index 0 of one of
    the four keys, that is, `q` is a prefix of one of them; an occurrence
    anywhere but at the start does not count.
   */
  predicate Matches(a: Address, q: string)
    ensures Matches(a, q) <==>
              || q <= FullStreetKey(a)
              || q <= RoadKey(a)
              || q <= CityKey(a)
              || q <= PostcodeKey(a)
  {
    IndexOfZeroIffPrefix(FullStreetKey(a), q);
    IndexOfZeroIffPrefix(RoadKey(a), q);
    IndexOfZeroIffPrefix(CityKey(a), q);
    IndexOfZeroIffPrefix(PostcodeKey(a), q);
    || IndexOf(FullStreetKey(a), q) == 0
    || IndexOf(RoadKey(a), q) == 0
    || IndexOf(CityKey(a), q) == 0
    || IndexOf(PostcodeKey(a), q) == 0
  }

  /**
    The full-street, road and city tests are case-insensitive prefix tests
    on the field text: the query, lower-cased, must equal the lower-cased
    start of the text as long as the query.
   */
  lemma KeysArePrefixTestsIgnoringCase(a: Address, query: string)
    ensures var s := Concatenated(a.houseNumber) + " " + Concatenated(a.road);
            Lower(query) <= FullStreetKey(a) <==> |query| <= |s| && Lower(query) == Lower(s[..|query|])
    ensures var s := OrElse(a.road, "");
            Lower(query) <= RoadKey(a) <==> |query| <= |s| && Lower(query) == Lower(s[..|query|])
    ensures var s := OrElse(a.city, "");
            Lower(query) <= CityKey(a) <==> |query| <= |s| && Lower(query) == Lower(s[..|query|])
  {
    var full := Concatenated(a.houseNumber) + " " + Concatenated(a.road);
    assert FullStreetKey(a) == Lower(full);
    LowerPrefix(full, query);
    assert RoadKey(a) == Lower(OrElse(a.road, ""));
    LowerPrefix(OrElse(a.road, ""), query);
    assert CityKey(a) == Lower(OrElse(a.city, ""));
    LowerPrefix(OrElse(a.city, ""), query);
  }

  /** addresses.filter(...): the matching records, in dataset order. */
  function Filtered(ps: seq<Place>, q: string): (r: seq<Place>)
    reads ps
    ensures multiset(r) <= multiset(ps)
    ensures forall p :: p in r ==> Matches(p.address, q)
    ensures forall p :: p in ps && Matches(p.address, q) ==> p in r
  {
    if ps == [] then []
    else
      var rest := Filtered(ps[1..], q);
      assert ps == [ps[0]] + ps[1..];
      assert forall p :: p in ps ==> p == ps[0] || p in ps[1..];
      (if Matches(ps[0].address, q) then [ps[0]] else []) + rest
  }

  /** The matches ordered by distance when a location is known, left in dataset order otherwise. */
  function Ranked(matched: seq<Place>, location: Option<DistanceKey>): (r: seq<Place>)
    ensures multiset(r) == multiset(matched) && |r| == |matched|
    ensures location.None? ==> r == matched
    ensures location.Some? ==> SortedBy(r, RankOf(location.value))
  {
    match location
    case None => matched
    case Some(key) =>
      var r := SortBy(matched, RankOf(key));
      assert |multiset(r)| == |multiset(matched)|;
      r
  }

  /** Filtering a concatenation filters each part: the kept records stay in dataset order. */
  lemma {:induction false} FilteredAppend(ps: seq<Place>, qs: seq<Place>, q: string)
    ensures Filtered(ps + qs, q) == Filtered(ps, q) + Filtered(qs, q)
  {
    if ps == [] {
      assert ps + qs == qs;
    } else {
      assert (ps + qs)[1..] == ps[1..] + qs;
      FilteredAppend(ps[1..], qs, q);
    }
  }

  /** A single record is kept exactly when it matches. */
  lemma FilteredSingle(p: Place, q: string)
    ensures Filtered([p], q) == (if Matches(p.address, q) then [p] else [])
  {
    assert [p][1..] == [];
  }

  /**
    searchAddresses(query): no results for a query shorter than two
    characters; otherwise the first five of the ranked matches of the
    lower-cased query. Every result is a dataset record that matches.
   */
  function SearchResults(ps: seq<Place>, query: string, location: Option<DistanceKey>): (r: seq<Place>)
    reads ps
    ensures |r| <= MaxResults
    ensures |query| < MinQueryLength ==> r == []
    ensures |query| >= MinQueryLength ==>
              var n := |Filtered(ps, Lower(query))|;
              |r| == (if n <= MaxResults then n else MaxResults)
    ensures forall p :: p in r ==> p in ps && Matches(p.address, Lower(query))
  {
    if |query| < MinQueryLength then []
    else
      var matched := Filtered(ps, Lower(query));
      var ranked := Ranked(matched, location);
      var r := Take(ranked, MaxResults);
      assert forall p :: p in r ==> p in ranked;
      assert forall p :: p in ranked ==> p in multiset(matched);
      r
  }

  /**
    Without a location the results are the first min(5, |matches|) matches,
    in dataset order.
   */
  lemma UnrankedResultsArePrefix(ps: seq<Place>, query: string)
    requires |query| >= MinQueryLength
    ensures var m := Filtered(ps, Lower(query));
            var r := SearchResults(ps, query, None);
            |r| == (if |m| <= MaxResults then |m| else MaxResults) && r == m[..|r|]
  {
  }

  /** When at most five records match, all of them are returned, with or without a location. */
  lemma FewMatchesAllReturned(ps: seq<Place>, query: string, location: Option<DistanceKey>)
    requires |query| >= MinQueryLength
    requires |Filtered(ps, Lower(query))| <= MaxResults
    ensures multiset(SearchResults(ps, query, location)) == multiset(Filtered(ps, Lower(query)))
    ensures forall p :: p in ps && Matches(p.address, Lower(query)) ==> p in SearchResults(ps, query, location)
  {
    var m := Filtered(ps, Lower(query));
    var r := SearchResults(ps, query, location);
    assert multiset(r) == multiset(m);
    forall p | p in ps && Matches(p.address, Lower(query)) ensures p in r {
      assert p in m;
      assert p in multiset(m);
    }
  }

  /** With a location the results come in non-decreasing order of distance. */
  lemma RankedResultsAreSorted(ps: seq<Place>, query: string, key: DistanceKey)
    ensures SortedBy(SearchResults(ps, query, Some(key)), RankOf(key))
  {
    if |query| >= MinQueryLength {
      var sorted := SortBy(Filtered(ps, Lower(query)), RankOf(key));
      var r := SearchResults(ps, query, Some(key));
      assert r == sorted[..|r|];
    }
  }

  /**
    With a location the results are the nearest matches: no matching record
    left out is closer than any record returned.
   */
  lemma RankedResultsAreNearest(ps: seq<Place>, query: string, key: DistanceKey)
    requires |query| >= MinQueryLength
    ensures var r := SearchResults(ps, query, Some(key));
            forall p, i :: p in Filtered(ps, Lower(query)) && p !in r && 0 <= i < |r| ==>
              key(r[i].coords) <= key(p.coords)
  {
    var m := Filtered(ps, Lower(query));
    var sorted := SortBy(m, RankOf(key));
    var r := SearchResults(ps, query, Some(key));
    assert r == sorted[..|r|];
    assert forall k :: 0 <= k < |r| ==> r[k] == sorted[k];
    forall p, i | p in m && p !in r && 0 <= i < |r| ensures key(r[i].coords) <= key(p.coords) {
      assert p in multiset(sorted);
      var j :| 0 <= j < |sorted| && sorted[j] == p;
      assert RankOf(key)(sorted[i]) <= RankOf(key)(sorted[j]);
    }
  }

  /**
    With a location, records at the same distance keep their dataset order:
    for every distance, the results at that distance are the first matches
    at that distance, in dataset order.
   */
  lemma RankedTiesKeepDatasetOrder(ps: seq<Place>, query: string, key: DistanceKey, k: int)
    requires |query| >= MinQueryLength
    ensures KeyClass(SearchResults(ps, query, Some(key)), RankOf(key), k)
            <= KeyClass(Filtered(ps, Lower(query)), RankOf(key), k)
  {
    var m := Filtered(ps, Lower(query));
    var sorted := SortBy(m, RankOf(key));
    var r := SearchResults(ps, query, Some(key));
    assert r == sorted[..|r|];
    KeyClassOfPrefix(sorted, |r|, RankOf(key), k);
    SortByIsStable(m, RankOf(key), k);
  }

  /**
    The full-street key does not default a missing house number: any such
    record matches every query whose lower-cased form is a prefix of
    "undefined " (for one, "un" or "UNDEF"), whatever its road.
   */
  lemma MissingHouseNumberMatchesUndefined(a: Address, query: string)
    requires a.houseNumber.None?
    requires Lower(query) <= "undefined "
    ensures Matches(a, Lower(query))
  {
    var k := FullStreetKey(a);
    assert Lower(query) <= k[..10];
  }

  /**
    The postcode is compared in its own case against the lower-cased query,
    so a postcode that starts with an upper-case letter never matches
    through the postcode key.
   */
  lemma UpperCasePostcodeNeverPrefix(a: Address, query: string)
    requires Truthy(a.postcode) && 'A' <= a.postcode.value[0] <= 'Z'
    requires query != ""
    ensures !(Lower(query) <= PostcodeKey(a))
  {
  }
}
