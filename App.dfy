/**
  The derivations of the brewery dashboard's `App` component, lifted out of the
  component as pure functions of the fetched list and the two UI inputs: the
  filtered list shown to the user, the distinct brewery types offered in the type
  selector, and the three counters derived from them.
 */
module App {
  import opened Collections
  import opened Text

  /** One brewery as returned by the API; `name` and `brewery_type` may be missing. */
  datatype Brewery = Brewery(
    id: string,
    name: Option<string>,
    breweryType: Option<string>,
    city: string,
    state: string)

  /**
    `brewery.name?.toLowerCase().includes(searchTerm.toLowerCase())`: a missing
    name yields `undefined`, which is falsy, whatever the search term.
   */
  predicate NameMatch(b: Brewery, searchTerm: string)
    ensures NameMatch(b, searchTerm) ==> b.name.Some?
    ensures b.name.Some? && searchTerm == "" ==> NameMatch(b, searchTerm)
  {
    match b.name
    case None => false
    case Some(n) => Includes(ToLower(n), ToLower(searchTerm))
  }

  /** `filterType ? brewery.brewery_type === filterType : true`. */
  predicate TypeMatch(b: Brewery, filterType: string)
    ensures filterType == "" ==> TypeMatch(b, filterType)
    ensures filterType != "" ==> (TypeMatch(b, filterType) <==> b.breweryType == Some(filterType))
  {
    if filterType != "" then b.breweryType == Some(filterType) else true
  }

  /** The predicate handed to `breweries.filter`. */
  predicate Keeps(b: Brewery, searchTerm: string, filterType: string)
    ensures Keeps(b, searchTerm, filterType) ==> b.name.Some?
    ensures Keeps(b, searchTerm, filterType) && filterType != "" ==> b.breweryType == Some(filterType)
    ensures b.name.Some? && searchTerm == "" && filterType == "" ==> Keeps(b, searchTerm, filterType)
  {
    NameMatch(b, searchTerm) && TypeMatch(b, filterType)
  }

  /** `filteredBreweries`: the breweries that pass both tests, in their original order. */
  function FilterBreweries(breweries: seq<Brewery>, searchTerm: string, filterType: string): (r: seq<Brewery>)
    ensures |r| <= |breweries|
    ensures forall b :: b in r <==> b in breweries && Keeps(b, searchTerm, filterType)
  {
    if breweries == [] then []
    else
      var rest := FilterBreweries(breweries[1..], searchTerm, filterType);
      assert forall b :: b in breweries <==> b == breweries[0] || b in breweries[1..];
      if Keeps(breweries[0], searchTerm, filterType) then [breweries[0]] + rest else rest
  }

  /** The filtered list keeps the input's relative order. */
  lemma {:induction false} FilterIsSubsequence(breweries: seq<Brewery>, searchTerm: string, filterType: string)
    ensures IsSubsequence(FilterBreweries(breweries, searchTerm, filterType), breweries)
  {
    if breweries != [] {
      FilterIsSubsequence(breweries[1..], searchTerm, filterType);
      var r := FilterBreweries(breweries, searchTerm, filterType);
      if r != [] && !Keeps(breweries[0], searchTerm, filterType) {
        assert r == FilterBreweries(breweries[1..], searchTerm, filterType);
      }
    }
  }

  /**
    The filtered list is exactly the input with the predicate applied: a record that
    passes is kept as often as it occurs, one that fails is dropped.
   */
  lemma {:induction false} FilterCounts(breweries: seq<Brewery>, searchTerm: string, filterType: string)
    ensures forall b ::
      multiset(FilterBreweries(breweries, searchTerm, filterType))[b] ==
      (if Keeps(b, searchTerm, filterType) then multiset(breweries)[b] else 0)
  {
    if breweries != [] {
      FilterCounts(breweries[1..], searchTerm, filterType);
      assert breweries == [breweries[0]] + breweries[1..];
    }
  }

  /**
    Every kept brewery has a name whose lower-cased form contains the lower-cased
    search term at some position, and, when a type is selected, has exactly that type.
   */
  lemma KeptBreweriesMatch(breweries: seq<Brewery>, searchTerm: string, filterType: string, b: Brewery)
    requires b in FilterBreweries(breweries, searchTerm, filterType)
    ensures b.name.Some?
    ensures exists i: nat :: i <= |b.name.value| && OccursAt(ToLower(b.name.value), ToLower(searchTerm), i)
    ensures filterType != "" ==> b.breweryType == Some(filterType)
  {
    IncludesIffOccurs(ToLower(b.name.value), ToLower(searchTerm));
  }

  /** A brewery without a name is never listed, even when the search box is empty. */
  lemma NamelessNeverKept(breweries: seq<Brewery>, searchTerm: string, filterType: string, b: Brewery)
    requires b.name.None?
    ensures b !in FilterBreweries(breweries, searchTerm, filterType)
  {
  }

  /**
    With an empty search term and no type selected, the list is shown unchanged
    exactly when every brewery in it has a name.
   */
  lemma {:induction false} FilterNothingSelected(breweries: seq<Brewery>)
    ensures FilterBreweries(breweries, "", "") == breweries <==> forall b :: b in breweries ==> b.name.Some?
  {
    if breweries != [] && forall b :: b in breweries ==> b.name.Some? {
      FilterNothingSelected(breweries[1..]);
    }
  }

  /** With an empty search term, a selected type keeps exactly the named breweries of that type. */
  lemma FilterByTypeOnly(breweries: seq<Brewery>, filterType: string)
    requires filterType != ""
    ensures forall b :: b in FilterBreweries(breweries, "", filterType) <==>
      b in breweries && b.name.Some? && b.breweryType == Some(filterType)
  {
  }

  /** Selecting a type that no brewery has empties the list. */
  lemma FilterByAbsentType(breweries: seq<Brewery>, searchTerm: string, filterType: string)
    requires filterType != ""
    requires forall b :: b in breweries ==> b.breweryType != Some(filterType)
    ensures FilterBreweries(breweries, searchTerm, filterType) == []
  {
  }

  /** Filtering an already filtered list with the same inputs changes nothing. */
  lemma {:induction false} FilterIdempotent(breweries: seq<Brewery>, searchTerm: string, filterType: string)
    ensures var r := FilterBreweries(breweries, searchTerm, filterType);
      FilterBreweries(r, searchTerm, filterType) == r
  {
    if breweries != [] {
      FilterIdempotent(breweries[1..], searchTerm, filterType);
    }
  }

  /** The search ignores ASCII case: a search term finds what its lower-cased form finds. */
  lemma {:induction false} FilterCaseInsensitive(breweries: seq<Brewery>, searchTerm: string, filterType: string)
    ensures FilterBreweries(breweries, searchTerm, filterType) ==
      FilterBreweries(breweries, ToLower(searchTerm), filterType)
  {
    ToLowerIdempotent(searchTerm);
    if breweries != [] {
      FilterCaseInsensitive(breweries[1..], searchTerm, filterType);
    }
  }

  /** `breweries.map((b) => b.brewery_type)`. */
  function BreweryTypes(breweries: seq<Brewery>): (types: seq<Option<string>>)
    ensures |types| == |breweries|
    ensures forall i :: 0 <= i < |breweries| ==> types[i] == breweries[i].breweryType
  {
    seq(|breweries|, i requires 0 <= i < |breweries| => breweries[i].breweryType)
  }

  /** Some brewery in the list has type `t`. */
  predicate HasType(breweries: seq<Brewery>, t: string)
  {
    exists i :: 0 <= i < |breweries| && breweries[i].breweryType == Some(t)
  }

  /** A type occurs in the mapped list exactly when some brewery has it. */
  lemma TypesListed(breweries: seq<Brewery>)
    ensures forall t :: Some(t) in BreweryTypes(breweries) <==> HasType(breweries, t)
  {
  }

  /** Index of the first brewery of type `t`. */
  function FirstOfType(breweries: seq<Brewery>, t: string): (i: nat)
    requires HasType(breweries, t)
    ensures i < |breweries| && breweries[i].breweryType == Some(t)
    ensures forall j :: 0 <= j < i ==> breweries[j].breweryType != Some(t)
  {
    TypesListed(breweries);
    FirstIndex(BreweryTypes(breweries), Some(t))
  }

  /**
    `uniqueTypes`: `[...new Set(breweries.map((b) => b.brewery_type).filter(Boolean))]`,
    the options of the type selector.
   */
  function UniqueTypes(breweries: seq<Brewery>): (u: seq<string>)
    ensures NoDuplicates(u)
    ensures forall t :: t in u <==> t != "" && HasType(breweries, t)
    ensures |u| <= |breweries|
  {
    TypesListed(breweries);
    Distinct(KeepTruthy(BreweryTypes(breweries)))
  }

  /** The selector lists types in the order in which the list first shows them. */
  lemma UniqueTypesFirstSeenOrder(breweries: seq<Brewery>)
    ensures var u := UniqueTypes(breweries);
      forall i, j :: 0 <= i < j < |u| ==> FirstOfType(breweries, u[i]) < FirstOfType(breweries, u[j])
  {
    var types := BreweryTypes(breweries);
    var truthy := KeepTruthy(types);
    var u := UniqueTypes(breweries);
    DistinctFirstSeenOrder(truthy);
    forall i, j | 0 <= i < j < |u|
      ensures FirstOfType(breweries, u[i]) < FirstOfType(breweries, u[j])
    {
      KeepTruthyFirstIndexMonotone(types, u[i], u[j]);
    }
  }

  /** Picking a selector option with an empty search shows at least one brewery, provided names are present. */
  lemma SelectableTypeFindsBrewery(breweries: seq<Brewery>, t: string)
    requires t in UniqueTypes(breweries)
    requires forall b :: b in breweries ==> b.name.Some?
    ensures FilterBreweries(breweries, "", t) != []
  {
  }

  /** The three counters shown under the controls. */
  datatype Stats = Stats(total: nat, filtered: nat, types: nat)

  /** "Total Breweries", "Filtered" and "Types": neither derived counter exceeds the total. */
  function DashboardStats(breweries: seq<Brewery>, searchTerm: string, filterType: string): (s: Stats)
    ensures s.total == |breweries|
    ensures s.filtered == |FilterBreweries(breweries, searchTerm, filterType)|
    ensures s.types == |UniqueTypes(breweries)|
    ensures s.filtered <= s.total && s.types <= s.total
  {
    Stats(|breweries|, |FilterBreweries(breweries, searchTerm, filterType)|, |UniqueTypes(breweries)|)
  }
}
