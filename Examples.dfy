/**
  A worked example of the dashboard's derivations on three breweries, two of
  them micro breweries whose names start with "Hop".
 */
module Examples {
  import opened Collections
  import opened Text
  import opened App

  const HoppyBrew := Brewery("1", Some("Hoppy Brew"), Some("micro"), "", "CA")
  const BigBrewery := Brewery("2", Some("Big Brewery"), Some("large"), "", "CA")
  const HopHouse := Brewery("3", Some("Hop House"), Some("micro"), "", "TX")

  /** Searching "hop" with no type selected keeps the first and third brewery. */
  lemma SearchHop()
    ensures FilterBreweries([HoppyBrew, BigBrewery, HopHouse], "hop", "") == [HoppyBrew, HopHouse]
  {
    HoppyBrewMatchesHop();
    BigBreweryMissesHop();
    HopHouseMatchesHop();
    KeepFirstAndLast(HoppyBrew, BigBrewery, HopHouse, "hop", "");
  }

  /** "Hoppy Brew" lowers to a name starting with "hop". */
  lemma HoppyBrewMatchesHop()
    ensures Keeps(HoppyBrew, "hop", "")
  {
    NameStartsWithTerm(HoppyBrew, "hop", 'H', 'o', 'p');
  }

  /** "Big Brewery" has no h in either case, so "hop" is not found. */
  lemma BigBreweryMissesHop()
    ensures !Keeps(BigBrewery, "hop", "")
  {
    NameLacksLetter(BigBrewery, "hop", 'h');
  }

  /** "Hop House" lowers to a name starting with "hop". */
  lemma HopHouseMatchesHop()
    ensures Keeps(HopHouse, "hop", "")
  {
    NameStartsWithTerm(HopHouse, "hop", 'H', 'o', 'p');
  }

  /** The selector offers "micro" then "large": the second "micro" is not repeated. */
  lemma SelectorTypes()
    ensures UniqueTypes([HoppyBrew, BigBrewery, HopHouse]) == ["micro", "large"]
  {
    ExampleTruthyTypes();
    DistinctMicroLargeMicro();
  }

  /** All three types are truthy, so `filter(Boolean)` keeps them all. */
  lemma ExampleTruthyTypes()
    ensures KeepTruthy(BreweryTypes([HoppyBrew, BigBrewery, HopHouse])) == ["micro", "large", "micro"]
  {
    TruthyTypesOfThree(HoppyBrew, BigBrewery, HopHouse);
  }

  /** The set skips the repeated "micro". */
  lemma DistinctMicroLargeMicro()
    ensures Distinct(["micro", "large", "micro"]) == ["micro", "large"]
  {
  }

  /** A name whose first three characters lower to a three-letter search term matches it. */
  lemma NameStartsWithTerm(b: Brewery, term: string, c0: char, c1: char, c2: char)
    requires b.name.Some? && |b.name.value| >= 3
    requires b.name.value[0] == c0 && b.name.value[1] == c1 && b.name.value[2] == c2
    requires term == [LowerChar(c0), LowerChar(c1), LowerChar(c2)]
    ensures NameMatch(b, term)
  {
  }

  /** A lower-case term whose first letter the name lacks in both cases does not match it. */
  lemma NameLacksLetter(b: Brewery, term: string, c: char)
    requires b.name.Some? && 'a' <= c <= 'z'
    requires term != [] && term[0] == c && IsLower(term)
    requires c !in b.name.value && (c as int - 'a' as int + 'A' as int) as char !in b.name.value
    ensures !NameMatch(b, term)
  {
    ToLowerIsLower(term);
    LowerAbsent(b.name.value, c);
    IncludesNeedsFirstChar(ToLower(b.name.value), term);
  }

  /** Of three breweries, keeping the first and last and dropping the middle one gives those two. */
  lemma KeepFirstAndLast(r1: Brewery, r2: Brewery, r3: Brewery, searchTerm: string, filterType: string)
    requires Keeps(r1, searchTerm, filterType) && !Keeps(r2, searchTerm, filterType)
    requires Keeps(r3, searchTerm, filterType)
    ensures FilterBreweries([r1, r2, r3], searchTerm, filterType) == [r1, r3]
  {
  }

  /** Three breweries with truthy types contribute those three types, in order. */
  lemma TruthyTypesOfThree(r1: Brewery, r2: Brewery, r3: Brewery)
    requires Truthy(r1.breweryType) && Truthy(r2.breweryType) && Truthy(r3.breweryType)
    ensures KeepTruthy(BreweryTypes([r1, r2, r3])) ==
      [r1.breweryType.value, r2.breweryType.value, r3.breweryType.value]
  {
    var types := BreweryTypes([r1, r2, r3]);
    assert types == [r1.breweryType, r2.breweryType, r3.breweryType];
    var t1, t2, t3 := types[1..], types[2..], types[3..];
    assert t1 == [r2.breweryType, r3.breweryType] && t2 == [r3.breweryType] && t3 == [];
    assert t1[1..] == t2 && t2[1..] == t3;
    assert KeepTruthy(t2) == [r3.breweryType.value];
    assert KeepTruthy(t1) == [r2.breweryType.value] + KeepTruthy(t2);
  }
}
