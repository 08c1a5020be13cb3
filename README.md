# Brewery dashboard: filter and type-selector derivations

The dashboard's `App` component (`src/App.jsx`) fetches a list of breweries and
derives two things from it on every render:

- the **filtered list** (lines 26-30): a brewery is shown when its name, lower-cased,
  contains the lower-cased search term, and, when a type is selected in the
  drop-down, its `brewery_type` is exactly that type;
- the **unique types** (line 32): the distinct truthy `brewery_type` values, in the
  order in which they first appear, which populate the type drop-down.

The counters "Total Breweries", "Filtered" and "Types" (lines 56-60) are the lengths
of the fetched list and of these two derivations.

This project lifts both derivations out of the component as pure Dafny functions
of the brewery list, the search term and the selected type, and proves what they
promise: the filtered list is the input with the predicate applied, in order; the
type list has no duplicates, holds exactly the present non-empty types, and is in
first-seen order.

Files and modules:

- `Text.dfy`, module `Text`: `String.prototype.toLowerCase` (ASCII lowering) and
  `String.prototype.includes` (a left-to-right search), with the lemma that
  `includes` is true exactly when the needle occurs at some position.
- `Collections.dfy`, module `Collections`: optional values, `filter(Boolean)` over
  optional strings, and `[...new Set(xs)]` as `Distinct`, with its first-seen order
  and the lemma that no duplicates, the same elements and first-seen order determine
  it completely.
- `App.dfy`, module `App`: the brewery record, the filter predicate,
  `FilterBreweries`, `UniqueTypes`, the counters, and the lemmas about them.
- `Examples.dfy`, module `Examples`: a three-brewery example ("Hoppy Brew", micro;
  "Big Brewery", large; "Hop House", micro): searching "hop" keeps the first and
  third, and the drop-down offers "micro" then "large".

One might expect an empty search box to show every brewery. In the code it does
not: a brewery without a `name` is never shown, even when the search term is
empty, because `brewery.name?.toLowerCase()` is `undefined` and therefore falsy
(line 27). The lemma `App.FilterNothingSelected` states that an empty search with
no type selected shows the whole list exactly when every brewery has a name, and
`App.NamelessNeverKept` states that a nameless brewery is always dropped.

## Model

| member | source | states |
|---|---|---|
| `Text.LowerChar` | src/App.jsx:27 | lowering changes a character exactly when it is an upper-case ASCII letter, and never yields one |
| `Text.ToLower` | src/App.jsx:27 | `toLowerCase` keeps the length and lowers every character in place |
| `Text.ToLowerIsLower` | src/App.jsx:27 | a lowered string has no upper-case letter, and a string is its own lowering exactly when it has none |
| `Text.ToLowerIdempotent` | src/App.jsx:27 | lowering twice is lowering once, so lowering the term and the name again changes nothing |
| `Text.LowerAbsent` | src/App.jsx:27 | a lower-case letter absent from a string in both cases is absent from its lowering |
| `Text.Includes` | src/App.jsx:27 | `includes`: tries the needle at each position from the left; the empty needle and the haystack itself are always found |
| `Text.IncludesIffOccurs` | src/App.jsx:27 | `includes` is true if and only if the needle occurs at some position of the haystack |
| `Text.IncludesNoLonger` | src/App.jsx:27 | a term longer than the name is never found |
| `Text.IncludesNeedsFirstChar` | src/App.jsx:27 | a term whose first character is not in the name is never found |
| `Collections.Truthy` | src/App.jsx:32 | `Boolean` on an optional string: true only for a present, non-empty string, and for every such string |
| `Collections.KeepTruthy` | src/App.jsx:32 | `filter(Boolean)` keeps exactly the present non-empty strings and is no longer than its input |
| `Collections.KeepTruthyFirstIndexMonotone` | src/App.jsx:32 | `filter(Boolean)` preserves the relative order of first occurrences |
| `Collections.Distinct` | src/App.jsx:32 | the spread set has no duplicates, holds exactly the elements of its input, and is no longer than it |
| `Collections.DistinctFirstSeenOrder` | src/App.jsx:32 | the spread set lists elements in the order of their first occurrence |
| `Collections.DistinctCharacterized` | src/App.jsx:32 | any duplicate-free sequence of the same elements in first-seen order equals the spread set |
| `App.NameMatch` | src/App.jsx:27 | the name test: a missing name never matches (the `?.` short-circuit gives `undefined`), and any present name matches the empty term |
| `App.TypeMatch` | src/App.jsx:28 | the type test: no selected type accepts every brewery; a selected type accepts exactly the breweries whose `brewery_type` equals it |
| `App.Keeps` | src/App.jsx:29 | the filter predicate: a kept brewery has a name and, when a type is selected, that type; with an empty term and no type every named brewery is kept |
| `App.FilterBreweries` | src/App.jsx:26-30 | a brewery is in the filtered list if and only if it is in the input and passes both tests; the list is no longer than the input |
| `App.FilterIsSubsequence` | src/App.jsx:26-30 | the filtered list is a subsequence of the input: original relative order kept |
| `App.FilterCounts` | src/App.jsx:26-30 | each brewery that passes occurs as often as in the input, each that fails not at all |
| `App.KeptBreweriesMatch` | src/App.jsx:27-29 | every shown brewery has a name whose lowering contains the lowered term at some position, and has the selected type when one is selected |
| `App.NamelessNeverKept` | src/App.jsx:27-29 | a brewery without a name is never shown, for any search term including the empty one |
| `App.FilterNothingSelected` | src/App.jsx:26-30 | with an empty term and no type, the list is shown unchanged if and only if every brewery in it has a name |
| `App.FilterByTypeOnly` | src/App.jsx:28 | with an empty term and a selected type, exactly the named breweries of that type are shown |
| `App.FilterByAbsentType` | src/App.jsx:28 | selecting a type no brewery has shows nothing |
| `App.FilterIdempotent` | src/App.jsx:26-30 | filtering the filtered list again with the same inputs changes nothing |
| `App.FilterCaseInsensitive` | src/App.jsx:27 | a search term shows the same breweries as its lower-cased form |
| `App.BreweryTypes` | src/App.jsx:32 | `breweries.map((b) => b.brewery_type)`: one entry per brewery, holding that brewery's type |
| `App.TypesListed` | src/App.jsx:32 | a type occurs in `breweries.map(b => b.brewery_type)` exactly when some brewery has it |
| `App.UniqueTypes` | src/App.jsx:32 | the drop-down types have no duplicates, no empty or missing type, are exactly the non-empty types some brewery has, and are no more than the breweries |
| `App.UniqueTypesFirstSeenOrder` | src/App.jsx:32 | the drop-down lists types in the order of the first brewery having each |
| `App.SelectableTypeFindsBrewery` | src/App.jsx:28-32 | choosing any drop-down type with an empty search shows at least one brewery when all breweries have names |
| `App.DashboardStats` | src/App.jsx:56-60 | the "Filtered" and "Types" counters are the lengths of the two derivations and never exceed "Total Breweries" |
| `Examples.SearchHop` | src/App.jsx:26-30 | searching "hop" in the three-brewery example shows "Hoppy Brew" and "Hop House", in that order |
| `Examples.SelectorTypes` | src/App.jsx:32 | the three-brewery example's drop-down offers "micro" then "large" |

## Left out

- The fetch effect (src/App.jsx:9-24): one network request, JSON decoding and console logging; the fetched list is a parameter of every function instead.
- React state hooks and rendering (src/App.jsx:5-7, 34-72): the search term and selected type are plain parameters; the list items and their `key` are presentation.
- `src/Detail.jsx`: fetches and renders one brewery by id; it holds no derivation to model.
- Per-type counts and top-N states by count: `src/App.jsx` has no such aggregation (and no charts), so there is nothing to model.
- Text.ToLower: lowers only the ASCII letters A-Z; the full Unicode case mapping of `toLowerCase` (including characters that lower to more than one code unit) is not modelled.
- Non-string field values: a `name` or `brewery_type` that is a number or object (which would make `toLowerCase` throw or `===` compare by type) is outside the model; the optional fields are `Option<string>`, with `None` standing for both `undefined` and `null`.
- Strings are sequences of `char`; JavaScript's UTF-16 code units and surrogate pairs are not distinguished.
