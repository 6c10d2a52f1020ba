# Address search and confirm engine, modelled in Dafny

This project models the core of `app.js`, a prototype address picker. The user types a query. The script searches a static dataset of geocoder-style address records, optionally ordering the matches by distance from the user. The user selects one record and may edit its street line, city, state and zip inline. On confirm, the record is handed off in a canonical "Flex" shape.

The model has eight modules, one per file:

- `JsText` (`text.dfy`): the JavaScript string primitives the engine relies on. These are `trim`, `toLowerCase`, `indexOf`, `split(' ')` and `join(' ')`. Trim is characterised by what it keeps and drops and is proved idempotent. Lower-casing is proved idempotent and to distribute over concatenation. `indexOf` is proved to find the first occurrence. Split and join are proved to round-trip.
- `Records` (`records.dfy`): the record shape.
  - An `Address` of optional text fields; a field the record lacks is `None`.
  - JavaScript's `x || d` (`OrElse`), `||` chains (`FirstTruthy`), and the `"undefined"` that `+` prints for a missing field (`Concatenated`).
  - `Place`, the record as a heap object, so that aliasing stays visible.
- `Normalizer` (`normalizer.dfy`): `getStreetLine`, `getCityLine` and `toFlexShape`.
- `Ranking` (`ranking.dfy`):
  - The stable sort by a numeric key, as `Array.prototype.sort` with the comparator `key(a) - key(b)`.
  - `slice(0, n)`.
- `Search` (`search.dfy`): `searchAddresses` as a function of the dataset, the query and the user's location. It covers the short-query cut-off, the prefix filter on four keys, the ordering by distance and the cap of five.
- `Editing` (`editing.dfy`): what the edit-open handler puts in the form and what the save handler writes back.
- `App` (`session.dfy`): the module-level state as a `Session` class. Its methods are the handlers: the search input, clear, `selectAddress`, `goBackToSearch`, edit-open, save-edit and confirm. The search is `searchAddresses` itself, with its write to the `lastResults` cache.
- `Walkthrough` (`walkthrough.dfy`): whole sessions built from those methods. They show that an edit made through the selection is seen through the dataset and the cached results.

Points where the code is followed as written:

- `selectAddress` keeps a reference to the record, not a copy. The save handler therefore edits the very record held by the dataset and by `lastResults`.
- The full-street search key does not default a missing field, so it contains the text `"undefined"`.
- The city search key reads `city` only, with no fallback to `town` or `village`.
- The postcode key is not lower-cased.
- There are no cancel or reset operations.
- With nothing selected, the edit-open and save handlers fail on their first access to the selection, so they change nothing. The model returns `false` from them in that case.

## Model

| member | source | states |
|---|---|---|
| JsText.Trim | app.js:52 | the result neither starts nor ends with whitespace |
| JsText.TrimIsInfix | app.js:52 | the trimmed text occurs in the input with only whitespace before and after it |
| JsText.TrimStartIsSuffix | app.js:52 | stripping the start keeps a suffix and drops only whitespace |
| JsText.TrimEndIsPrefix | app.js:52 | stripping the end keeps a prefix and drops only whitespace |
| JsText.TrimOfTrimmed | app.js:52 | text with no whitespace at either end is left unchanged by trim |
| JsText.TrimIdempotent | app.js:372 | trimming twice equals trimming once |
| JsText.TrimStartAppend | app.js:52 | stripping the start of `s + t` strips through `t` when `s` is all whitespace, otherwise only within `s` |
| JsText.TrimAppendWhitespace | app.js:52 | a trailing whitespace character is removed by trim |
| JsText.TrimPrependWhitespace | app.js:52 | a leading whitespace character is removed by trim |
| JsText.LowerChar | app.js:86 | A-Z and the Latin-1 capitals U+00C0-U+00DE except U+00D7 map 32 code points up, every other character stays as it is, and the result is never an ASCII upper-case letter |
| JsText.Lower | app.js:86 | lower-casing keeps the length and maps each character by `LowerChar` |
| JsText.LowerIdempotent | app.js:90-92 | lower-casing twice equals lower-casing once |
| JsText.LowerAppend | app.js:90 | lower-casing distributes over concatenation |
| JsText.LowerPrefix | app.js:90-94 | the lower-cased query is a prefix of the lower-cased text exactly when the query is no longer than the text and lower-cases like the text's start of the same length |
| JsText.LowerOfLowercase | app.js:86 | text without upper-case letters is its own lower case |
| JsText.IndexOf | app.js:94 | the result is -1 or an index where the query occurs, and no earlier index has an occurrence |
| JsText.IndexOfZeroIffPrefix | app.js:94 | `indexOf(q) === 0` holds exactly when `q` is a prefix |
| JsText.Split | app.js:372 | there is at least one piece, and no piece contains the separator |
| JsText.SplitSingleIffSepFree | app.js:372 | the split has a single piece exactly when the text has no separator |
| JsText.JoinSplit | app.js:372-374 | joining the pieces of a split gives back the text |
| JsText.Join | app.js:374 | joining starts with the first piece, followed by the separator when there is more than one piece; no pieces give "" |
| JsText.SplitJoin | app.js:372-374 | splitting a join of separator-free pieces gives back the pieces |
| JsText.HeadRestOfSplit | app.js:372-374 | the first piece, a separator and the rejoined rest spell the text, and text without a separator splits to itself |
| Records.OrElse | app.js:50-51 | the default expression is the field's text when it is truthy and `d` otherwise; with the default "" a present field reads as its own text |
| Records.Concatenated | app.js:90 | `+` renders a present field as its text and a missing one as the nine characters "undefined" |
| Records.FirstTruthy | app.js:56 | an or-chain of fields yields "" exactly when no field is truthy, and otherwise the value of the first truthy field |
| Records.Place.constructor | app.js:414 | a loaded record holds the given address and coordinates |
| Normalizer.StreetLine | app.js:49-53 | the street line is trimmed |
| Normalizer.CityName | app.js:56 | the display locality is the first truthy of city, town and village |
| Normalizer.FlexCity | app.js:66 | the hand-off locality is the first truthy of city and town |
| Normalizer.CityLine | app.js:55-60 | the city line starts with the display locality and a space, holds the state next, then ", " and the postcode, and is three characters longer than those parts |
| Normalizer.ToFlexShape | app.js:62-70 | the hand-off shape holds the trimmed street line, the unit, the first truthy of city and town, and the state and postcode, each "" when missing |
| Normalizer.StreetLineOfParts | app.js:49-53 | with both parts present and trimmed, the street line is number, space, road |
| Normalizer.StreetLineOfOnePart | app.js:49-53 | without a house number the line is the trimmed road, and without a road it is the trimmed house number |
| Normalizer.CityNameVersusFlexCity | app.js:55-70 | the display locality equals the hand-off locality exactly unless only a village is present |
| Normalizer.DisplayAgreesWithFlexShape | app.js:55-70 | the hand-off line 1 is the display street line and line 2 is the unit; the display city line equals the one built from the hand-off fields exactly unless only a village is present |
| Editing.FormFor | app.js:357-362 | the edit form shows the hand-off street line, locality, state and zip |
| Editing.ApplyEdit | app.js:372-377 | saving leaves town and village unchanged, sets city, state and postcode to the trimmed inputs, and makes the house number free of spaces |
| Editing.SavedLineSplit | app.js:372-374 | a line without a space becomes the house number with an empty road; otherwise house number, space and road spell the trimmed line |
| Editing.SavedStreetLine | app.js:372-381 | after saving, the street line is exactly the trimmed typed line |
| Editing.SavedFlexShape | app.js:372-387 | the hand-off shape after saving is the trimmed typed fields, with the town shown through when the typed city is blank |
| Editing.SaveUntouchedFormKeepsFlexShape | app.js:357-377 | opening the form and saving it untouched keeps the hand-off shape when the shown fields were trimmed |
| Editing.ResaveIsIdempotent | app.js:357-377 | reopening a saved address and saving it untouched changes nothing, unless a blank city let the town show through |
| Editing.SameTrimmedFormSameEdit | app.js:372-377 | saving depends on the inputs only through their trimmed text |
| Editing.OverwriteEdit | app.js:373-377 | saving the same form twice equals saving it once |
| Ranking.Insert | app.js:99-102 | insertion adds exactly the element and keeps the order |
| Ranking.SortBy | app.js:99-102 | the sorted list is a permutation of the input, in non-decreasing key order |
| Ranking.InsertKeyClass | app.js:99-102 | insertion puts the element first among equal keys and leaves other keys' order alone |
| Ranking.SortByIsStable | app.js:99-102 | for every key, the elements with that key come out in their input order |
| Ranking.SortByOfSorted | app.js:99-102 | a list already in key order is left as it is |
| Ranking.Take | app.js:105 | the result is the first min(n, length) elements |
| Ranking.KeyClassOfPrefix | app.js:105 | the same-key elements of a prefix are a prefix of the same-key elements of the whole |
| Search.FullStreetKey | app.js:90 | the key is the rendered house number, a space and the rendered road, lower-cased character by character, so it is as long as those parts and starts with "undefined " when the house number is missing |
| Search.RoadKey | app.js:91 | the key is the road text ("" when missing) lower-cased character by character, so as long as the road, and empty when the road is missing or empty |
| Search.CityKey | app.js:92 | the key is the city text ("" when missing) lower-cased character by character, so as long as the city field, and empty when the city is missing or empty |
| Search.PostcodeKey | app.js:93 | the key is the postcode in its own case, or "" when it is missing |
| Search.KeysArePrefixTestsIgnoringCase | app.js:90-94 | the full-street, road and city tests hold exactly when the query is no longer than the field text and lower-cases like its start |
| Search.Matches | app.js:89-94 | a record matches exactly when the query is a prefix of the full-street, road, city or postcode key |
| Search.Filtered | app.js:88-95 | the filter keeps only matching records and every matching record, each from the dataset |
| Search.FilteredAppend | app.js:88-95 | filtering a concatenation is the concatenation of the filtered parts, so the kept records stay in dataset order |
| Search.FilteredSingle | app.js:88-95 | a single record is kept exactly when it matches |
| Search.Ranked | app.js:98-103 | the ranked list is a permutation of the matches; without a location it is the matches as they are, with one it is in non-decreasing distance order |
| Search.SearchResults | app.js:83-107 | a query under two characters gives no results; otherwise there are min(5, number of matches) results, each a matching record of the dataset |
| Search.UnrankedResultsArePrefix | app.js:98-107 | without a location, the results are the first min(5, number of matches) matches in dataset order |
| Search.FewMatchesAllReturned | app.js:105 | when at most five records match, every match is returned, with or without a location |
| Search.RankedResultsAreSorted | app.js:98-105 | with a location, the results are in non-decreasing distance order |
| Search.RankedResultsAreNearest | app.js:98-105 | with a location, no match left out is nearer than a returned one |
| Search.RankedTiesKeepDatasetOrder | app.js:98-105 | with a location, results at the same distance are the first such matches, in dataset order |
| Search.MissingHouseNumberMatchesUndefined | app.js:90 | a record without a house number matches every query whose lower-cased form is a prefix of "undefined " |
| Search.UpperCasePostcodeNeverPrefix | app.js:93-94 | a postcode starting with an upper-case letter never matches through the postcode key |
| App.Session.constructor | app.js:8-16 | the initial state: no dataset, no selection, empty query, empty cache, no location; every handler keeps the cache and the shown list at five records or fewer |
| App.Session.Load | app.js:411-414 | the loaded data becomes the dataset |
| App.Session.SetLocation | app.js:396-399 | the reported position becomes the location that ranks the search |
| App.Session.SearchAddresses | app.js:83-108 | returns the search results; a short query leaves the cache alone, any other query sets the cache to exactly the results |
| App.Session.OnSearchInput | app.js:253-267 | under two characters the list is cleared without a search, otherwise the list and the cache are the search results |
| App.Session.ClearSearch | app.js:270-282 | the input and the list are emptied |
| App.Session.Select | app.js:157-171 | the selection is the record itself, the last query is the input text, the unit is cleared and the form is hidden |
| App.Session.GoBackToSearch | app.js:173-180 | the input text is the last query and the list is the cached results, with no new search |
| App.Session.TypeUnit | app.js:31 | the unit input holds the typed text |
| App.Session.OpenEdit | app.js:357-367 | with a selection, the form shows `FormFor` of the selected address and is visible; otherwise nothing changes |
| App.Session.TypeEditForm | app.js:40-43 | the edit inputs hold the typed form |
| App.Session.SaveEdit | app.js:370-388 | with a selection, the selected record's address becomes `ApplyEdit` of the old address and form, and the form is hidden; otherwise nothing changes |
| App.Session.Confirm | app.js:330-344 | no output without a selection; otherwise `toFlexShape` of the selected record and the unit, whose line 1 is the street line and line 2 the unit |
| Walkthrough.SearchAndSelect | app.js:157-159 | searching and clicking the only match selects the very record held in the dataset and the cache |
| Walkthrough.EditSelected | app.js:370-377 | saving through the selection edits that record in place and leaves the dataset and cache lists as they were |
| Walkthrough.BackAndConfirm | app.js:173-180 | going back lists the cached record again, and confirming hands it off with the unit |
| Walkthrough.EditSharedRecord | app.js:373-377 | after the edit, the dataset entry, the cached result and the record itself carry the same edited address, and the confirmation hands it off |
| Walkthrough.EvergreenMatches | app.js:90-94 | "742 ev" matches 742 Evergreen Terrace through the full-street key |
| Walkthrough.ErgreenDoesNotMatch | app.js:89-94 | "ergreen", found inside Evergreen Terrace but not at a key's start, does not match |
| Walkthrough.EvergreenHandOff | app.js:372-377 | saving "100 Main St" / "Springfield" / "IL" / "62701" and confirming with "Apt 4" hands off exactly those fields |
| Walkthrough.EvergreenExample | app.js:330-333 | the whole worked session hands off 100 Main St, Apt 4, Springfield, IL 62701 |

## Left out

- The DOM is presentation only and is not modelled: element lookups, `innerHTML`/`textContent` writes, `showScreen`, `updateClearButton`, `escapeHtml` and the `renderResults` markup. The session records only which records the results list shows.
- The Leaflet map (`initMap`, map removal in `goBackToSearch`) is a foreign library and is not modelled.
- Network and geolocation are inputs rather than operations.
  - The dataset `fetch` is `Load` with the data it resolves to; the failure branch only sets a placeholder and is not modelled.
  - The geolocation callback is `SetLocation`.
  - The reverse-geocode click handler is not modelled. Its only state effects are setting the location and calling `selectAddress` with the fetched record, which `SetLocation` and `Select` cover.
- App.Session.OnSearchInput: the 50 ms debounce is collapsed, so the search runs at once on the latest text. Interleavings of timers with other handlers are not modelled.
- Search.Ranked: the squared equirectangular distance over floats (`distSq`, `Math.cos`, `parseFloat`) is replaced by an abstract integer key on a record's coordinates, supplied with the location. Only its order matters. Float rounding, NaN from unparsable coordinates, and the comparator's behaviour on NaN are not modelled.
- JsText.LowerChar: characters outside ASCII and Latin-1 are left unchanged, although JavaScript lower-cases many of them (Greek, Cyrillic, Latin Extended).
- JsText.Lower: case mapping covers ASCII and Latin-1 letters only. Other scripts and special mappings (such as U+0130) are left as they are.
- JsText.IndexOf: strings are sequences of code points, not UTF-16 code units, so lengths and indices differ from JavaScript's for characters outside the Basic Multilingual Plane.
- Records.Address: a JSON `null` field is not distinguished from a missing one. `+` would print it as "null" rather than "undefined".
- A `null` or non-string query is not modelled: the input's value is always a string.
- Console logging and the confirm button's colour timeout are not modelled.
- App.Session.OpenEdit and App.Session.SaveEdit: the handlers are modelled with the form's visibility as a flag. The model does not require the form to be visible before saving, and neither does the source.
