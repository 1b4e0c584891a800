# Pokémon browser: catalog service, favorites and list page in Dafny

This project models the logic of a Pokémon browsing application. A NestJS
backend proxies a public Pokémon API, caches what it serves in Redis, and
persists a list of favorite names. A React frontend filters and paginates the
list and toggles favorites optimistically.

The model covers these parts:

- **Favorites store** (`FavoriteStore`). This is the backend's `Favorite` table, keyed by `name`.
  It is a list of rows without duplicates, and its `Names` set is the abstract state.
  `addFavorite` is idempotent. `removeFavorite` of an absent name fails with
  `NotFound("Favorite '<name>' not found")` and leaves the table unchanged.
- **Read-through cache** (`Cache`). The cache is a map from key to entry, and each entry
  records the TTL it was written with. A `Faults` value says whether `get` and
  `set` fail. Both failures are absorbed: a failed `get` is a miss, and a failed `set` writes nothing.
- **Resource URLs** (`Resources`, `Text`). The id of an upstream resource is
  `parseInt(segment, 10)` of the last non-empty `/`-segment of its URL. The image URL puts
  that segment into a base URL. `parseInt` follows section 19.2.5 of ECMA-262: it skips
  leading white space, reads one optional sign and the longest run of digits after it,
  and gives `NaN` when there is no digit. A URL with no non-empty segment makes `pop()`
  return `undefined`, so the id is `NaN` and the image URL ends in `/undefined.png`.
  Every URL is accepted, and ids are `JsNumber` values (`NaN` or an integer).
- **Evolution chains** (`Evolution`). The chain is an inductive tree. It is
  flattened along the first child at each level, once as a reference function
  and once as the source's iterative loop.
- **Catalog endpoints** (`Catalog`). These are the list endpoint and the details endpoint.
  Each upstream call is an oracle from request URL to response. Every served
  request also returns the list of URLs it asked the upstream for, so "a hit
  asks the upstream nothing" is a checkable statement.
- **List page** (`PokemonList`). This covers the favorites and search filters, the displayed
  prefix, and the "load more" sentinel. It also covers the effect that grows the number of
  visible entries. That effect runs only after a render whose dependencies
  `[inView, loading, searchTerm, showOnlyFavorites]` differ from the previous render's.
- **Favorites context** (`FavoritesContext`). An add or remove first changes the client's set optimistically.
  The set is then replaced by the server's list, or rolled back to the snapshot on failure.
- **Pokémon card** (`PokemonCard`). This covers the favorite toggle decision, the star button, and the
  `#` + `padStart(3, '0')` id label.

### Where the code and its tests or design disagree

In each case below the model follows the code.

- **Cache TTL.** The code passes 86400000 ms to both `set` calls
  (backend/src/pokemon/pokemon.service.ts:101, :184), and `Cache.TtlMillis` is 86400000.
  The tests expect 3600000 (backend/src/pokemon/pokemon.service.spec.ts:124, :166).
- **List fetch errors.** `fetchPokemonList` does not translate errors, so an upstream failure
  reaches the caller as `UpstreamFailed`. The tests expect `ServiceUnavailableException`.
- **Detail fetch errors.** `fetchPokemonDetails` turns every failure into
  `NotFound("Pokemon '<name>' not found")`, including 5xx and network errors. The
  tests expect `ServiceUnavailableException` for errors other than 404.
- **Evolution fetch errors.** `fetchEvolutionChain` does not translate errors, so species and
  chain failures propagate as `UpstreamFailed`. The tests expect
  `InternalServerErrorException`.
- **Missing evolution chain.** A species without an `evolution_chain` makes the code
  dereference a missing field. This becomes `MissingField("evolution_chain")`, not an empty list.
- **Server-side search.** There is none. The list endpoint takes no search term, and filtering
  happens only on the list page.

## Model

| member | source | states |
|---|---|---|
| Cache.Get | backend/src/pokemon/pokemon.service.ts:71-81 | a stored value is always a hit, because even an empty list is truthy; a failing `get` is reported as a failure, never as a hit |
| Cache.Set | backend/src/pokemon/pokemon.service.ts:97-105 | a successful `set` stores the value with its TTL under the key and touches no other key; a failing `set` leaves the cache unchanged |
| Cache.ReadThrough | backend/src/pokemon/pokemon.service.ts:70-107 | a hit is served unchanged with no upstream request; otherwise the miss computation's result and requests are served, and only a success is written back with TTL 86400000 |
| Cache.GetFailureActsAsEmptyCache | backend/src/pokemon/pokemon.service.ts:79-81 | when `get` fails, the request is served exactly as an empty cache would serve it |
| Cache.SetFailureIsInvisible | backend/src/pokemon/pokemon.service.ts:103-105 | when `set` fails, the caller gets the same result and the same upstream requests, and the cache keeps its prior state |
| Cache.MissThenHit | backend/src/pokemon/pokemon.service.ts:70-107 | after a successful miss on a healthy cache, the next request for the key returns the same value with no upstream request, whatever the upstream would now answer |
| Text.Lower | backend/src/pokemon/pokemon.service.ts:111 | the result has the input's length; each ASCII upper-case letter becomes its lower-case letter, and every other character is kept |
| Text.ContainsAt | frontend/src/components/PokemonList.tsx:60 | an occurrence of the term at any index makes `includes` true |
| Text.ContainsIffOccurs | frontend/src/components/PokemonList.tsx:60 | `includes` holds exactly when the term occurs at some index of the name |
| Text.Split | backend/src/pokemon/pokemon.service.ts:87 | `split` gives at least one piece, and no piece contains the separator |
| Text.SplitWithoutSeparator | backend/src/pokemon/pokemon.service.ts:87 | a string without the separator splits into itself alone |
| Text.SplitAtSeparator | backend/src/pokemon/pokemon.service.ts:87 | splitting at a separator gives the pieces of the left side followed by the pieces of the right side; with the previous row this fixes the pieces of every string |
| Text.NonEmptyParts | backend/src/pokemon/pokemon.service.ts:87 | `filter(Boolean)` keeps only non-empty pieces taken from the input; it keeps every non-empty piece as many times as the input has it, and no empty piece |
| Text.NonEmptyPartsOfOne | backend/src/pokemon/pokemon.service.ts:87 | a single piece is kept exactly when it is non-empty |
| Text.NonEmptyPartsAppend | backend/src/pokemon/pokemon.service.ts:87 | filtering a concatenation gives the filtered left side followed by the filtered right side, so the order is kept; with the previous row this fixes the result for every input |
| Text.LastSegment | backend/src/pokemon/pokemon.service.ts:87 | the last non-empty `/`-segment contains no `/`; there is none exactly when the URL consists only of slashes |
| Text.JoinSplit | backend/src/pokemon/pokemon.service.ts:87 | `split` loses nothing: joining the pieces with the separator gives back the string |
| Text.LastSegmentIsLast | backend/src/pokemon/pokemon.service.ts:87 | the returned segment starts the URL or follows a `/`, and only slashes come after it |
| Text.SegmentUnique | backend/src/pokemon/pokemon.service.ts:87 | a URL has at most one segment in that position, so the returned segment is the last one |
| Text.SegmentOfPath | backend/src/pokemon/pokemon.service.ts:87 | a slash-free segment that starts the URL or follows a `/`, followed only by slashes, is what is returned, whatever precedes it |
| Text.SegmentOfPathShapes | backend/src/pokemon/pokemon.service.ts:87 | `<c>/<seg>`, `<c>/<seg>/`, `<c>/<seg>//` and a bare `<seg>` all yield `<seg>` |
| Text.ParsePrinted | backend/src/pokemon/pokemon.service.ts:88 | parsing the decimal form of a number gives the number back |
| Text.TrimStart | backend/src/pokemon/pokemon.service.ts:88 | the result is a suffix of the input; everything dropped is white space, and the result does not start with white space |
| Text.DigitPrefix | backend/src/pokemon/pokemon.service.ts:88 | the result is a prefix of the input made only of digits, and the next character, if any, is not a digit |
| Text.ParseInt | backend/src/pokemon/pokemon.service.ts:88 | the empty string and any string starting with a character that is not white space, a sign or a digit give `NaN` |
| Text.ParseIntSigned | backend/src/pokemon/pokemon.service.ts:88 | `+` then digits reads as their value and `-` then digits as its negation, whatever non-digit text follows |
| Text.SignWithoutDigits | backend/src/pokemon/pokemon.service.ts:88 | a `+` or `-` with no digit right after it (`"+"`, `"-"`, `"-x"`) gives `NaN` |
| Text.ParseIntDigits | backend/src/pokemon/pokemon.service.ts:88 | a string of digits reads as its decimal value |
| Text.ParseIntIgnoresTail | backend/src/pokemon/pokemon.service.ts:88 | digits followed by a non-digit read as the value of the digits (`"25abc"` is 25) |
| Text.ParseIntOfUndefined | backend/src/pokemon/pokemon.service.ts:88 | `parseInt` of the text `undefined` is `NaN` |
| Text.ParseIntSkipsSpace | backend/src/pokemon/pokemon.service.ts:88 | leading white space does not change what `parseInt` reads |
| Text.ParseIntPrinted | frontend/src/components/PokemonCard.tsx:34 | parsing the printed form of any integer, negative ones included, gives the integer back |
| Text.PadStart | frontend/src/components/PokemonCard.tsx:34 | the result has length `max(|s|, width)`, ends in `s`, and holds only the pad character before it |
| Text.PrintParsed | backend/src/pokemon/pokemon.service.ts:88 | printing the parsed value of a digit string with no leading zero gives the string back |
| Resources.IdSegment | backend/src/pokemon/pokemon.service.ts:87 | the text the template prints is the last segment, or `undefined` when there is none |
| Resources.ResourceUrlRoundTrip | backend/src/pokemon/pokemon.service.ts:86-95 | a URL built as `<collection>/<id>/` ends in a digit segment and yields id `<id>`, and its image ends in `/<id>.png` |
| Resources.ToPokemon | backend/src/pokemon/pokemon.service.ts:86-95 | an entry keeps the record's name; with a last segment, the id is `parseInt` of it and the image is `<base>/<segment>.png`; without one, the id is `NaN` and the image is `<base>/undefined.png`; a digit segment gives its decimal value |
| Resources.ToPokemonList | backend/src/pokemon/pokemon.service.ts:86-95 | the mapping keeps length and order, with one entry per upstream record |
| Resources.ToPokemonListOfIds | backend/src/pokemon/pokemon.service.ts:86-95 | for upstream-style URLs, entry i has the i-th name, the i-th id, and the image `<base>/<id>.png` |
| Resources.UrlWithoutSegment | backend/src/pokemon/pokemon.service.ts:86-95 | a URL of slashes only gives id `NaN` and the image `<base>/undefined.png` |
| Resources.SegmentWithTrailingText | backend/src/pokemon/pokemon.service.ts:86-95 | a segment of digits followed by other text gives the digits' value as id, and the image keeps the whole segment |
| Evolution.FirstChildPath | backend/src/pokemon/pokemon.service.ts:126-139 | the walk starts at the root, moves each node to its first child, and stops at the first node without children |
| Evolution.StepOf | backend/src/pokemon/pokemon.service.ts:127-132 | a step carries the species name and the id and sprite that a list entry for the species record would get: `parseInt` of the last URL segment (or `NaN`) and `<imageUrl>/<segment>.png` |
| Evolution.EvolutionSteps | backend/src/pokemon/pokemon.service.ts:121-142 | one step per node of the first-child path, root first, the i-th step being the step of the i-th node |
| Evolution.StepsUnfold | backend/src/pokemon/pokemon.service.ts:126-139 | one loop iteration emits the current node's step and continues from its first child |
| Evolution.ParseEvolutionChain | backend/src/pokemon/pokemon.service.ts:121-142 | the iterative walk (current node, push a step, move to the first child) returns exactly the reference steps |
| Evolution.OnlyFirstChildMatters | backend/src/pokemon/pokemon.service.ts:134-135 | siblings after the first child never change the result |
| Evolution.BranchKeepsFirstOnly | backend/src/pokemon/pokemon.service.ts:134-138 | the chain `A -> [B, C]` flattens to the steps of A and B, and C never appears |
| FavoriteStore.GetFavorites | backend/src/pokemon/pokemon.service.ts:37-40 | the answer lists each stored name exactly once |
| FavoriteStore.AddFavorite | backend/src/pokemon/pokemon.service.ts:42-51 | afterwards the stored names are the prior names plus `name`, with no duplicate row; a stored name changes nothing; the answer is always the post-state list and never an error |
| FavoriteStore.DeleteRows | backend/src/pokemon/pokemon.service.ts:54 | deleting by name removes exactly the rows with that name; nothing is affected exactly when the name is absent |
| FavoriteStore.RemoveFavorite | backend/src/pokemon/pokemon.service.ts:53-60 | an absent name fails with `NotFound("Favorite '<name>' not found")` and leaves the table unchanged; a present one is removed, all other names are kept, and the answer is the remaining list |
| FavoriteStore.AddIsIdempotent | backend/src/pokemon/pokemon.service.ts:42-51 | adding twice gives the same table and the same answer as adding once |
| FavoriteStore.RemoveIsNotIdempotent | backend/src/pokemon/pokemon.service.ts:53-60 | a second removal of the same name fails with `NotFound` and leaves the table unchanged |
| FavoriteStore.AddThenRemove | backend/src/pokemon/pokemon.service.ts:42-60 | adding and then removing a name succeeds and leaves the prior names without that name |
| Catalog.FetchList | backend/src/pokemon/pokemon.service.ts:62-68 | the only request is `<api>/pokemon?limit=150`; an upstream failure propagates untranslated; a success gives the mapped list |
| Catalog.GetPokemonListWithDetails | backend/src/pokemon/pokemon.service.ts:70-108 | a readable hit on the list key is served unchanged with no request; otherwise the mapped upstream list is served and, unless `set` fails, stored under the list key with TTL 86400000; an upstream failure leaves the cache unchanged |
| Catalog.DetailUrlsAgree | backend/src/pokemon/pokemon.service.ts:111 | two names share a details URL exactly when they lower-case alike |
| Catalog.DetailKeysAgree | backend/src/pokemon/pokemon.service.ts:158 | two names share a cache key exactly when they lower-case alike |
| Catalog.FetchPokemonDetails | backend/src/pokemon/pokemon.service.ts:110-119 | the request is for the lower-cased name; the result succeeds exactly when the upstream answers; every failure, whatever its status, is `NotFound` quoting the name as given |
| Catalog.FetchEvolutionChain | backend/src/pokemon/pokemon.service.ts:144-155 | the species is requested first, then its chain; failures propagate untranslated; a species without a chain fails on the missing field; a success is the flattened chain |
| Catalog.DetailImage | backend/src/pokemon/pokemon.service.ts:179 | the official artwork when it is present and non-empty, otherwise the default sprite |
| Catalog.ComposeDetail | backend/src/pokemon/pokemon.service.ts:174-181 | id, name and evolution are carried over; ability and type names are order- and length-preserving projections; the image follows the artwork-first rule |
| Catalog.FetchFullDetails | backend/src/pokemon/pokemon.service.ts:171-181 | a detail failure ends the request after one upstream request; otherwise the chain is fetched from the record's species URL, and its failure or the composed detail is the result |
| Catalog.GetPokemonFullDetails | backend/src/pokemon/pokemon.service.ts:157-190 | a readable hit under `pokemon_detail_<lower(name)>` is served unchanged with no request; otherwise the composed detail is served and, on success with a working `set`, stored under that key with TTL 86400000 |
| Catalog.CaseInsensitiveDetails | backend/src/pokemon/pokemon.service.ts:158-171 | names equal after lower-casing make the same requests, leave the same cache, and succeed with the same detail |
| Catalog.CacheOutageIsInvisible | backend/src/pokemon/pokemon.service.ts:70-190 | with every `get` and `set` failing, both endpoints serve what an empty, healthy cache would, and the cache is left unchanged |
| Catalog.DetailServedFromCacheAfterMiss | backend/src/pokemon/pokemon.service.ts:157-189 | once a detail is fetched, any spelling of the name that lower-cases the same way is served from the cache with no upstream request; a failed fetch leaves the cache unchanged |
| Catalog.PikachuExample | backend/src/pokemon/pokemon.service.ts:157-190 | a record with one ability, one type and only a default sprite gives abilities `["static"]`, types `["electric"]`, image `x.png` and a one-step evolution |
| PokemonList.KeptByIsSubsequence | frontend/src/components/PokemonList.tsx:51-65 | the reference filter keeps the list's order |
| PokemonList.KeptByCounts | frontend/src/components/PokemonList.tsx:51-65 | the reference filter holds each accepted entry as often as the list does, and each rejected entry never |
| PokemonList.StagesAreOneFilter | frontend/src/components/PokemonList.tsx:51-65 | the favorites filter followed by the search filter is the same as filtering once by both conditions |
| PokemonList.FilteredPokemon | frontend/src/components/PokemonList.tsx:51-65 | the filtered list is an order-preserving subsequence of the whole list, and it holds exactly the accepted entries with their multiplicities |
| PokemonList.NoFilterKeepsAll | frontend/src/components/PokemonList.tsx:51-65 | with no term and the favorites filter off, the filtered list is the whole list |
| PokemonList.FavoritesFilter | frontend/src/components/PokemonList.tsx:54-56 | the favorites filter alone keeps an entry exactly when its name is a favorite |
| PokemonList.SearchFilter | frontend/src/components/PokemonList.tsx:58-62 | a non-empty term alone keeps an entry exactly when its lower-cased name contains the lower-cased term |
| PokemonList.SearchExample | frontend/src/components/PokemonList.tsx:58-62 | searching "pika" among pikachu, bulbasaur and charmander keeps only pikachu |
| PokemonList.ListToDisplay | frontend/src/components/PokemonList.tsx:67-68 | while filtering, the display is every filtered entry; otherwise it is the prefix of length `min(visibleCount, |filtered|)` |
| PokemonList.HasMore | frontend/src/components/PokemonList.tsx:69 | the sentinel is shown exactly when the display leaves filtered entries out |
| PokemonList.NextVisibleCount | frontend/src/components/PokemonList.tsx:45-49 | the count grows by exactly one batch when in view, not loading, with no term and the favorites filter off; otherwise it is unchanged |
| PokemonList.AfterRender | frontend/src/components/PokemonList.tsx:45-49 | a render with the previous render's dependencies leaves the count alone; after the first render or a change of dependencies, the count grows by one batch exactly when the effect's condition holds |
| PokemonList.CountAfterTriggers | frontend/src/components/PokemonList.tsx:45-49 | over any run of renders, the count grows by one batch per render that runs the effect with its condition true, and by nothing else |
| PokemonList.UnchangedDepsAddNothing | frontend/src/components/PokemonList.tsx:49 | renders that keep the dependencies unchanged never change the count |
| PokemonList.StayingInViewAddsOneBatch | frontend/src/components/PokemonList.tsx:45-49 | the sentinel coming into view adds exactly one batch, however often the page re-renders while it stays in view |
| PokemonList.ScrollOutAndBackIn | frontend/src/components/PokemonList.tsx:45-49 | scrolling the sentinel out of view and back in adds the next batch |
| PokemonList.ScrollRevealsNextBatch | frontend/src/components/PokemonList.tsx:45-68 | a scroll that reveals the sentinel extends the display to `min(count + batch, |filtered|)` entries and keeps the entries already shown in front |
| PokemonList.FilteringFreezesDisplay | frontend/src/components/PokemonList.tsx:45-68 | while a filter is on, scrolling changes neither the count nor the display |
| PokemonList.LoadMoreExample | frontend/src/components/PokemonList.tsx:45-69 | with fifty entries and batches of ten, ten are shown with the sentinel, then twenty after one scroll |
| FavoritesContext.LoadFavorites | frontend/src/context/FavoritesContext.tsx:14-20 | the initial load replaces the state with the set of the server's list; a failed load keeps the state |
| FavoritesContext.InitialLoad | frontend/src/context/FavoritesContext.tsx:14-20 | starting from the empty set, the load gives exactly the set of the server's list, and the empty set when it fails |
| FavoritesContext.IsFavoriteTracksState | frontend/src/context/FavoritesContext.tsx:61 | `isFavorite` is true after the name's optimistic add and false after its optimistic remove; it is unchanged for every other name; after the initial load it is true exactly for the listed names |
| FavoritesContext.Settle | frontend/src/context/FavoritesContext.tsx:34-40 | on success the state is exactly the set of the returned list; on failure it is the snapshot |
| FavoritesContext.OptimisticAdd | frontend/src/context/FavoritesContext.tsx:32 | the name is added and every other membership is unchanged |
| FavoritesContext.OptimisticRemove | frontend/src/context/FavoritesContext.tsx:46-50 | the name is removed and every other membership is unchanged |
| FavoritesContext.HandleAddFavorite | frontend/src/context/FavoritesContext.tsx:29-41 | the snapshot is the state at the call; the optimistic state is the snapshot plus the name; the settled state is the server's set, or the snapshot on failure |
| FavoritesContext.HandleRemoveFavorite | frontend/src/context/FavoritesContext.tsx:43-59 | the snapshot is the state at the call; the optimistic state is the snapshot minus the name; the settled state is the server's set, or the snapshot on failure |
| FavoritesContext.AddAgreesWithBackend | frontend/src/context/FavoritesContext.tsx:29-41 | when the client mirrors the table, the backend's answer to an add confirms the optimistic state, and the client mirrors the new table |
| FavoritesContext.RemoveAgreesWithBackend | frontend/src/context/FavoritesContext.tsx:43-59 | when the client mirrors the table, a remove ends with the client mirroring the table: confirmed for a stored name, rolled back for an absent one |
| FavoritesContext.FailureRollsBack | frontend/src/context/FavoritesContext.tsx:37-40 | a failed add or remove ends in exactly the snapshot taken at its start |
| PokemonCard.FavoriteClick | frontend/src/components/PokemonCard.tsx:15-22 | a click makes exactly one call, for the card's name: remove when the name is a favorite, add otherwise |
| PokemonCard.ClickToggles | frontend/src/components/PokemonCard.tsx:15-22 | a click flips the card's name in the optimistic state and leaves every other name alone |
| PokemonCard.ButtonShowsFavorite | frontend/src/components/PokemonCard.tsx:27-30 | the button shows ★ and carries the `active` class exactly when the name is a favorite |
| PokemonCard.IdLabel | frontend/src/components/PokemonCard.tsx:34 | the label is `#`, then zeros, then the printed id; exactly `max(3, length of the printed id)` characters follow the `#` |
| PokemonCard.IdLabelDigits | frontend/src/components/PokemonCard.tsx:34 | the label is `#` followed by exactly `max(3, number of digits of the id)` digits; ids of three or more digits are printed whole; the digits end in the id's decimal form, parse back to the id, and, for a positive id, lose only zeros when leading zeros are stripped |
| PokemonCard.PaddedDecimal | frontend/src/components/PokemonCard.tsx:34 | the padded id is all digits and parses back to the id, since leading zeros change neither the value nor the stripped form |

## Left out

- HTTP, rxjs, Redis and TypeORM are not modelled. Upstream calls are oracles from URL to response, the cache is a map with failure flags, and the table is a list of rows. Logging (`console.log`/`console.error`) is not modelled.
- TTL expiry and time are not modelled. The TTL is only recorded in each cache entry.
- Concurrency is not modelled. This covers duplicate upstream fetches on concurrent misses, last-write-wins on the favorites table, and interleaved optimistic updates on the client. In a sequential model the snapshot `favorites` and the functional update's `prev` are the same set.
- FavoriteStore.GetFavorites: returns rows in the order the model stores them. The database promises no order, so only the set of names and the absence of duplicates are meaningful.
- Text.ParseInt: returns an unbounded integer. JavaScript numbers are doubles, so a digit run above 2^53 is rounded in the source, and this is not modelled. `parseInt("-0")` gives negative zero in JavaScript, and the model gives 0.
- PokemonCard.IdLabel: prints the id with `IntToString`. JavaScript's `toString` switches to exponent form from 1e21 on, and this is not modelled.
- PokemonCard.IdLabel: takes an integer id. A `NaN` id from the backend reaches the client as `null` after JSON encoding, and `pokemon.id.toString()` then throws. JSON encoding is not modelled.
- Evolution.StepOf: every chain node carries a species record. A node without one would make the source throw, and the model's types rule it out.
- Strings are sequences of Unicode characters. JavaScript strings are UTF-16 code units, so lengths and `padStart` widths differ for characters outside the Basic Multilingual Plane.
- PokemonList.AfterRender: compares dependencies by value, as `Object.is` does for booleans and strings. When `inView` changes is an input, because the intersection observer is not modelled.
- Text.Lower: models ASCII lower-casing only. JavaScript `toLowerCase` also folds non-ASCII letters.
- PokemonList.NextVisibleCount: takes the batch size as a natural number. A missing or non-numeric batch-size setting, which gives `NaN`, is not modelled. Neither is a negative batch size, which makes the count negative, so that `slice(0, count)` drops entries from the end of the list.
- Input validation is not modelled. The controller binds `name` as a plain string, so the favorite DTO's rules never apply.
- Wiring and rendering are not modelled: the controller, modules, bootstrap, CORS and throttling, the detail modal, the loading and error screens, `stopPropagation`, and the thin API wrappers.
