# Pokédex team roster and catalogue paging, in Dafny

This project models the logic of a small Remix Pokédex application:

- the **team roster** kept by `PokemonService`: a map from user identifier to
  that user's ordered team of Pokémon, with `getUserTeam`, `clearTeam` and
  `togglePokemonInTeam` (remove if present, else reject when six are already
  held, else append);
- the **Pokédex route**: the loader's case-insensitive search over names and
  types, its pagination (24 per page, `Math.ceil` page count, JavaScript
  `slice` semantics, previous/next flags), the action's response and message,
  the card "disabled" rule, the team heading, and `getTypeColor`.

Everything is pure: teams are `seq<Pokemon>`, the store is
`map<string, seq<Pokemon>>`, and each operation returns its new state.

Modules, one per concern:

| file | module | models |
|---|---|---|
| `wrappers.dfy` | `Wrappers` | `Option` for `null` / missing values |
| `sequences.dfy` | `Sequences` | `Array.prototype.filter` and an independent description of a filter result |
| `pokemons.dfy` | `Pokemons` | the `Pokemon` record, identifier membership, distinct identifiers |
| `team.dfy` | `Team` | the toggle rule on one team, as a pure function with a three-way outcome |
| `team_store.dfy` | `TeamStore` | the `userTeams` map and the service's three operations |
| `text.dfy` | `Text` | `toLowerCase`, `includes`, decimal rendering of a count |
| `catalogue.dfy` | `Catalogue` | the loader's search term and filter |
| `pagination.dfy` | `Pagination` | page count, page slice, previous/next flags |
| `type_colors.dfy` | `TypeColors` | `getTypeColor`, intended and as written |
| `pokedex.dfy` | `Pokedex` | loader, action, and the page's decisions |

The service returns a boolean from a toggle; the model's `Team.Outcome`
keeps the three cases apart (`Removed`, `Rejected`, `Added`) and
`Outcome.Succeeded` is the boolean the service returns. A removal writes the
filtered team back (app/services/PokemonService.ts:31), so a user who removes
their last Pokémon keeps an entry holding the empty team; the model does the
same.

## Model

| member | source | states |
|---|---|---|
| `Sequences.Filter` | app/routes/_index.tsx:30-36 | the filter result holds exactly the input elements the predicate accepts, and is never longer than the input |
| `Sequences.FilterIsFilterOf` | app/services/PokemonService.ts:30 | a filter result is an order-preserving subsequence of its input that holds every accepted element as often as the input does and nothing else |
| `Sequences.FilterAppend` | app/routes/_index.tsx:30-36 | filtering a concatenation is the concatenation of the filtered parts |
| `Sequences.FilterDropsOne` | app/services/PokemonService.ts:30 | filtering out the only rejected element closes the gap and keeps the rest in order |
| `Team.WithoutId` | app/services/PokemonService.ts:30 | after removing an identifier no entry carries it, and exactly the entries with other identifiers remain |
| `Team.ToggleTeam` | app/services/PokemonService.ts:24-42 | present identifier: removed, with no entry of that identifier left and every other entry kept; absent and six or more held: rejected, team unchanged; absent with room: the Pokémon appended at the end |
| `Team.ToggleRemovalKeepsOrder` | app/services/PokemonService.ts:27-33 | removing a present Pokémon keeps the other entries in their original relative order, each as often as before |
| `Team.ToggleFailsIffFullAdd` | app/services/PokemonService.ts:35-37 | the toggle reports failure exactly when an absent Pokémon meets a team of six or more |
| `Team.WithoutIdRemovesOne` | app/services/PokemonService.ts:30 | in a team without duplicate identifiers, removing a present identifier shortens the team by exactly one |
| `Team.ToggleKeepsWellFormed` | app/services/PokemonService.ts:24-42 | a toggle keeps both roster invariants: at most six entries and pairwise distinct identifiers |
| `Team.ToggleTwiceRestores` | app/services/PokemonService.ts:27-41 | toggling an absent Pokémon into a team with room adds it, and toggling it again restores the original team |
| `Team.ToggleSplicesOut` | app/services/PokemonService.ts:29-33 | toggling the single entry with an identifier out of `before + [p] + after` leaves `before + after` |
| `Team.FullTeamRejects` | app/services/PokemonService.ts:35-37 | with `[A..F]` held, toggling a new `G` is rejected and the team stays `[A..F]` |
| `Team.FullTeamRemoves` | app/services/PokemonService.ts:29-33 | with `[A..F]` held, toggling `C` gives `[A,B,D,E,F]` |
| `Team.FreedTeamAdds` | app/services/PokemonService.ts:39-41 | toggling `G` into `[A,B,D,E,F]` gives `[A,B,D,E,F,G]` |
| `TeamStore.GetUserTeam` | app/services/PokemonService.ts:16-18 | a user with no entry reads the empty team; otherwise the stored team |
| `TeamStore.ClearTeam` | app/services/PokemonService.ts:20-22 | the user's entry is gone and reads as empty; every other user's entry is kept |
| `TeamStore.ClearTeamIdempotent` | app/services/PokemonService.ts:20-22 | clearing twice gives the same store as clearing once |
| `TeamStore.TogglePokemonInTeam` | app/services/PokemonService.ts:24-42 | the result and the user's new team are those of the team toggle; a rejected add leaves the store unchanged and creates no entry; every other user's team and presence are unchanged |
| `TeamStore.ClearKeepsValidStore` | app/services/PokemonService.ts:20-22 | clearing keeps every stored team well formed |
| `TeamStore.ToggleKeepsValidStore` | app/services/PokemonService.ts:24-42 | toggling keeps every stored team well formed |
| `TeamStore.FirstToggleAdds` | app/services/PokemonService.ts:25-41 | for a user without an entry, the first toggle succeeds and stores a one-member team |
| `TeamStore.ToggleFailsOnlyWhenFull` | app/services/PokemonService.ts:27-37 | a store toggle fails exactly when the user's team is full and lacks the Pokémon |
| `Text.LowerChar` | app/routes/_index.tsx:32-34 | lower-casing yields no upper-case letter, changes only upper-case letters, and maps each to its lower-case partner |
| `Text.Lower` | app/routes/_index.tsx:23 | lower-casing keeps the length, lower-cases each character, and yields a lower-case string |
| `Text.LowerFixesLowerCase` | app/routes/_index.tsx:23 | a lower-case string is unchanged by lower-casing |
| `Text.IncludesIffOccurs` | app/routes/_index.tsx:32-34 | `includes` holds exactly when the term occurs at some position |
| `Text.Includes` | app/routes/_index.tsx:32-34 | every string includes the empty term, and no string includes a term longer than itself |
| `Text.NatToString` | app/routes/_index.tsx:211 | a count renders as one or more decimal digits without a leading zero, a single digit exactly below ten |
| `Text.NatToStringRoundTrip` | app/routes/_index.tsx:211 | the rendered digits read back as the rendered count |
| `Catalogue.SearchTerm` | app/routes/_index.tsx:23 | an absent `search` parameter gives the empty term; a present one gives its lower-cased text |
| `Catalogue.Matches` | app/routes/_index.tsx:31-35 | the filter predicate holds exactly when the lower-cased name, or some lower-cased type, contains the term at some position |
| `Catalogue.FilterCatalogue` | app/routes/_index.tsx:30-36 | a Pokémon is listed exactly when it is in the catalogue and its name or one of its types contains the term |
| `Catalogue.FilterCatalogueSelectsInOrder` | app/routes/_index.tsx:30-36 | the filtered list is the order-preserving selection of the catalogue entries whose name or a type contains the term |
| `Catalogue.EmptySearchKeepsAll` | app/routes/_index.tsx:23-36 | without a search parameter the whole catalogue is kept, in order |
| `Pagination.RelativeIndex` | app/routes/_index.tsx:39-42 | a `slice` index counts back from the end when negative and is clamped to the length |
| `Pagination.JsSlice` | app/routes/_index.tsx:39-42 | `slice` yields the run between the two normalised indices, empty when they cross |
| `Pagination.TotalPages` | app/routes/_index.tsx:38 | the page count is the least number of 24-entry pages that hold the list |
| `Pagination.Page` | app/routes/_index.tsx:39-42 | a page has at most 24 entries and is a contiguous run of the list; from page one on it starts at `(page-1)*24` clamped to the end, has `min(24, remaining)` entries, and is non-empty exactly up to the last page; page zero is empty |
| `Pagination.PagesUpToIsPrefix` | app/routes/_index.tsx:38-42 | pages one to `k` laid end to end are the first `k*24` entries |
| `Pagination.AllPagesCoverList` | app/routes/_index.tsx:38-42 | pages one to the page count, concatenated, are the whole filtered list |
| `Pagination.Paginate` | app/routes/_index.tsx:47-52 | the reported current page is the requested one, the total is the page count, "next" holds exactly below the last page and "previous" exactly above page one |
| `Pagination.NextPageMeaning` | app/routes/_index.tsx:50 | from page one on, "next" is offered exactly when the following page has entries |
| `Pagination.PrevPageMeaning` | app/routes/_index.tsx:51 | from page one on, "previous" is offered exactly from page two, and then, up to the last page, the previous page is a full page |
| `Pagination.ControlsShownIffLinks` | app/routes/_index.tsx:284-304 | on an existing page, the page controls appear exactly when a previous or next link is offered |
| `TypeColors.TypeColor` | app/routes/_index.tsx:312-335 | a listed type, in any case, gets its table classes; any other string gets `bg-gray-400 text-white`; the result is always a badge class string |
| `TypeColors.TypeColorIgnoresCase` | app/routes/_index.tsx:334 | two types differing only in letter case get the same classes |
| `TypeColors.TypeColorExamples` | app/routes/_index.tsx:313-334 | "Fire" and "FAIRY" get their table entries; "shadow" gets the default |
| `TypeColors.PropertyLookup` | app/routes/_index.tsx:334 | an own table key yields its string; "constructor" yields the inherited `Object` function and "__proto__" the `Object.prototype` object; any other key yields `undefined` |
| `TypeColors.TypeColorAsWritten` | app/routes/_index.tsx:334 | the as-written lookup always returns a truthy value |
| `TypeColors.AsWrittenAgreesElsewhere` | app/routes/_index.tsx:312-335 | except for the keys `constructor` and `__proto__`, the code as written returns the intended class string |
| `TypeColors.ConstructorTypeIsNotAColor` | app/routes/_index.tsx:334 | the type "Constructor" gets the `Object` function from the code as written, while the intended lookup gives the default |
| `TypeColors.ProtoTypeIsNotAColor` | app/routes/_index.tsx:334 | the type "__proto__" gets the `Object.prototype` object from the code as written, while the intended lookup gives the default |
| `Pokedex.Loader` | app/routes/_index.tsx:19-54 | the loader reports the demo user's stored team and the lower-cased term; lists at most 24 catalogue entries, each matching the term; reports the page count of the filtered list; from page one on lists something exactly up to the last page; the list is exactly the requested page of the filtered catalogue and the pagination summary is the one for the filtered count |
| `Pokedex.DefaultLoaderShowsCatalogueStart` | app/routes/_index.tsx:23-42 | without a search, page one lists the first 24 catalogue entries (or all of them) |
| `Pokedex.ToggleMessage` | app/routes/_index.tsx:75-78 | a successful toggle's message is the name followed by " updated in team"; a failed toggle has no message; the "team full" text is never produced |
| `Pokedex.Action` | app/routes/_index.tsx:61-96 | an unknown intent answers 400 and changes nothing; toggle and clear answer 200 with the team the store now holds; clear empties the demo user's team; a toggle's success and new team are the roster toggle's, with the message "<name> updated in team" exactly on success; clear deletes the demo user's entry and answers "Team cleared"; an unknown intent answers "Invalid action"; no other user's team changes |
| `Pokedex.ActionKeepsValidStore` | app/routes/_index.tsx:67-89 | every action keeps every stored team well formed |
| `Pokedex.ReloadShowsReportedTeam` | app/routes/_index.tsx:72-74 | after a toggle or clear, the reloaded page shows the team the action reported |
| `Pokedex.CurrentTeam` | app/routes/_index.tsx:195 | a team in the action data, even an empty one, takes precedence over the loader's team |
| `Pokedex.CardDisabled` | app/routes/_index.tsx:253-267 | with no update in flight a card is disabled exactly when toggling it would be rejected; during an update every card is disabled |
| `Pokedex.DisabledIffServiceRefuses` | app/routes/_index.tsx:267 | with no update in flight, the disabled cards are exactly the Pokémon whose toggle the service would refuse |
| `Pokedex.TeamHeading` | app/routes/_index.tsx:211 | the heading reads "Your Team (", decimal digits, "/6)", with a single digit for any team within capacity |
| `Pokedex.TeamHeadingShowsSize` | app/routes/_index.tsx:211 | the digits in the heading read back as the number of team members |
| `Pokedex.ShowClearButton` | app/routes/_index.tsx:213 | the "Clear Team" button is shown exactly when the current team is non-empty |
| `Pokedex.ClearHidesClearButton` | app/routes/_index.tsx:213 | after a clear the page's current team is empty and the "Clear Team" button is hidden |

## Left out

- `PokeApiClient.getPokemonList` and `PokemonService.getPokemonList`: network `fetch`, the detail fan-out and the JSON mapping are I/O; the catalogue is an input `seq<Pokemon>`.
- The `pokemon` type module is not part of this model; the record's fields follow the object the catalogue client builds.
- The placeholder test file checks no application code and has no counterpart.
- Rendering (`PokemonCard`, `SearchBar`, the page markup, the pagination link URLs), Remix `json` responses, `request.formData`, `JSON.parse` of the posted Pokémon, and the `catch` branches that answer 500: framework plumbing. The action's intent is an input `Intent` value.
- The debounced search submit in `SearchBar`: timer-driven UI behaviour.
- The in-flight flag (`useNavigation().state === "submitting"`) is a parameter of `Pokedex.CardDisabled`; the team-panel buttons, disabled by that flag alone, are not modelled separately.
- `parseInt` of the `page` parameter: the page number is an `int` input, and a non-numeric string (`NaN`) is not modelled.
- `Pagination.TotalPages`: `Math.ceil` over a floating-point quotient is modelled as exact integer ceiling; rounding for counts beyond 2^53 is not modelled.
- `Pagination.Page`: for negative page numbers the contract states only the 24-entry bound and contiguity, not which end-relative run `slice` picks (the function itself computes it exactly).
- `Text.Lower`: `toLowerCase` is modelled on ASCII letters only; other Unicode case mappings are not modelled.
- Array aliasing: `getUserTeam` hands out the stored array that the add branch later pushes onto; the model uses value semantics, which gives the same stored teams.
- Concurrent requests: the model is sequential; serialisation of concurrent toggles is outside it.

## Findings

| source | as written | input that shows it | evidently intended | confidence | as-written member | corrected member |
|---|---|---|---|---|---|---|
| app/routes/_index.tsx:313-334 | `typeColors[type.toLowerCase()]` looks the key up on a plain object literal, so keys inherited from `Object.prototype` are found too, and `||` keeps them because they are truthy | type "Constructor" (or "constructor", "__proto__") yields the `Object` function (or `Object.prototype`) instead of a class string | any type outside the eighteen listed gets `"bg-gray-400 text-white"` | not executed; standard JavaScript property lookup, no such type comes from the catalogue source in practice | `TypeColors.TypeColorAsWritten` (with `TypeColors.ConstructorTypeIsNotAColor` and `TypeColors.ProtoTypeIsNotAColor`) | `TypeColors.TypeColor` |
