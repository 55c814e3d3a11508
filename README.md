# Pokédex search and preferences, modelled in Dafny

The app is a small browser front end over the public PokeAPI. It shows Pokémon cards, searches by
name or id, and remembers the last search and a light/dark theme in `localStorage`. This project
models its only logic, in `script.js`, with the network and the DOM replaced by values:

- **Search resolution** (`doSearch`, `fetchPokemon`). The query is trimmed. Then an exact lookup
  by the lowercased identifier is tried. If that fails for any reason, the first 200 listing
  entries are filtered to those whose name includes the lowercased query, cut to the first 24 in
  listing order, and hydrated all-or-nothing. Zero matches and a failed listing are errors.
- **Application state** (`init`, `doSearch`, the submit and reset handlers, `toggleTheme`,
  `applyThemeFromStorage`, `storage`, `renderCards`). This is a state machine over the persisted
  keys `theme` and `lastSearch`, the theme applied to the page, the card grid, the error message
  and the input text.
- **Card content** (`createCard`). The image URL precedence, and the stat allow-list
  `hp, attack, defense, speed`, where the first stat whose name contains a key wins.

Files:

- `wrappers.dfy` (Option, Result)
- `text.dfy`: `trim`, `toLowerCase`, `includes`
- `catalog.dfy`: records, and the network given as data
- `cards.dfy`: `createCard`, `renderCards`
- `search.dfy`: the resolver and `fetchInitialList`
- `preferences.dfy`: the `storage` wrapper
- `session.dfy`: every transition as a function of the state, and the lemmas about them
- `controller.dfy`: the class `App`, whose fields are the shared mutable state and whose methods
  are the handlers, each proved to make exactly the Session transition

The network is a `Network` value with three function-valued fields:

- `byName`: what `fetchPokemon` yields for a lowercased identifier. Every failure is `None`.
- `listing`: the listing for a given limit. It is `Got(entries)`, `NotOk` or `Threw(message)`.
- `detail`: what `fetch(url).then(r => r.json())` yields. A rejection becomes `Err(message)`.

Three behaviours of the code that a reader might expect otherwise; the model follows the code:

- The fallback filter compares each entry's `name` as the API returns it with the lowercased
  query. It does not lowercase the names.
- A blank submit does not behave like reset. It runs `init`, which replays a stored non-empty
  `lastSearch` (without storing it again) rather than loading the default list.
- The stored `lastSearch` is the trimmed query, not the lowercased one.

## Model

| member | source | states |
|---|---|---|
| Text.TrimStart | script.js:156 | the result is a suffix of the input, everything dropped is whitespace, and it does not start with whitespace |
| Text.TrimEnd | script.js:156 | the result is a prefix of the input, everything dropped is whitespace, and it does not end with whitespace |
| Text.Trim | script.js:156 | the trimmed query neither starts nor ends with whitespace, and it is empty exactly when the input is all whitespace |
| Text.TrimIdempotent | script.js:156 | trimming an already trimmed query changes nothing |
| Text.TrimIsInfix | script.js:156 | the trimmed query occurs inside the raw input |
| Text.ToLower | script.js:95 | lowercasing keeps the length and lowers each character in place |
| Text.ToLowerIdempotent | script.js:179 | a lowercased query holds no ASCII capital, and lowering it again changes nothing |
| Text.Contains | script.js:179 | `includes` is true exactly when some index of the name starts an occurrence of the needle |
| Text.ContainsSelfAndEmpty | script.js:79 | a name includes itself and the empty string |
| Text.ToLowerIgnoresCase | script.js:95 | two strings lower to the same string exactly when they agree position by position up to ASCII case |
| Catalog.FetchIgnoresCase | script.js:94-99 | identifiers that agree position by position up to ASCII case fetch the same record |
| Catalog.FetchLowered | script.js:94-99 | fetching an already lowercased identifier gives the same record as fetching the raw one |
| Cards.FirstTruthy | script.js:53-55 | a chain of JavaScript `or` over optional strings yields the first truthy candidate, with all earlier ones falsy, or the fallback when none is truthy |
| Cards.ImagePrecedence | script.js:53-55 | the card image is the official artwork if it is truthy, else the front sprite if truthy, else the placeholder URL; it is never empty |
| Cards.StatMatchesIsContains | script.js:79 | the extra `keyName==='hp' && n==='hp'` test adds nothing: a stat matches a key exactly when its name includes the key |
| Cards.FindStatIsFirstMatch | script.js:77-80 | `find` returns the first stat in record order whose name matches the key, and nothing exactly when no stat matches |
| Cards.FirstMatchFound | script.js:77-80 | if stat n matches and no earlier stat does, `find` returns stat n |
| Cards.StatLines | script.js:76-87 | the allow-list loop adds at most one line per key |
| Cards.StatLinesAppend | script.js:76-87 | the lines of a key list are those of its first part followed by those of the rest, so lines come in allow-list order |
| Cards.StatLinesOneKey | script.js:77-86 | one key adds exactly its first matching stat as a line, and adds no line exactly when no stat matches it |
| Cards.StatLinesBounded | script.js:76-87 | there are at most as many stat lines as allow-list keys, and each line is a stat of the record that matches some key |
| Cards.StatLineForKey | script.js:76-87 | every key that finds a stat contributes that first-matching stat as a line |
| Cards.StatLineForMissingKey | script.js:77-86 | a key that no stat matches adds no line: the lines are those of the keys before it followed by those of the keys after it |
| Cards.StandardStatOrder | script.js:76-87 | with the API's usual six stats the card shows hp, attack, defense and speed; the "special-" stats lose because they come later |
| Cards.NoSpeedIn | script.js:79 | none of the names "attack", "defense", "special-attack" and "special-defense" includes "speed" |
| Cards.CardContents | script.js:45-91 | a card shows its Pokémon's name, id and types, a non-empty image and at most four stat lines, all taken from the record |
| Cards.BuildFragment | script.js:125-126 | the fragment holds one card per Pokémon, the i-th built from the i-th Pokémon |
| Cards.RenderShape | script.js:119-128 | the grid shows the "No results found." placeholder exactly for an empty list; otherwise it shows one card per Pokémon, in input order |
| Search.ErrorMessage | script.js:176-189 | the shown error is never empty; a rejection shows its own message, or "Search failed." when the message is empty; no match shows "No matching Pokémon found."; a listing that is not ok shows "Search failed." |
| Search.Matching | script.js:179 | the filter keeps only listing entries whose name includes the needle, and it keeps every such entry |
| Search.MatchingAppend | script.js:179 | filtering distributes over concatenation, so matches stay in listing order |
| Search.MatchingExtremes | script.js:179-182 | there are no matches exactly when no entry's name includes the needle; the filter keeps everything when every entry matches |
| Search.Take | script.js:184 | `slice(0, n)` keeps the first min(n, length) elements unchanged |
| Search.HydrateAllSpec | script.js:184 | hydration succeeds exactly when every detail request succeeds, and then the i-th Pokémon is the i-th detail; a failure carries the message of some failed request |
| Search.ExactWins | script.js:168-172 | an exact hit resolves to that one Pokémon; the answer is the same for any listing and detail endpoints, which are never consulted |
| Search.FallbackResults | script.js:175-186 | a fallback answer comes only after a failed exact lookup and a received listing; it holds 1 to 24 Pokémon, exactly min(24, matches) of them; the i-th is the hydration of the i-th entry whose name includes the lowercased query |
| Search.FallbackTruncates | script.js:184 | with 24 or more matches exactly 24 Pokémon are shown |
| Search.FallbackWhen | script.js:175-186 | once the fallback runs, it succeeds exactly when something matches and each of the first 24 matches hydrates |
| Search.NoMatchIff | script.js:179-182 | the no-match failure happens exactly when the exact lookup fails, the listing arrives, and no entry's name includes the lowercased query |
| Search.ListingFailureMessage | script.js:176-177 | a listing response that is not ok shows "Search failed."; a rejected listing shows its own message, or "Search failed." when it has none |
| Search.InitialListSpec | script.js:102-116 | the default list succeeds exactly when the listing requested with limit 12 arrives and every detail hydrates; it then holds one Pokémon per entry, in listing order |
| Preferences.Set | script.js:29 | after `storage.set(key, v)` the key reads back v and every other key reads as before |
| Preferences.SetSameValue | script.js:29 | writing back a key's current value leaves storage unchanged |
| Preferences.StoredTheme | script.js:34 | an absent or empty stored theme reads as "light"; any other stored value is returned as is |
| Preferences.LastSearchReadsBack | script.js:27-30 | a query written to `lastSearch` is read back unchanged as the stored search |
| Preferences.KeysIndependent | script.js:27-30 | writing the theme leaves the stored search as it was, and writing the search leaves the stored theme as it was |
| Preferences.ThemeReadsBack | script.js:28-35 | a written non-empty theme reads back as itself; an empty one reads as "light" |
| Session.ToggleTwice | script.js:37-41 | toggling twice restores the applied theme and stores that theme's name; if that name was already stored, the state is unchanged |
| Session.ToggleSurvivesReload | script.js:33-41 | toggling flips the theme, and a reload that reapplies the stored theme shows the toggled theme |
| Session.ThemeDefaultsToLight | script.js:33-36 | the page is dark exactly when "dark" is stored; a missing or empty stored theme gives light |
| Session.SearchNonBlankFrame | script.js:166-187 | a search keeps the theme and the input; it writes the query to `lastSearch` exactly when persisting was asked and the search did not fail |
| Session.SearchNonBlankView | script.js:166-187 | what a search shows (grid and error) does not depend on persisting or on the rest of the state |
| Session.SearchNonBlankExact | script.js:168-172 | on an exact hit the search shows exactly that one card and then writes the query iff persisting was asked |
| Session.InitKeepsStorage | script.js:131-152 | `init` never writes storage |
| Session.ExactSearchEffect | script.js:155-172 | an exact hit clears the error and shows exactly that one card; it stores the trimmed query if and only if persisting was asked |
| Session.FallbackSearchEffect | script.js:174-186 | a fallback hit clears the error, shows 1 to 24 cards of the hydrated matches, and stores the trimmed query if and only if persisting was asked |
| Session.FailedSearchEffect | script.js:175-191 | a failed search shows its non-empty message over an empty grid and leaves storage, theme and input unchanged |
| Session.LastSearchWrite | script.js:155-187 | `lastSearch` becomes the trimmed, not lowercased, query exactly when the query is not blank, persisting was asked and the search succeeded; otherwise storage is unchanged |
| Session.BlankSubmitRunsInit | script.js:156-163 | a blank submit writes nothing and behaves as `init` on the cleared page |
| Session.BlankSubmitReplaysStoredSearch | script.js:131-163 | a blank submit with a stored search replays that search without persisting, and does not load the default list |
| Session.LoadDefaultEffect | script.js:139-151 | on success the error is cleared and the grid shows the hydrated default list; on failure "Unable to load Pokémon list. Try again later." is shown over the grid as it was; storage, theme and input never change; the error stays hidden exactly when the listing arrives and every detail hydrates |
| Session.ResetLoadsDefault | script.js:202-206 | reset clears the input and stores an empty `lastSearch`, so `init` takes the default-list branch |
| Session.RestoreMatchesSubmit | script.js:135-138 | restoring a stored search at startup shows the same grid and error as submitting that text |
| Session.WrittenQueryTrimmed | script.js:171 | the value a search writes to `lastSearch` is trimmed |
| Session.SearchKeepsQueryTrimmed | script.js:155-187 | a search keeps the stored `lastSearch` trimmed |
| Session.InitKeepsQueryTrimmed | script.js:131-152 | `init` keeps the stored `lastSearch` trimmed |
| Session.SubmitKeepsQueryTrimmed | script.js:196-200 | submitting keeps the stored `lastSearch` trimmed |
| Session.ResetStoresTrimmedQuery | script.js:202-206 | after reset the stored `lastSearch` is trimmed, whatever was stored before |
| Session.ToggleKeepsLastSearch | script.js:37-41 | toggling the theme leaves the stored `lastSearch` as it was |
| Session.BlankStoredSearchNeverFinishes | script.js:135-138 | `init` as written never finishes, at any call depth, when the stored `lastSearch` is non-empty but only whitespace |
| Session.OneSpaceStoredSearch | script.js:135-138 | a stored `lastSearch` of one space is such a case |
| Session.InitAsWrittenAgrees | script.js:131-152 | `init` as written gives the same result as the modelled `init` whenever the stored search is trimmed |
| Session.AsWrittenAgreesOnTrimmedStore | script.js:155-163 | `doSearch` as written gives the same result as the modelled one whenever the stored search is trimmed |
| Session.BlankStoredSearchLoadsDefault | script.js:131-152 | the modelled `init` loads the default list when the stored search is blank |
| Controller.App.constructor | script.js:5-13 | the page before `init`: the persisted storage, the light theme, an empty grid, no error and an empty input |
| Controller.App.ApplyThemeFromStorage | script.js:33-36 | the method makes exactly the `applyThemeFromStorage` transition |
| Controller.App.ToggleTheme | script.js:37-41 | the method makes exactly the `toggleTheme` transition |
| Controller.App.RenderCards | script.js:119-128 | only the grid changes, and it becomes the rendering of the list |
| Controller.App.LoadDefault | script.js:139-151 | the method makes exactly the default-list transition of `init` |
| Controller.App.Init | script.js:131-152 | the method makes exactly the `init` transition |
| Controller.App.DoSearch | script.js:155-193 | the method makes exactly the `doSearch` transition |
| Controller.App.SearchNonBlank | script.js:166-191 | the method makes exactly the transition of the search proper on a trimmed, non-blank query |
| Controller.App.Submit | script.js:196-200 | the method makes exactly the submit transition |
| Controller.App.Reset | script.js:202-206 | the method makes exactly the reset transition |

## Left out

- HTTP `fetch`, `res.json()` and `encodeURIComponent` are external I/O. They are the three fields of a `Network` value, and URL building is not modelled.
- DOM construction, CSS classes and the loading indicator are UI. A card is the record of what it displays, and the grid is `Blank`, `NoResults` or the cards.
- `Promise.all` fan-out, async interleaving, and overlapping searches (last writer wins) are concurrency, and are not modelled. The un-awaited `init()` inside `doSearch` is modelled as running to completion at that point.
- Search.HydrateAll: when several detail requests fail, the model reports the first failure in listing order. The code reports whichever rejection settles first.
- The `height/10` and `weight/10` display and the stat-line text are floating point and number formatting. A card keeps the raw numbers and the `Stat` values.
- JSON (de)serialisation in `storage` is left out. Stored values are decoded strings; malformed data reads as absent. Non-string JSON values such as numbers or booleans are not modelled.
- Text.ToLower: lowers only the ASCII letters A–Z. `toLowerCase` uses full Unicode case mapping, which is left out.
- A listing body without `results` is not modelled. `doSearch` would throw a TypeError and `fetchInitialList` would use `[]`. The model's listing always carries a sequence.
- A detail body that is not a Pokémon record is modelled as a rejected detail request. In the code, `createCard` throws inside `renderCards` and the catch block shows the error.
- Session.LoadDefault: for such a malformed detail body on the default-list path, the model keeps the old grid. The code has already emptied the grid in `renderCards` (script.js:120) before `createCard` throws (script.js:126), so it shows the list error over an empty grid. On the search path the grid is already empty, so the two agree there except for the message text.
- Storage writes are assumed to succeed. `localStorage.setItem` can throw (quota or security errors, script.js:29). At script.js:171 such a throw would send an exact hit into the fallback search, at script.js:186 it would show the error over the freshly rendered cards, and at script.js:40 the page would already show the new theme (script.js:39) while storage kept the old one until a reload. None of this is modelled.
- The message of `fetchPokemon`'s own error is never shown, so the exact lookup is only `Some`/`None`.
- `query || ''` only matters for a missing argument, which no caller passes. A truthy non-string stored `lastSearch` (a number or `true`, say) reaches `doSearch` from `init` (script.js:135-138), and `.trim()` then throws at script.js:156 before the page is touched, leaving `init`'s promise rejected. Like every non-string stored value, this is not modelled.
- The page's initial markup (`index.html`) is not part of this model. The constructor starts from an empty grid and the light theme.
- Session.Init and Controller.App.Init: a stored `lastSearch` that is only whitespace loads the default list. The code as written recurses without end instead; see Findings.

## Findings

| source | as written | input that shows it | evidently intended | confidence | as-written member | corrected member |
|---|---|---|---|---|---|---|
| script.js:135-138 | `init` replays any non-empty stored `lastSearch`. `doSearch` trims a whitespace-only one to `''` and calls `init` again, which replays it again, with no `await` in between, until the call stack is used up; what the page shows after that depends on where the engine raises the overflow | `localStorage.lastSearch` holding `" "` (one space), written outside the app | a stored search that is blank loads the default list, as an empty one does | medium, not executed; the app's own writes are always trimmed (Session.SearchKeepsQueryTrimmed), so only an externally edited store reaches it | Session.BlankStoredSearchNeverFinishes | Session.BlankStoredSearchLoadsDefault |
