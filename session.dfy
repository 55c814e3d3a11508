/**
 * The app's observable state and its transitions (`init`, `doSearch`, the submit and reset
 * handlers, `toggleTheme`, `applyThemeFromStorage`) as functions from state to state.
 * The class in module Controller is proved to make exactly these transitions.
 */
module Session {
  import opened Wrappers
  import opened Text
  import opened Catalog
  import opened Cards
  import opened Search
  import opened Preferences

  /**
   * What survives a reload (`storage`) and what the page shows: the `dark` class on the body,
   * the card grid, the error region ("" when hidden) and the search input's text.
   */
  datatype AppState = AppState(storage: Store, dark: bool, area: CardArea, error: string, input: string)

  function ThemeName(dark: bool): string
  {
    if dark then "dark" else "light"
  }

  /** `applyThemeFromStorage()`. */
  function ApplyThemeFromStorage(s: AppState): AppState
  {
    s.(dark := StoredTheme(s.storage) == "dark")
  }

  /** `toggleTheme()`: flips the body class and persists the new theme. */
  function ToggleTheme(s: AppState): AppState
  {
    var theme := if s.dark then "light" else "dark";
    s.(dark := theme == "dark", storage := Set(s.storage, ThemeKey, theme))
  }

  /** After a successful render, `if(store) storage.set('lastSearch', query)`. */
  function Remember(s: AppState, query: string, persist: bool): AppState
  {
    if persist then s.(storage := Set(s.storage, LastSearchKey, query)) else s
  }

  /** The try-block of `doSearch` once the query is trimmed and non-empty. */
  function SearchNonBlank(s: AppState, query: string, persist: bool, net: Network): AppState
  {
    match Resolve(query, net)
    case Exact(p) => Remember(s.(area := Render([p])), query, persist)
    case Fallback(ps) => Remember(s.(area := Render(ps)), query, persist)
    case Failed(f) => s.(error := ErrorMessage(f))
  }

  /**
   * The default branch of `init`: the first 12 Pokémon, or the list error. A failed listing or a
   * rejected detail request throws before `renderCards`, so the grid is left as it was.
   */
  function LoadDefault(s: AppState, net: Network): AppState
  {
    match FetchInitialList(net)
    case Ok(ps) => s.(error := "", area := Render(ps))
    case Err(_) => s.(error := ListLoadFailedMessage)
  }

  /**
   * `init()`: applies the stored theme, then replays the stored search without persisting it,
   * or loads the default list. A stored search that is only whitespace counts as none
   * (see InitAsWritten for the code as written).
   */
  function Init(s: AppState, net: Network): AppState
    decreases 1
  {
    var s1 := ApplyThemeFromStorage(s);
    var last := StoredLastSearch(s1.storage);
    if Trim(last) != "" then DoSearch(s1.(input := last), last, false, net)
    else LoadDefault(s1, net)
  }

  /** `doSearch(query, {store: persist})`: a blank query clears the page and hands over to `init`. */
  function DoSearch(s: AppState, query: string, persist: bool, net: Network): AppState
    decreases if Trim(query) == "" then 2 else 0
  {
    var q := Trim(query);
    var s1 := s.(error := "", area := Blank);
    if q == "" then Init(s1, net) else SearchNonBlank(s1, q, persist, net)
  }

  /** The submit handler: searches the input's text and persists it on success. */
  function Submit(s: AppState, net: Network): AppState
  {
    DoSearch(s, s.input, true, net)
  }

  /** The reset handler: clears the input, stores an empty last search, then runs `init`. */
  function Reset(s: AppState, net: Network): AppState
  {
    Init(s.(input := "", storage := Set(s.storage, LastSearchKey, "")), net)
  }

  // ---------------------------------------------------------------------------------------
  // Theme

  /** Toggling twice restores the applied theme and leaves the stored theme naming it. */
  lemma ToggleTwice(s: AppState)
    ensures ToggleTheme(ToggleTheme(s)).dark == s.dark
    ensures ToggleTheme(ToggleTheme(s)).storage == Set(s.storage, ThemeKey, ThemeName(s.dark))
    ensures Get(s.storage, ThemeKey) == Some(ThemeName(s.dark)) ==> ToggleTheme(ToggleTheme(s)) == s
  {
    if Get(s.storage, ThemeKey) == Some(ThemeName(s.dark)) {
      SetSameValue(s.storage, ThemeKey, ThemeName(s.dark));
    }
  }

  /** The toggled theme is persisted: a reload applies it again, whatever the page showed before. */
  lemma ToggleSurvivesReload(s: AppState, reloaded: AppState)
    requires reloaded.storage == ToggleTheme(s).storage
    ensures ApplyThemeFromStorage(reloaded).dark == ToggleTheme(s).dark
    ensures ToggleTheme(s).dark != s.dark
  {
  }

  /** Only a stored "dark" gives the dark theme; a missing or empty stored theme gives light. */
  lemma ThemeDefaultsToLight(s: AppState)
    ensures ApplyThemeFromStorage(s).dark <==> Get(s.storage, ThemeKey) == Some("dark")
    ensures Get(s.storage, ThemeKey).None? || Get(s.storage, ThemeKey) == Some("") ==> !ApplyThemeFromStorage(s).dark
  {
  }

  // ---------------------------------------------------------------------------------------
  // Search

  /** An exact hit renders that one Pokémon, clears the error and stores the trimmed query iff asked to. */
  lemma ExactSearchEffect(s: AppState, query: string, persist: bool, net: Network, p: Pokemon)
    requires Trim(query) != "" && FetchPokemon(net, Trim(query)) == Some(p)
    ensures DoSearch(s, query, persist, net) ==
      s.(error := "", area := Shown([CreateCard(p)]),
         storage := if persist then Set(s.storage, LastSearchKey, Trim(query)) else s.storage)
  {
    var cleared := s.(error := "", area := Blank);
    assert DoSearch(s, query, persist, net) == SearchNonBlank(cleared, Trim(query), persist, net);
    ExactWins(Trim(query), net, net, p);
    SearchNonBlankExact(cleared, Trim(query), persist, net, p);
  }

  /** The search proper on an exact hit: one card, then the optional write. */
  lemma SearchNonBlankExact(s: AppState, query: string, persist: bool, net: Network, p: Pokemon)
    requires Resolve(query, net) == Exact(p)
    ensures SearchNonBlank(s, query, persist, net) == Remember(s.(area := Shown([CreateCard(p)])), query, persist)
  {
    assert Render([p]) == Shown([CreateCard(p)]);
  }

  /** A fallback hit renders the hydrated matches, clears the error and stores the trimmed query iff asked to. */
  lemma FallbackSearchEffect(s: AppState, query: string, persist: bool, net: Network)
    requires Trim(query) != "" && Resolve(Trim(query), net).Fallback?
    ensures var ps := Resolve(Trim(query), net).pokemons;
      DoSearch(s, query, persist, net) ==
        s.(error := "", area := Render(ps),
           storage := if persist then Set(s.storage, LastSearchKey, Trim(query)) else s.storage)
    ensures DoSearch(s, query, persist, net).area.Shown?
    ensures 1 <= |DoSearch(s, query, persist, net).area.cards| <= MaxFallbackResults
  {
    FallbackResults(Trim(query), net);
  }

  /** A failed search shows its message over an empty grid and writes nothing. */
  lemma FailedSearchEffect(s: AppState, query: string, persist: bool, net: Network)
    requires Trim(query) != "" && Resolve(Trim(query), net).Failed?
    ensures DoSearch(s, query, persist, net) ==
      s.(error := ErrorMessage(Resolve(Trim(query), net).reason), area := Blank)
    ensures DoSearch(s, query, persist, net).error != ""
  {
  }

  /** The search proper changes only the grid, the error and, on success when asked to, `lastSearch`. */
  lemma SearchNonBlankFrame(s: AppState, query: string, persist: bool, net: Network)
    ensures SearchNonBlank(s, query, persist, net).dark == s.dark
    ensures SearchNonBlank(s, query, persist, net).input == s.input
    ensures SearchNonBlank(s, query, persist, net).storage ==
      if persist && !Resolve(query, net).Failed? then Set(s.storage, LastSearchKey, query) else s.storage
  {
    match Resolve(query, net)
    case Exact(p) =>
    case Fallback(ps) =>
    case Failed(f) =>
  }

  /** What the search shows depends on the query and the network only, not on persisting or on the rest of the state. */
  lemma SearchNonBlankView(s: AppState, t: AppState, query: string, persist: bool, persist': bool, net: Network)
    requires s.area == t.area && s.error == t.error
    ensures SearchNonBlank(s, query, persist, net).area == SearchNonBlank(t, query, persist', net).area
    ensures SearchNonBlank(s, query, persist, net).error == SearchNonBlank(t, query, persist', net).error
  {
    match Resolve(query, net)
    case Exact(p) =>
    case Fallback(ps) =>
    case Failed(f) =>
  }

  /** `init` never writes storage. */
  lemma InitKeepsStorage(s: AppState, net: Network)
    ensures Init(s, net).storage == s.storage
  {
    var s1 := ApplyThemeFromStorage(s);
    var last := StoredLastSearch(s1.storage);
    if Trim(last) != "" {
      var s2 := s1.(input := last);
      assert DoSearch(s2, last, false, net) == SearchNonBlank(s2.(error := "", area := Blank), Trim(last), false, net);
      SearchNonBlankFrame(s2.(error := "", area := Blank), Trim(last), false, net);
    }
  }

  /**
   * The only write of `doSearch`: `lastSearch` becomes the trimmed (not lowercased) query exactly
   * when the query is not blank, persisting was asked for and the search rendered something.
   */
  lemma LastSearchWrite(s: AppState, query: string, persist: bool, net: Network)
    ensures DoSearch(s, query, persist, net).storage ==
      if persist && Trim(query) != "" && !Resolve(Trim(query), net).Failed?
      then Set(s.storage, LastSearchKey, Trim(query))
      else s.storage
  {
    var cleared := s.(error := "", area := Blank);
    if Trim(query) == "" {
      assert DoSearch(s, query, persist, net) == Init(cleared, net);
      InitKeepsStorage(cleared, net);
    } else {
      assert DoSearch(s, query, persist, net) == SearchNonBlank(cleared, Trim(query), persist, net);
      SearchNonBlankFrame(cleared, Trim(query), persist, net);
    }
  }

  /** A blank submit writes nothing and behaves as `init` on the cleared page. */
  lemma BlankSubmitRunsInit(s: AppState, net: Network)
    requires Trim(s.input) == ""
    ensures Submit(s, net) == Init(s.(error := "", area := Blank), net)
    ensures Submit(s, net).storage == s.storage
  {
    InitKeepsStorage(s.(error := "", area := Blank), net);
  }

  /** A blank submit with a stored search replays that search (without persisting) instead of the default list. */
  lemma BlankSubmitReplaysStoredSearch(s: AppState, net: Network)
    requires Trim(s.input) == "" && Trim(StoredLastSearch(s.storage)) != ""
    ensures var last := StoredLastSearch(s.storage);
      Submit(s, net) == DoSearch(ApplyThemeFromStorage(s).(input := last), last, false, net)
  {
    var last := StoredLastSearch(s.storage);
    var cleared := s.(error := "", area := Blank);
    var s1 := ApplyThemeFromStorage(cleared);
    assert Submit(s, net) == Init(cleared, net);
    assert StoredLastSearch(s1.storage) == last;
    assert Init(cleared, net) == DoSearch(s1.(input := last), last, false, net);
    assert s1.(input := last).(error := "", area := Blank) ==
           ApplyThemeFromStorage(s).(input := last).(error := "", area := Blank);
  }

  /**
   * The default list: on success the error is cleared and the grid shows the hydrated list; on
   * failure the list error is shown over the grid as it was. Storage, theme and input never change,
   * and the error stays hidden exactly when the listing arrives and every detail request succeeds.
   */
  lemma LoadDefaultEffect(s: AppState, net: Network)
    ensures LoadDefault(s, net).storage == s.storage && LoadDefault(s, net).dark == s.dark
    ensures LoadDefault(s, net).input == s.input
    ensures FetchInitialList(net).Ok? ==>
      LoadDefault(s, net) == s.(error := "", area := Render(FetchInitialList(net).value))
    ensures FetchInitialList(net).Err? ==> LoadDefault(s, net) == s.(error := ListLoadFailedMessage)
    ensures LoadDefault(s, net).error == "" <==>
      net.listing(DefaultCount).Got? &&
      forall i :: 0 <= i < |net.listing(DefaultCount).body| ==> net.detail(net.listing(DefaultCount).body[i].url).Ok?
  {
    InitialListSpec(net);
  }

  /** Reset leaves an empty stored search, so `init` takes the default-list branch. */
  lemma ResetLoadsDefault(s: AppState, net: Network)
    ensures Reset(s, net) ==
      LoadDefault(ApplyThemeFromStorage(s).(input := "", storage := Set(s.storage, LastSearchKey, "")), net)
    ensures StoredLastSearch(Reset(s, net).storage) == "" && Reset(s, net).input == ""
  {
    var s1 := s.(input := "", storage := Set(s.storage, LastSearchKey, ""));
    assert StoredLastSearch(s1.storage) == "";
    BlankStoredSearchLoadsDefault(s1, net);
    assert ApplyThemeFromStorage(s1) == ApplyThemeFromStorage(s).(input := "", storage := Set(s.storage, LastSearchKey, ""));
    assert LoadDefault(ApplyThemeFromStorage(s1), net).storage == s1.storage;
  }

  /** Restoring a stored search at startup shows what submitting that text shows, error included. */
  lemma RestoreMatchesSubmit(s: AppState, net: Network)
    requires Trim(StoredLastSearch(s.storage)) != ""
    ensures var last := StoredLastSearch(s.storage);
      Init(s, net).area == Submit(s.(input := last), net).area &&
      Init(s, net).error == Submit(s.(input := last), net).error
  {
    var last := StoredLastSearch(s.storage);
    var restored := ApplyThemeFromStorage(s).(input := last).(error := "", area := Blank);
    var submitted := s.(input := last).(error := "", area := Blank);
    assert Init(s, net) == SearchNonBlank(restored, Trim(last), false, net);
    assert Submit(s.(input := last), net) == SearchNonBlank(submitted, Trim(last), true, net);
    SearchNonBlankView(restored, submitted, Trim(last), false, true, net);
  }

  // ---------------------------------------------------------------------------------------
  // The stored search is always trimmed

  /** Every value the app writes to `lastSearch` is a trimmed string. */
  predicate StoredQueryTrimmed(store: Store)
  {
    Trim(StoredLastSearch(store)) == StoredLastSearch(store)
  }

  /** Writing a trimmed query keeps the stored search trimmed. */
  lemma WrittenQueryTrimmed(store: Store, query: string)
    ensures StoredQueryTrimmed(Set(store, LastSearchKey, Trim(query)))
  {
    TrimIdempotent(query);
  }

  /** A search writes only a trimmed query, so it keeps the stored search trimmed. */
  lemma SearchKeepsQueryTrimmed(s: AppState, query: string, persist: bool, net: Network)
    requires StoredQueryTrimmed(s.storage)
    ensures StoredQueryTrimmed(DoSearch(s, query, persist, net).storage)
  {
    LastSearchWrite(s, query, persist, net);
    WrittenQueryTrimmed(s.storage, query);
  }

  /** `init` keeps the stored search trimmed: it writes nothing. */
  lemma InitKeepsQueryTrimmed(s: AppState, net: Network)
    requires StoredQueryTrimmed(s.storage)
    ensures StoredQueryTrimmed(Init(s, net).storage)
  {
    InitKeepsStorage(s, net);
  }

  /** Submitting keeps the stored search trimmed. */
  lemma SubmitKeepsQueryTrimmed(s: AppState, net: Network)
    requires StoredQueryTrimmed(s.storage)
    ensures StoredQueryTrimmed(Submit(s, net).storage)
  {
    SearchKeepsQueryTrimmed(s, s.input, true, net);
  }

  /** Reset stores the empty search, which is trimmed, whatever was stored before. */
  lemma ResetStoresTrimmedQuery(s: AppState, net: Network)
    ensures StoredQueryTrimmed(Reset(s, net).storage)
  {
    ResetLoadsDefault(s, net);
  }

  /** Toggling the theme does not touch the stored search. */
  lemma ToggleKeepsLastSearch(s: AppState)
    ensures StoredLastSearch(ToggleTheme(s).storage) == StoredLastSearch(s.storage)
  {
    assert Get(ToggleTheme(s).storage, LastSearchKey) == Get(s.storage, LastSearchKey);
  }

  // ---------------------------------------------------------------------------------------
  // The code as written: a whitespace-only stored search

  /**
   * `init` as written, which replays any non-empty stored search. `depth` is the call depth
   * left on the JavaScript stack; `None` means the call did not finish normally because the stack
   * ran out (what the page shows after the overflow depends on where the engine raises it).
   */
  function InitAsWritten(s: AppState, net: Network, depth: nat): Option<AppState>
    decreases depth, 1
  {
    if depth == 0 then None
    else
      var s1 := ApplyThemeFromStorage(s);
      var last := StoredLastSearch(s1.storage);
      if last != "" then DoSearchAsWritten(s1.(input := last), last, false, net, depth - 1)
      else Some(LoadDefault(s1, net))
  }

  /** `doSearch` calling the as-written `init` on a blank query. */
  function DoSearchAsWritten(s: AppState, query: string, persist: bool, net: Network, depth: nat): Option<AppState>
    decreases depth, 2
  {
    var q := Trim(query);
    var s1 := s.(error := "", area := Blank);
    if q == "" then InitAsWritten(s1, net, depth) else Some(SearchNonBlank(s1, q, persist, net))
  }

  /** With a stored search of only whitespace, `init` as written calls itself until the stack runs out. */
  lemma {:induction false} BlankStoredSearchNeverFinishes(s: AppState, net: Network, depth: nat)
    requires StoredLastSearch(s.storage) != "" && Trim(StoredLastSearch(s.storage)) == ""
    ensures InitAsWritten(s, net, depth) == None
    decreases depth
  {
    if depth > 0 {
      var s1 := ApplyThemeFromStorage(s);
      var last := StoredLastSearch(s1.storage);
      var s2 := s1.(input := last).(error := "", area := Blank);
      BlankStoredSearchNeverFinishes(s2, net, depth - 1);
    }
  }

  /** The concrete case: a stored search of one space. */
  lemma OneSpaceStoredSearch(net: Network, depth: nat)
    ensures InitAsWritten(AppState(map[LastSearchKey := " "], false, Blank, "", ""), net, depth) == None
  {
    var s := AppState(map[LastSearchKey := " "], false, Blank, "", "");
    assert StoredLastSearch(s.storage) == " ";
    assert TrimStart(" ") == "";
    BlankStoredSearchNeverFinishes(s, net, depth);
  }

  /** While the stored search is trimmed, as the app's own writes keep it, the code as written and Init agree. */
  lemma AsWrittenAgreesOnTrimmedStore(s: AppState, query: string, persist: bool, net: Network, depth: nat)
    requires StoredQueryTrimmed(s.storage) && depth >= 1
    ensures InitAsWritten(s, net, depth) == Some(Init(s, net))
    ensures DoSearchAsWritten(s, query, persist, net, depth) == Some(DoSearch(s, query, persist, net))
  {
    InitAsWrittenAgrees(s.(error := "", area := Blank), net, depth);
    InitAsWrittenAgrees(s, net, depth);
  }

  lemma InitAsWrittenAgrees(s: AppState, net: Network, depth: nat)
    requires StoredQueryTrimmed(s.storage) && depth >= 1
    ensures InitAsWritten(s, net, depth) == Some(Init(s, net))
  {
  }

  /** The corrected `init`: a blank stored search loads the default list. */
  lemma BlankStoredSearchLoadsDefault(s: AppState, net: Network)
    requires Trim(StoredLastSearch(s.storage)) == ""
    ensures Init(s, net) == LoadDefault(ApplyThemeFromStorage(s), net)
  {
  }
}
