/**
 * The page's controller: the mutable state the handlers share and the handlers themselves.
 * Each method is proved to make exactly the transition Session describes.
 */
module Controller {
  import opened Text
  import opened Catalog
  import opened Cards
  import opened Search
  import opened Preferences
  import Session

  class App {
    var storage: Store     // localStorage, keys decoded
    var dark: bool         // the `dark` class on document.body
    var area: CardArea     // elements.cards
    var error: string      // elements.error; "" while hidden
    var input: string      // elements.searchInput.value

    function State(): Session.AppState
      reads this
    {
      Session.AppState(storage, dark, area, error, input)
    }

    /** The page as loaded, before `init()` runs: persisted storage, light theme, nothing shown. */
    constructor (persisted: Store)
      ensures State() == Session.AppState(persisted, false, Blank, "", "")
    {
      storage := persisted;
      dark := false;
      area := Blank;
      error := "";
      input := "";
    }

    method ApplyThemeFromStorage()
      modifies this
      ensures State() == Session.ApplyThemeFromStorage(old(State()))
    {
      var theme := StoredTheme(storage);
      dark := theme == "dark";
    }

    method ToggleTheme()
      modifies this
      ensures State() == Session.ToggleTheme(old(State()))
    {
      var newTheme := if dark then "light" else "dark";
      dark := newTheme == "dark";
      storage := Set(storage, ThemeKey, newTheme);
    }

    /** `renderCards(pokemons)`: the placeholder for an empty list, else the filled fragment. */
    method RenderCards(pokemons: seq<Pokemon>)
      modifies this
      ensures State() == old(State()).(area := Render(pokemons))
    {
      area := Blank;
      if pokemons == [] {
        area := NoResults;
        return;
      }
      var fragment := BuildFragment(pokemons);
      assert fragment == Render(pokemons).cards;
      area := Shown(fragment);
    }

    /** The default branch of `init`. */
    method LoadDefault(net: Network)
      modifies this
      ensures State() == Session.LoadDefault(old(State()), net)
    {
      error := "";
      var list := FetchInitialList(net);
      if list.Ok? {
        RenderCards(list.value);
      } else {
        error := ListLoadFailedMessage;
      }
    }

    method Init(net: Network)
      modifies this
      ensures State() == Session.Init(old(State()), net)
      decreases 1
    {
      ApplyThemeFromStorage();
      var lastSearch := StoredLastSearch(storage);
      if Trim(lastSearch) != "" {
        input := lastSearch;
        DoSearch(lastSearch, false, net);
      } else {
        LoadDefault(net);
      }
    }

    method DoSearch(query: string, persist: bool, net: Network)
      modifies this
      ensures State() == Session.DoSearch(old(State()), query, persist, net)
      decreases if Trim(query) == "" then 2 else 0
    {
      var q := Trim(query);
      error := "";
      area := Blank;
      ghost var cleared := State();
      assert cleared == old(State()).(error := "", area := Blank);
      if q == "" {
        assert Session.DoSearch(old(State()), query, persist, net) == Session.Init(cleared, net);
        Init(net);
        return;
      }
      assert Session.DoSearch(old(State()), query, persist, net) == Session.SearchNonBlank(cleared, q, persist, net);
      SearchNonBlank(q, persist, net);
    }

    /** The try-block of `doSearch`: render what the query resolves to and remember it, or show the error. */
    method SearchNonBlank(q: string, persist: bool, net: Network)
      modifies this
      ensures State() == Session.SearchNonBlank(old(State()), q, persist, net)
    {
      var outcome := Resolve(q, net);
      match outcome {
        case Exact(p) =>
          RenderCards([p]);
          if persist {
            storage := Set(storage, LastSearchKey, q);
          }
        case Fallback(pokemons) =>
          RenderCards(pokemons);
          if persist {
            storage := Set(storage, LastSearchKey, q);
          }
        case Failed(reason) =>
          error := ErrorMessage(reason);
      }
    }

    /** The search form's submit handler. */
    method Submit(net: Network)
      modifies this
      ensures State() == Session.Submit(old(State()), net)
    {
      DoSearch(input, true, net);
    }

    /** The reset button's click handler. */
    method Reset(net: Network)
      modifies this
      ensures State() == Session.Reset(old(State()), net)
    {
      ghost var before := State();
      input := "";
      storage := Set(storage, LastSearchKey, "");
      assert State() == before.(input := "", storage := Set(before.storage, LastSearchKey, ""));
      Init(net);
    }
  }
}
