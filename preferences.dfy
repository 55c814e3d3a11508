/**
 * The `storage` wrapper over `localStorage`: the persisted keys as a map from key to the
 * decoded string; a key that is absent or holds malformed JSON reads as absent.
 */
module Preferences {
  import opened Wrappers

  type Store = map<string, string>

  const ThemeKey := "theme"
  const LastSearchKey := "lastSearch"

  /** `storage.get(key)`. */
  function Get(store: Store, key: string): Option<string>
  {
    if key in store then Some(store[key]) else None
  }

  /** `storage.set(key, value)`: the key reads back the value and every other key is untouched. */
  function Set(store: Store, key: string, value: string): (r: Store)
    ensures Get(r, key) == Some(value)
    ensures forall k :: k != key ==> Get(r, k) == Get(store, k)
    ensures r.Keys == store.Keys + {key}
  {
    store[key := value]
  }

  /** Writing back the value a key already holds changes nothing. */
  lemma SetSameValue(store: Store, key: string, value: string)
    requires Get(store, key) == Some(value)
    ensures Set(store, key, value) == store
  {
  }

  /** `storage.get('theme') || 'light'`: an absent or empty theme reads as light. */
  function StoredTheme(store: Store): (t: string)
    ensures t != ""
    ensures Get(store, ThemeKey).None? || Get(store, ThemeKey) == Some("") ==> t == "light"
    ensures Get(store, ThemeKey).Some? && Get(store, ThemeKey).value != "" ==> t == Get(store, ThemeKey).value
  {
    match Get(store, ThemeKey)
    case Some(t) => if t == "" then "light" else t
    case None => "light"
  }

  /** `storage.get('lastSearch') || ''`. */
  function StoredLastSearch(store: Store): (q: string)
  {
    match Get(store, LastSearchKey)
    case Some(q) => q
    case None => ""
  }

  /** A search written to `lastSearch` reads back unchanged, and is the stored search from then on. */
  lemma LastSearchReadsBack(store: Store, query: string)
    ensures StoredLastSearch(Set(store, LastSearchKey, query)) == query
  {
  }

  /** Writing the theme does not change the stored search, and writing the search does not change the theme. */
  lemma KeysIndependent(store: Store, value: string)
    ensures StoredLastSearch(Set(store, ThemeKey, value)) == StoredLastSearch(store)
    ensures StoredTheme(Set(store, LastSearchKey, value)) == StoredTheme(store)
  {
  }

  /** A non-empty theme written to `theme` is the theme read back; an empty one reads as light. */
  lemma ThemeReadsBack(store: Store, theme: string)
    ensures StoredTheme(Set(store, ThemeKey, theme)) == if theme == "" then "light" else theme
  {
  }
}
