/**
 * The catalog's records and the three HTTP reads the app makes against the public API.
 * The network is not simulated: what each request would answer is given as data.
 */
module Catalog {
  import opened Wrappers
  import Text

  /** The two sprite URLs the card looks at; JSON `null` or a missing key is `None`. */
  datatype Sprites = Sprites(officialArtwork: Option<string>, frontDefault: Option<string>)

  /** One entry of `stats[]`: `stat.name` and `base_stat`. */
  datatype Stat = Stat(name: string, baseStat: int)

  /** A Pokémon record as the detail endpoint returns it. */
  datatype Pokemon = Pokemon(
    id: int,
    name: string,
    height: int,
    weight: int,
    types: seq<string>,
    stats: seq<Stat>,
    sprites: Sprites)

  /** One element of the listing's `results`: a name and the URL of its detail record. */
  datatype ListingEntry = ListingEntry(name: string, url: string)

  /** How a checked request ends: a parsed body, a response whose `ok` is false, or a rejected promise. */
  datatype Fetched<+T> = Got(body: T) | NotOk | Threw(message: string)

  /**
   * The answers the API would give during one user action.
   * - `byName`: `fetch(API_BASE/<identifier>)` followed by `res.json()`, for an already
   *   lowercased identifier; every way it can fail (not ok, rejected, bad JSON) is `None`.
   * - `listing`: `fetch(API_BASE?limit=<n>)` followed by `res.json().results`.
   * - `detail`: `fetch(url).then(r => r.json())`, whose `ok` is never checked; `Err` holds
   *   the rejection's message.
   */
  datatype Network = Network(
    byName: string -> Option<Pokemon>,
    listing: nat -> Fetched<seq<ListingEntry>>,
    detail: string -> Result<Pokemon, string>)

  /** `fetchPokemon(identifier)`: the request path is the lowercased identifier. */
  function FetchPokemon(net: Network, identifier: string): (r: Option<Pokemon>)
  {
    net.byName(Text.ToLower(identifier))
  }

  /** Identifiers that differ only in the case of ASCII letters fetch the same record. */
  lemma FetchIgnoresCase(net: Network, a: string, b: string)
    requires Text.SameIgnoringCase(a, b)
    ensures FetchPokemon(net, a) == FetchPokemon(net, b)
  {
    Text.ToLowerIgnoresCase(a, b);
  }

  /** Lowercasing the identifier first changes nothing: `fetchPokemon` lowercases it itself. */
  lemma FetchLowered(net: Network, identifier: string)
    ensures FetchPokemon(net, Text.ToLower(identifier)) == FetchPokemon(net, identifier)
  {
    Text.ToLowerIdempotent(identifier);
  }
}
