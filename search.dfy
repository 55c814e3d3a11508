/**
 * The search resolution of `doSearch` and the default listing of `fetchInitialList`:
 * exact lookup first, else a substring filter over the first 200 listing entries,
 * truncated to 24 and hydrated all-or-nothing.
 */
module Search {
  import opened Wrappers
  import opened Text
  import opened Catalog

  const DefaultCount: nat := 12
  const FallbackLimit: nat := 200
  const MaxFallbackResults: nat := 24

  const SearchFailedMessage := "Search failed."
  const NoMatchMessage := "No matching Pokémon found."
  const ListLoadFailedMessage := "Unable to load Pokémon list. Try again later."

  /** Why a search showed an error instead of cards. */
  datatype Failure =
    | ListingNotOk              // the listing response was not ok
    | ListingThrew(message: string)  // the listing request was rejected
    | NoMatch                   // no listing entry contains the query
    | HydrationThrew(message: string) // a detail request was rejected

  /** How a non-empty query resolves. */
  datatype Outcome = Exact(pokemon: Pokemon) | Fallback(pokemons: seq<Pokemon>) | Failed(reason: Failure)

  /** The text `showError(err.message || 'Search failed.')` displays. */
  function ErrorMessage(f: Failure): (m: string)
    ensures m != ""
    ensures (f.ListingThrew? || f.HydrationThrew?) && f.message != "" ==> m == f.message
    ensures (f.ListingThrew? || f.HydrationThrew?) && f.message == "" ==> m == SearchFailedMessage
    ensures f == NoMatch ==> m == NoMatchMessage
    ensures f == ListingNotOk ==> m == SearchFailedMessage
  {
    match f
    case ListingNotOk => SearchFailedMessage
    case NoMatch => NoMatchMessage
    case ListingThrew(msg) => if msg == "" then SearchFailedMessage else msg
    case HydrationThrew(msg) => if msg == "" then SearchFailedMessage else msg
  }

  /** `results.filter(r => r.name.includes(needle))`. */
  function Matching(entries: seq<ListingEntry>, needle: string): (r: seq<ListingEntry>)
    ensures |r| <= |entries|
    ensures forall e :: e in r ==> e in entries && Contains(e.name, needle)
    ensures forall e :: e in entries && Contains(e.name, needle) ==> e in r
  {
    if entries == [] then []
    else (if Contains(entries[0].name, needle) then [entries[0]] else []) + Matching(entries[1..], needle)
  }

  /** Filtering keeps listing order: it distributes over concatenation. */
  lemma {:induction false} MatchingAppend(a: seq<ListingEntry>, b: seq<ListingEntry>, needle: string)
    ensures Matching(a + b, needle) == Matching(a, needle) + Matching(b, needle)
  {
    if a == [] {
      assert a + b == b;
    } else {
      assert (a + b)[0] == a[0];
      assert (a + b)[1..] == a[1..] + b;
      MatchingAppend(a[1..], b, needle);
    }
  }

  /** The filter is a no-op exactly when every entry already matches, and empty exactly when none does. */
  lemma {:induction false} MatchingExtremes(entries: seq<ListingEntry>, needle: string)
    ensures Matching(entries, needle) == [] <==> forall i :: 0 <= i < |entries| ==> !Contains(entries[i].name, needle)
    ensures (forall i :: 0 <= i < |entries| ==> Contains(entries[i].name, needle)) ==> Matching(entries, needle) == entries
  {
    if entries != [] {
      MatchingExtremes(entries[1..], needle);
      assert forall i :: 0 < i < |entries| ==> entries[i] == entries[1..][i - 1];
      assert entries == [entries[0]] + entries[1..];
    }
  }

  /** `matches.slice(0, n)`. */
  function Take<T>(s: seq<T>, n: nat): (r: seq<T>)
    ensures |r| == if n < |s| then n else |s|
    ensures forall i :: 0 <= i < |r| ==> r[i] == s[i]
  {
    if n < |s| then s[..n] else s
  }

  /**
   * `Promise.all(entries.map(e => fetch(e.url).then(r => r.json())))`: every detail, in entry order,
   * or the failure of the first entry, in entry order, whose request was rejected.
   */
  function HydrateAll(entries: seq<ListingEntry>, detail: string -> Result<Pokemon, string>): (r: Result<seq<Pokemon>, string>)
  {
    if entries == [] then Ok([])
    else match detail(entries[0].url)
      case Err(m) => Err(m)
      case Ok(p) =>
        match HydrateAll(entries[1..], detail)
        case Err(m) => Err(m)
        case Ok(ps) => Ok([p] + ps)
  }

  /** All-or-nothing: success exactly when every detail request succeeds, and then the i-th result is the i-th detail. */
  lemma {:induction false} HydrateAllSpec(entries: seq<ListingEntry>, detail: string -> Result<Pokemon, string>)
    ensures HydrateAll(entries, detail).Ok? <==> forall i :: 0 <= i < |entries| ==> detail(entries[i].url).Ok?
    ensures HydrateAll(entries, detail).Ok? ==>
      |HydrateAll(entries, detail).value| == |entries| &&
      forall i :: 0 <= i < |entries| ==> HydrateAll(entries, detail).value[i] == detail(entries[i].url).value
    ensures HydrateAll(entries, detail).Err? ==>
      exists i :: 0 <= i < |entries| && detail(entries[i].url) == Err(HydrateAll(entries, detail).error)
  {
    if entries != [] {
      HydrateAllSpec(entries[1..], detail);
      assert forall i :: 0 < i < |entries| ==> entries[i] == entries[1..][i - 1];
      var r := HydrateAll(entries, detail);
      if r.Err? && detail(entries[0].url).Ok? {
        var i :| 0 <= i < |entries[1..]| && detail(entries[1..][i].url) == Err(r.error);
        assert detail(entries[i + 1].url) == Err(r.error);
      }
    }
  }

  /**
   * The try-block of `doSearch` for an already trimmed, non-empty query: `fetchPokemon(query)`,
   * and on any failure of it the substring search over the first 200 listing entries.
   */
  function Resolve(query: string, net: Network): (o: Outcome)
  {
    match FetchPokemon(net, query)
    case Some(p) => Exact(p)
    case None =>
      match net.listing(FallbackLimit)
      case NotOk => Failed(ListingNotOk)
      case Threw(m) => Failed(ListingThrew(m))
      case Got(entries) =>
        var matches := Matching(entries, ToLower(query));
        if |matches| == 0 then Failed(NoMatch)
        else match HydrateAll(Take(matches, MaxFallbackResults), net.detail)
          case Err(m) => Failed(HydrationThrew(m))
          case Ok(pokemons) => Fallback(pokemons)
  }

  /** An exact hit is the whole answer, whatever the listing and detail endpoints would say. */
  lemma ExactWins(query: string, net: Network, other: Network, p: Pokemon)
    requires FetchPokemon(net, query) == Some(p)
    requires other.byName(ToLower(query)) == net.byName(ToLower(query))
    ensures Resolve(query, net) == Exact(p)
    ensures Resolve(query, other) == Exact(p)
  {
  }

  /**
   * A fallback answer is the hydration of the first min(24, |matches|) entries whose name contains
   * the lowercased query, in listing order; it is never empty and never longer than 24.
   */
  lemma FallbackResults(query: string, net: Network)
    requires Resolve(query, net).Fallback?
    ensures FetchPokemon(net, query).None? && net.listing(FallbackLimit).Got?
    ensures var matches := Matching(net.listing(FallbackLimit).body, ToLower(query));
            var ps := Resolve(query, net).pokemons;
            && 1 <= |ps| <= MaxFallbackResults
            && |ps| == (if |matches| < MaxFallbackResults then |matches| else MaxFallbackResults)
            && forall i :: 0 <= i < |ps| ==>
                 Contains(matches[i].name, ToLower(query)) && net.detail(matches[i].url) == Ok(ps[i])
  {
    var matches := Matching(net.listing(FallbackLimit).body, ToLower(query));
    var prefix := Take(matches, MaxFallbackResults);
    HydrateAllSpec(prefix, net.detail);
    assert forall i :: 0 <= i < |prefix| ==> matches[i] in matches;
  }

  /** More than 24 matches: exactly the first 24 are shown, in listing order. */
  lemma FallbackTruncates(query: string, net: Network)
    requires Resolve(query, net).Fallback?
    requires |Matching(net.listing(FallbackLimit).body, ToLower(query))| >= MaxFallbackResults
    ensures |Resolve(query, net).pokemons| == MaxFallbackResults
  {
    FallbackResults(query, net);
  }

  /** When the fallback runs, it succeeds exactly when some entry matches and each of the first 24 matches hydrates. */
  lemma FallbackWhen(query: string, net: Network)
    requires FetchPokemon(net, query).None? && net.listing(FallbackLimit).Got?
    ensures var matches := Matching(net.listing(FallbackLimit).body, ToLower(query));
      Resolve(query, net).Fallback? <==>
        |matches| > 0 && forall i :: 0 <= i < |matches| && i < MaxFallbackResults ==> net.detail(matches[i].url).Ok?
  {
    var matches := Matching(net.listing(FallbackLimit).body, ToLower(query));
    HydrateAllSpec(Take(matches, MaxFallbackResults), net.detail);
  }

  /** "No matching Pokémon found." is reported exactly when the exact lookup fails and no listing entry contains the query. */
  lemma NoMatchIff(query: string, net: Network)
    ensures Resolve(query, net) == Failed(NoMatch) <==>
      FetchPokemon(net, query).None? && net.listing(FallbackLimit).Got? &&
      forall i :: 0 <= i < |net.listing(FallbackLimit).body| ==> !Contains(net.listing(FallbackLimit).body[i].name, ToLower(query))
  {
    if FetchPokemon(net, query).None? && net.listing(FallbackLimit).Got? {
      MatchingExtremes(net.listing(FallbackLimit).body, ToLower(query));
    }
  }

  /** A listing response that is not ok reports "Search failed."; a rejected one reports its message, or that text when it has none. */
  lemma ListingFailureMessage(query: string, net: Network)
    requires FetchPokemon(net, query).None?
    ensures net.listing(FallbackLimit).NotOk? ==> ErrorMessage(Resolve(query, net).reason) == SearchFailedMessage
    ensures net.listing(FallbackLimit).Threw? ==>
      ErrorMessage(Resolve(query, net).reason) ==
        (if net.listing(FallbackLimit).message == "" then SearchFailedMessage else net.listing(FallbackLimit).message)
  {
  }

  /** `fetchInitialList(12)`: the first 12 listing entries, all hydrated, or a failure. */
  function FetchInitialList(net: Network): (r: Result<seq<Pokemon>, ()>)
  {
    match net.listing(DefaultCount)
    case Got(entries) =>
      (match HydrateAll(entries, net.detail) case Ok(ps) => Ok(ps) case Err(_) => Err(()))
    case _ => Err(())
  }

  /** The default list is one Pokémon per listing entry, in listing order, or a failure when any request fails. */
  lemma InitialListSpec(net: Network)
    ensures FetchInitialList(net).Ok? <==>
      net.listing(DefaultCount).Got? &&
      forall i :: 0 <= i < |net.listing(DefaultCount).body| ==> net.detail(net.listing(DefaultCount).body[i].url).Ok?
    ensures FetchInitialList(net).Ok? ==>
      |FetchInitialList(net).value| == |net.listing(DefaultCount).body| &&
      forall i :: 0 <= i < |FetchInitialList(net).value| ==>
        net.detail(net.listing(DefaultCount).body[i].url) == Ok(FetchInitialList(net).value[i])
  {
    if net.listing(DefaultCount).Got? {
      HydrateAllSpec(net.listing(DefaultCount).body, net.detail);
    }
  }
}
