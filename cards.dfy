/**
 * `createCard` and `renderCards`: what each card shows and what the card grid holds.
 * DOM nodes are replaced by the values they display.
 */
module Cards {
  import opened Wrappers
  import opened Text
  import opened Catalog

  const PlaceholderImage := "https://via.placeholder.com/120?text=?"

  /** The allow-list of statistics a card shows, in display order. */
  const StatKeys: seq<string> := ["hp", "attack", "defense", "speed"]

  /** What one card displays. Height and weight stay in the API's units. */
  datatype Card = Card(
    name: string,
    image: string,
    id: int,
    height: int,
    weight: int,
    types: seq<string>,
    stats: seq<Stat>)

  /** The card grid: cleared, the "No results found." placeholder, or cards in order. */
  datatype CardArea = Blank | NoResults | Shown(cards: seq<Card>)

  /** JavaScript truthiness of an optional string: present and non-empty. */
  predicate Truthy(o: Option<string>)
  {
    o.Some? && o.value != ""
  }

  /** `c0 || c1 || … || fallback` over optional strings: the first truthy candidate wins. */
  function FirstTruthy(candidates: seq<Option<string>>, fallback: string): (r: string)
    ensures (forall i :: 0 <= i < |candidates| ==> !Truthy(candidates[i])) ==> r == fallback
    ensures (exists i :: 0 <= i < |candidates| && Truthy(candidates[i])) ==>
              exists i :: 0 <= i < |candidates| && Truthy(candidates[i]) && candidates[i].value == r &&
                          forall j :: 0 <= j < i ==> !Truthy(candidates[j])
  {
    if candidates == [] then fallback
    else if Truthy(candidates[0]) then candidates[0].value
    else
      var r := FirstTruthy(candidates[1..], fallback);
      assert forall i :: 0 < i < |candidates| ==> candidates[i] == candidates[1..][i - 1];
      r
  }

  /** The image precedence of `createCard`: official artwork, then the front sprite, then a placeholder. */
  function ImageUrl(p: Pokemon): (url: string)
  {
    FirstTruthy([p.sprites.officialArtwork, p.sprites.frontDefault], PlaceholderImage)
  }

  lemma ImagePrecedence(p: Pokemon)
    ensures ImageUrl(p) != ""
    ensures Truthy(p.sprites.officialArtwork) ==> ImageUrl(p) == p.sprites.officialArtwork.value
    ensures !Truthy(p.sprites.officialArtwork) && Truthy(p.sprites.frontDefault) ==>
              ImageUrl(p) == p.sprites.frontDefault.value
    ensures !Truthy(p.sprites.officialArtwork) && !Truthy(p.sprites.frontDefault) ==>
              ImageUrl(p) == PlaceholderImage
  {
    var cs := [p.sprites.officialArtwork, p.sprites.frontDefault];
    if Truthy(cs[0]) || Truthy(cs[1]) {
      var i :| 0 <= i < |cs| && Truthy(cs[i]) && cs[i].value == ImageUrl(p) &&
               forall j :: 0 <= j < i ==> !Truthy(cs[j]);
    }
  }

  /** The test `find` applies to a stat name for one allow-list key. */
  predicate StatMatches(statName: string, key: string)
  {
    Contains(statName, key) || (key == "hp" && statName == "hp")
  }

  /** The second disjunct of the test adds nothing: a match is exactly a substring occurrence. */
  lemma StatMatchesIsContains(statName: string, key: string)
    ensures StatMatches(statName, key) <==> Contains(statName, key)
  {
    if key == "hp" && statName == "hp" {
      ContainsSelfAndEmpty(statName);
    }
  }

  /** `stats.find(...)` for one key. */
  function FindStat(stats: seq<Stat>, key: string): (r: Option<Stat>)
  {
    if stats == [] then None
    else if StatMatches(stats[0].name, key) then Some(stats[0])
    else FindStat(stats[1..], key)
  }

  /** `find` answers the first stat, in the record's order, whose name matches, and nothing when none does. */
  lemma {:induction false} FindStatIsFirstMatch(stats: seq<Stat>, key: string)
    ensures FindStat(stats, key).None? <==> forall i :: 0 <= i < |stats| ==> !StatMatches(stats[i].name, key)
    ensures FindStat(stats, key).Some? ==>
      exists i :: 0 <= i < |stats| && stats[i] == FindStat(stats, key).value && StatMatches(stats[i].name, key) &&
                  forall j :: 0 <= j < i ==> !StatMatches(stats[j].name, key)
  {
    if stats != [] && !StatMatches(stats[0].name, key) {
      FindStatIsFirstMatch(stats[1..], key);
      assert forall i :: 0 < i < |stats| ==> stats[i] == stats[1..][i - 1];
      if FindStat(stats, key).Some? {
        var i :| 0 <= i < |stats[1..]| && stats[1..][i] == FindStat(stats, key).value &&
                 StatMatches(stats[1..][i].name, key) &&
                 forall j :: 0 <= j < i ==> !StatMatches(stats[1..][j].name, key);
        assert stats[i + 1] == FindStat(stats, key).value;
      }
    } else if stats != [] {
      assert stats[0] == FindStat(stats, key).value;
    }
  }

  /** The stat lines of a card: one per key that found a stat, in key order. */
  function StatLines(stats: seq<Stat>, keys: seq<string>): (lines: seq<Stat>)
    ensures |lines| <= |keys|
  {
    if keys == [] then []
    else
      (match FindStat(stats, keys[0]) case Some(s) => [s] case None => []) + StatLines(stats, keys[1..])
  }

  /** The lines of a key list are the lines of its first part followed by those of the rest: key order is kept. */
  lemma {:induction false} StatLinesAppend(stats: seq<Stat>, a: seq<string>, b: seq<string>)
    ensures StatLines(stats, a + b) == StatLines(stats, a) + StatLines(stats, b)
  {
    if a == [] {
      assert a + b == b;
    } else {
      assert (a + b)[0] == a[0];
      assert (a + b)[1..] == a[1..] + b;
      StatLinesAppend(stats, a[1..], b);
    }
  }

  /** One key gives one line, its first matching stat, or no line at all when no stat matches it. */
  lemma StatLinesOneKey(stats: seq<Stat>, key: string)
    ensures StatLines(stats, [key]) == if FindStat(stats, key).Some? then [FindStat(stats, key).value] else []
    ensures StatLines(stats, [key]) == [] <==> forall i :: 0 <= i < |stats| ==> !StatMatches(stats[i].name, key)
  {
    assert [key][1..] == [];
    FindStatIsFirstMatch(stats, key);
  }

  /** At most one line per key; every line is a stat of the record matching some key. */
  lemma {:induction false} StatLinesBounded(stats: seq<Stat>, keys: seq<string>)
    ensures |StatLines(stats, keys)| <= |keys|
    ensures forall l :: l in StatLines(stats, keys) ==> l in stats && exists k :: k in keys && StatMatches(l.name, k)
  {
    if keys != [] {
      StatLinesBounded(stats, keys[1..]);
      FindStatIsFirstMatch(stats, keys[0]);
    }
  }

  /** A key that some stat matches contributes its first matching stat as a line. */
  lemma {:induction false} StatLineForKey(stats: seq<Stat>, keys: seq<string>, n: nat)
    requires n < |keys|
    ensures FindStat(stats, keys[n]).Some? ==> FindStat(stats, keys[n]).value in StatLines(stats, keys)
  {
    if n > 0 {
      StatLineForKey(stats, keys[1..], n - 1);
    }
  }

  /** A key that no stat matches contributes no line: the keys around it give all the lines. */
  lemma StatLineForMissingKey(stats: seq<Stat>, keys: seq<string>, n: nat)
    requires n < |keys| && FindStat(stats, keys[n]).None?
    ensures StatLines(stats, keys) == StatLines(stats, keys[..n]) + StatLines(stats, keys[n + 1..])
  {
    assert keys == keys[..n] + [keys[n]] + keys[n + 1..];
    StatLinesAppend(stats, keys[..n] + [keys[n]], keys[n + 1..]);
    StatLinesAppend(stats, keys[..n], [keys[n]]);
    StatLinesOneKey(stats, keys[n]);
  }

  /** The six stats in the order the API lists them. */
  function StandardStats(hp: int, atk: int, def: int, spa: int, spd: int, spe: int): seq<Stat>
  {
    [Stat("hp", hp), Stat("attack", atk), Stat("defense", def), Stat("special-attack", spa),
     Stat("special-defense", spd), Stat("speed", spe)]
  }

  /**
   * With the API's usual stat order the allow-list picks the four base stats: "attack" and
   * "defense" hit their own entries before the "special-" ones that also contain them.
   */
  lemma StandardStatOrder(hp: int, atk: int, def: int, spa: int, spd: int, spe: int)
    ensures StatLines(StandardStats(hp, atk, def, spa, spd, spe), StatKeys)
         == [Stat("hp", hp), Stat("attack", atk), Stat("defense", def), Stat("speed", spe)]
  {
    var stats := StandardStats(hp, atk, def, spa, spd, spe);
    StandardFirstThree(hp, atk, def, spa, spd, spe);
    StandardSpeed(hp, atk, def, spa, spd, spe);
    LinesOfFourKeys(stats, stats[0], stats[1], stats[2], stats[5]);
  }

  lemma StandardFirstThree(hp: int, atk: int, def: int, spa: int, spd: int, spe: int)
    ensures var stats := StandardStats(hp, atk, def, spa, spd, spe);
      FindStat(stats, "hp") == Some(stats[0]) && FindStat(stats, "attack") == Some(stats[1]) &&
      FindStat(stats, "defense") == Some(stats[2])
  {
    var stats := StandardStats(hp, atk, def, spa, spd, spe);
    ContainsSelfAndEmpty("attack");
    ContainsSelfAndEmpty("defense");
    TooShortToContain("hp", "attack");
    TooShortToContain("hp", "defense");
    TooShortToContain("attack", "defense");
    assert FindStat(stats, "attack") == FindStat(stats[1..], "attack");
    assert FindStat(stats, "defense") == FindStat(stats[1..], "defense") == FindStat(stats[2..], "defense");
  }

  lemma StandardSpeed(hp: int, atk: int, def: int, spa: int, spd: int, spe: int)
    ensures var stats := StandardStats(hp, atk, def, spa, spd, spe);
      FindStat(stats, "speed") == Some(stats[5])
  {
    var stats := StandardStats(hp, atk, def, spa, spd, spe);
    ContainsSelfAndEmpty("speed");
    assert FindStat(stats[5..], "speed") == Some(stats[5]);
    SkipToSpeed(stats[4..]);
    SkipToSpeed(stats[3..]);
    SkipToSpeed(stats[2..]);
    SkipToSpeed(stats[1..]);
    SkipToSpeed(stats);
  }

  /** A stat named before "speed" in the standard order does not stop the search for "speed". */
  lemma SkipToSpeed(stats: seq<Stat>)
    requires stats != [] && stats[0].name in {"hp", "attack", "defense", "special-attack", "special-defense"}
    ensures FindStat(stats, "speed") == FindStat(stats[1..], "speed")
  {
    if stats[0].name == "hp" {
      TooShortToContain("hp", "speed");
    } else {
      NoSpeedIn(stats[0].name);
    }
  }

  /** Unfolds `StatLines` over the four allow-list keys when each key finds a stat. */
  lemma LinesOfFourKeys(stats: seq<Stat>, a: Stat, b: Stat, c: Stat, d: Stat)
    requires FindStat(stats, "hp") == Some(a) && FindStat(stats, "attack") == Some(b)
    requires FindStat(stats, "defense") == Some(c) && FindStat(stats, "speed") == Some(d)
    ensures StatLines(stats, StatKeys) == [a, b, c, d]
  {
    assert StatKeys == ["hp"] + ["attack"] + ["defense"] + ["speed"];
    StatLinesAppend(stats, ["hp"] + ["attack"] + ["defense"], ["speed"]);
    StatLinesAppend(stats, ["hp"] + ["attack"], ["defense"]);
    StatLinesAppend(stats, ["hp"], ["attack"]);
    StatLinesOneKey(stats, "hp");
    StatLinesOneKey(stats, "attack");
    StatLinesOneKey(stats, "defense");
    StatLinesOneKey(stats, "speed");
  }

  lemma TooShortToContain(s: string, sub: string)
    requires |s| < |sub|
    ensures !Contains(s, sub)
  {
  }

  /** The first matching stat is the one `find` returns. */
  lemma FirstMatchFound(stats: seq<Stat>, key: string, n: nat)
    requires n < |stats| && StatMatches(stats[n].name, key)
    requires forall j :: 0 <= j < n ==> !StatMatches(stats[j].name, key)
    ensures FindStat(stats, key) == Some(stats[n])
  {
    var r := FindStat(stats, key);
    FindStatIsFirstMatch(stats, key);
    var i :| 0 <= i < |stats| && stats[i] == r.value && StatMatches(stats[i].name, key) &&
             forall j :: 0 <= j < i ==> !StatMatches(stats[j].name, key);
    assert i == n;
  }

  /** None of the other standard stat names includes "speed": an occurrence would start with 's' and have 'e' three places on. */
  lemma NoSpeedIn(name: string)
    requires name in {"attack", "defense", "special-attack", "special-defense"}
    ensures !Contains(name, "speed")
  {
    if name == "attack" {
      NoOccurrenceFrom("attack", "speed", 0);
    } else if name == "defense" {
      assert "defense"[0..3] == "def";
      NoOccurrenceFrom("defense", "speed", 0);
    } else if name == "special-attack" {
      assert "special-attack"[1..10] == "pecial-at";
      NoOccurrenceFrom("special-attack", "speed", 1);
      assert "special-attack"[0..5] == "speci";
    } else {
      assert "special-defense"[1..11] == "pecial-def";
      NoOccurrenceFrom("special-defense", "speed", 1);
      assert "special-defense"[0..5] == "speci";
    }
  }

  /**
   * No occurrence of `sub` starts at or after `from` when its first character does not appear
   * among the positions from `from` where an occurrence could still start.
   */
  lemma NoOccurrenceFrom(s: string, sub: string, from: nat)
    requires 0 < |sub| && from + |sub| <= |s| + 1 && sub[0] !in s[from..|s| - |sub| + 1]
    ensures forall i :: from <= i ==> !OccursAt(s, sub, i)
  {
    forall i | from <= i ensures !OccursAt(s, sub, i) {
      if i + |sub| <= |s| {
        assert s[i..i + |sub|][0] == s[i];
        assert s[from..|s| - |sub| + 1][i - from] == s[i];
      }
    }
  }

  /** `createCard(poke)` as the values the card displays. */
  function CreateCard(p: Pokemon): (c: Card)
  {
    Card(p.name, ImageUrl(p), p.id, p.height, p.weight, p.types, StatLines(p.stats, StatKeys))
  }

  /** A card shows its own Pokémon's name, id, types, an image and at most four stat lines. */
  lemma CardContents(p: Pokemon)
    ensures CreateCard(p).name == p.name && CreateCard(p).id == p.id && CreateCard(p).types == p.types
    ensures CreateCard(p).image != ""
    ensures |CreateCard(p).stats| <= 4
    ensures forall l :: l in CreateCard(p).stats ==> l in p.stats
  {
    ImagePrecedence(p);
    StatLinesBounded(p.stats, StatKeys);
  }

  /** The card grid `renderCards(pokemons)` leaves behind. */
  function Render(pokemons: seq<Pokemon>): (area: CardArea)
  {
    if pokemons == [] then NoResults
    else Shown(seq(|pokemons|, i requires 0 <= i < |pokemons| => CreateCard(pokemons[i])))
  }

  /** The document fragment `renderCards` fills with `forEach`: one card per Pokémon, in input order. */
  method BuildFragment(pokemons: seq<Pokemon>) returns (cards: seq<Card>)
    ensures |cards| == |pokemons|
    ensures forall i :: 0 <= i < |pokemons| ==> cards[i] == CreateCard(pokemons[i])
  {
    cards := [];
    var i := 0;
    while i < |pokemons|
      invariant 0 <= i <= |pokemons|
      invariant |cards| == i
      invariant forall k :: 0 <= k < i ==> cards[k] == CreateCard(pokemons[k])
    {
      cards := cards + [CreateCard(pokemons[i])];
      i := i + 1;
    }
  }

  /** An empty list shows only the placeholder; otherwise one card per Pokémon, same order, same names. */
  lemma RenderShape(pokemons: seq<Pokemon>)
    ensures Render(pokemons) == NoResults <==> pokemons == []
    ensures pokemons != [] ==> Render(pokemons).Shown? && |Render(pokemons).cards| == |pokemons|
    ensures pokemons != [] ==>
      forall i :: 0 <= i < |pokemons| ==> Render(pokemons).cards[i] == CreateCard(pokemons[i])
  {
  }
}
