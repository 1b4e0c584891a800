/**
 The list page's client-side filtering and incremental display.

 The page keeps the whole list and filters it locally: by favorites when
 "Show Favorites Only" is ticked, then by a case-insensitive substring of the
 name when a search term is typed. Without a filter it shows a growing prefix
 of the list, one batch more each time the end of the page comes into view.
 */
module PokemonList {

  import opened Results
  import opened Text
  import opened Resources

  // ---------------------------------------------------------------------------
  // Filtering
  // ---------------------------------------------------------------------------

  /** `list.filter(pokemon => favorites.has(pokemon.name))`. */
  function FavoritesOnly(list: seq<Pokemon>, favorites: set<string>): seq<Pokemon> {
    if |list| == 0 then []
    else (if list[0].name in favorites then [list[0]] else []) + FavoritesOnly(list[1..], favorites)
  }

  /** Whether a name matches a search term: `name.toLowerCase().includes(term.toLowerCase())`. */
  predicate MatchesSearch(name: string, searchTerm: string) {
    Contains(Lower(name), Lower(searchTerm))
  }

  /** `list.filter(pokemon => MatchesSearch(pokemon.name, searchTerm))`. */
  function MatchingSearch(list: seq<Pokemon>, searchTerm: string): seq<Pokemon> {
    if |list| == 0 then []
    else (if MatchesSearch(list[0].name, searchTerm) then [list[0]] else []) + MatchingSearch(list[1..], searchTerm)
  }

  /** Whether the page keeps an entry under the current filters. */
  predicate Keeps(p: Pokemon, favorites: set<string>, onlyFavorites: bool, searchTerm: string) {
    && (onlyFavorites ==> p.name in favorites)
    && (searchTerm != "" ==> MatchesSearch(p.name, searchTerm))
  }

  /** The reference filter: every entry `Keeps` accepts, in list order. */
  function KeptBy(list: seq<Pokemon>, favorites: set<string>, onlyFavorites: bool, searchTerm: string): seq<Pokemon> {
    if |list| == 0 then []
    else (if Keeps(list[0], favorites, onlyFavorites, searchTerm) then [list[0]] else [])
         + KeptBy(list[1..], favorites, onlyFavorites, searchTerm)
  }

  /** `a` is `b` with some entries left out, the rest in their order. */
  predicate IsSubsequence(a: seq<Pokemon>, b: seq<Pokemon>)
    decreases |b|
  {
    if |b| == 0 then |a| == 0
    else (|a| > 0 && a[0] == b[0] && IsSubsequence(a[1..], b[1..])) || IsSubsequence(a, b[1..])
  }

  /** The reference filter keeps the list's order. */
  lemma {:induction false} KeptByIsSubsequence(list: seq<Pokemon>, favorites: set<string>, onlyFavorites: bool, searchTerm: string)
    ensures IsSubsequence(KeptBy(list, favorites, onlyFavorites, searchTerm), list)
  {
    if |list| > 0 {
      KeptByIsSubsequence(list[1..], favorites, onlyFavorites, searchTerm);
      var rest := KeptBy(list[1..], favorites, onlyFavorites, searchTerm);
      if Keeps(list[0], favorites, onlyFavorites, searchTerm) {
        assert KeptBy(list, favorites, onlyFavorites, searchTerm) == [list[0]] + rest;
        assert ([list[0]] + rest)[1..] == rest;
      } else {
        assert KeptBy(list, favorites, onlyFavorites, searchTerm) == rest;
      }
    }
  }

  /**
   The reference filter holds each accepted entry as often as the list does and
   each rejected one not at all.
   */
  lemma {:induction false} KeptByCounts(list: seq<Pokemon>, favorites: set<string>, onlyFavorites: bool, searchTerm: string)
    ensures var r := KeptBy(list, favorites, onlyFavorites, searchTerm);
            forall p :: multiset(r)[p] == if Keeps(p, favorites, onlyFavorites, searchTerm) then multiset(list)[p] else 0
  {
    if |list| > 0 {
      KeptByCounts(list[1..], favorites, onlyFavorites, searchTerm);
      assert list == [list[0]] + list[1..];
      assert multiset(list) == multiset([list[0]]) + multiset(list[1..]);
    }
  }

  /**
   The `filteredPokemon` memo: the favorites filter when it is on, then the
   search filter when a term is typed. It keeps exactly the entries `Keeps`
   accepts, in list order, as often as the list has them.
   */
  function FilteredPokemon(all: seq<Pokemon>, favorites: set<string>, onlyFavorites: bool, searchTerm: string): (r: seq<Pokemon>)
    ensures IsSubsequence(r, all)
    ensures forall p :: p in r <==> p in all && Keeps(p, favorites, onlyFavorites, searchTerm)
    ensures forall p :: multiset(r)[p] ==
              if Keeps(p, favorites, onlyFavorites, searchTerm) then multiset(all)[p] else 0
  {
    var byFavorites := if onlyFavorites then FavoritesOnly(all, favorites) else all;
    var bySearch := if searchTerm != "" then MatchingSearch(byFavorites, searchTerm) else byFavorites;
    StagesAreOneFilter(all, favorites, onlyFavorites, searchTerm);
    KeptByIsSubsequence(all, favorites, onlyFavorites, searchTerm);
    KeptByCounts(all, favorites, onlyFavorites, searchTerm);
    assert forall p :: p in bySearch <==> multiset(bySearch)[p] > 0;
    bySearch
  }

  lemma {:induction false} FavoritesStage(list: seq<Pokemon>, favorites: set<string>)
    ensures FavoritesOnly(list, favorites) == KeptBy(list, favorites, true, "")
  {
    if |list| > 0 {
      FavoritesStage(list[1..], favorites);
    }
  }

  lemma {:induction false} SearchStage(list: seq<Pokemon>, favorites: set<string>, searchTerm: string)
    requires searchTerm != ""
    ensures MatchingSearch(list, searchTerm) == KeptBy(list, favorites, false, searchTerm)
  {
    if |list| > 0 {
      SearchStage(list[1..], favorites, searchTerm);
    }
  }

  lemma {:induction false} BothStages(list: seq<Pokemon>, favorites: set<string>, searchTerm: string)
    requires searchTerm != ""
    ensures MatchingSearch(FavoritesOnly(list, favorites), searchTerm) == KeptBy(list, favorites, true, searchTerm)
  {
    if |list| > 0 {
      BothStages(list[1..], favorites, searchTerm);
      var rest := FavoritesOnly(list[1..], favorites);
      if list[0].name in favorites {
        assert FavoritesOnly(list, favorites) == [list[0]] + rest;
        assert ([list[0]] + rest)[1..] == rest;
      } else {
        assert FavoritesOnly(list, favorites) == rest;
      }
    }
  }

  lemma {:induction false} NoStage(list: seq<Pokemon>, favorites: set<string>)
    ensures KeptBy(list, favorites, false, "") == list
  {
    if |list| > 0 {
      NoStage(list[1..], favorites);
      assert [list[0]] + list[1..] == list;
    }
  }

  /** Filtering by favorites and then by search is filtering once by both. */
  lemma StagesAreOneFilter(all: seq<Pokemon>, favorites: set<string>, onlyFavorites: bool, searchTerm: string)
    ensures var byFavorites := if onlyFavorites then FavoritesOnly(all, favorites) else all;
            (if searchTerm != "" then MatchingSearch(byFavorites, searchTerm) else byFavorites)
              == KeptBy(all, favorites, onlyFavorites, searchTerm)
  {
    if onlyFavorites && searchTerm != "" {
      BothStages(all, favorites, searchTerm);
    } else if onlyFavorites {
      FavoritesStage(all, favorites);
    } else if searchTerm != "" {
      SearchStage(all, favorites, searchTerm);
    } else {
      NoStage(all, favorites);
    }
  }

  /** With neither filter on, the page filters nothing. */
  lemma NoFilterKeepsAll(all: seq<Pokemon>, favorites: set<string>)
    ensures FilteredPokemon(all, favorites, false, "") == all
  {
  }

  /** "Show Favorites Only" alone keeps an entry exactly when its name is a favorite. */
  lemma FavoritesFilter(all: seq<Pokemon>, favorites: set<string>, p: Pokemon)
    ensures p in FilteredPokemon(all, favorites, true, "") <==> p in all && p.name in favorites
  {
  }

  /** A search term alone keeps an entry exactly when its lower-cased name contains the lower-cased term. */
  lemma SearchFilter(all: seq<Pokemon>, favorites: set<string>, searchTerm: string, p: Pokemon)
    requires searchTerm != ""
    ensures p in FilteredPokemon(all, favorites, false, searchTerm) <==>
            p in all && Contains(Lower(p.name), Lower(searchTerm))
  {
  }

  /** Searching "pika" among pikachu, bulbasaur and charmander keeps pikachu alone. */
  lemma SearchExample(favorites: set<string>)
    ensures var all := [Pokemon("pikachu", Num(25), "pikachu.png"), Pokemon("bulbasaur", Num(1), "bulbasaur.png"),
                        Pokemon("charmander", Num(4), "charmander.png")];
            FilteredPokemon(all, favorites, false, "pika") == [all[0]]
  {
    var all := [Pokemon("pikachu", Num(25), "pikachu.png"), Pokemon("bulbasaur", Num(1), "bulbasaur.png"),
                Pokemon("charmander", Num(4), "charmander.png")];
    var term := "pika";
    PikaMatchesPikachuOnly();
    assert MatchingSearch(all[2..], term) == [] by {
      assert all[2..][1..] == [];
    }
    assert MatchingSearch(all[1..], term) == [] by {
      assert all[1..][1..] == all[2..];
    }
    assert MatchingSearch(all, term) == [all[0]];
  }

  lemma PikaMatchesPikachuOnly()
    ensures MatchesSearch("pikachu", "pika")
    ensures !MatchesSearch("bulbasaur", "pika") && !MatchesSearch("charmander", "pika")
  {
    LowerOfLowerCase("pika");
    PikaInName("pikachu");
    PikaNotInName("bulbasaur");
    PikaNotInName("charmander");
  }

  lemma PikaInName(name: string)
    requires name == "pikachu"
    ensures Contains(Lower(name), "pika")
  {
    LowerOfLowerCase(name);
    assert IsPrefix("pika", name);
  }

  lemma PikaNotInName(name: string)
    requires name == "bulbasaur" || name == "charmander"
    ensures !Contains(Lower(name), "pika")
  {
    LowerOfLowerCase(name);
    CharMissing(name, "pika", 0);
  }

  /** A string without upper-case letters is its own lower-case form. */
  lemma LowerOfLowerCase(s: string)
    requires forall i :: 0 <= i < |s| ==> !('A' <= s[i] <= 'Z')
    ensures Lower(s) == s
  {
  }

  // ---------------------------------------------------------------------------
  // Incremental display
  // ---------------------------------------------------------------------------

  /** `isFiltering`: a search term is typed or the favorites filter is on. */
  predicate IsFiltering(searchTerm: string, onlyFavorites: bool) {
    searchTerm != "" || onlyFavorites
  }

  function Min(a: nat, b: nat): nat {
    if a <= b then a else b
  }

  /**
   `listToDisplay`: everything that passed the filters while filtering,
   otherwise the first `visibleCount` entries (all of them if there are fewer).
   */
  function ListToDisplay(filtered: seq<Pokemon>, visibleCount: nat, filtering: bool): (shown: seq<Pokemon>)
    ensures filtering ==> shown == filtered
    ensures !filtering ==> |shown| == Min(visibleCount, |filtered|)
    ensures shown == filtered[..|shown|]
  {
    if filtering then filtered else filtered[..Min(visibleCount, |filtered|)]
  }

  /**
   `hasMore`: the "Loading more" sentinel is rendered, exactly when the displayed
   list leaves filtered entries out.
   */
  function HasMore(filtered: seq<Pokemon>, visibleCount: nat, filtering: bool): (more: bool)
    ensures more <==> |ListToDisplay(filtered, visibleCount, filtering)| < |filtered|
  {
    !filtering && visibleCount < |filtered|
  }

  /**
   The `visibleCount` effect: one more batch when the sentinel is in view, the
   list is loaded, and no filter is on; otherwise no change.
   */
  function NextVisibleCount(visibleCount: nat, batchSize: nat, inView: bool, loading: bool,
                            searchTerm: string, onlyFavorites: bool): (next: nat)
    ensures inView && !loading && !IsFiltering(searchTerm, onlyFavorites) ==> next == visibleCount + batchSize
    ensures !(inView && !loading && !IsFiltering(searchTerm, onlyFavorites)) ==> next == visibleCount
  {
    if inView && !loading && searchTerm == "" && !onlyFavorites then visibleCount + batchSize else visibleCount
  }

  /** The values the `visibleCount` effect lists as its dependencies: `[inView, loading, searchTerm, showOnlyFavorites]`. */
  datatype EffectDeps = EffectDeps(inView: bool, loading: bool, searchTerm: string, onlyFavorites: bool)

  /** The effect's condition holds: it adds a batch whenever it runs. */
  predicate Grows(deps: EffectDeps) {
    deps.inView && !deps.loading && !IsFiltering(deps.searchTerm, deps.onlyFavorites)
  }

  /**
   The count after one render. React runs the effect after the first render
   (`previous` is `None`) and after every render whose dependencies differ from
   the previous render's; a render with the same dependencies does not run it.
   */
  function AfterRender(visibleCount: nat, batchSize: nat, previous: Option<EffectDeps>, deps: EffectDeps): (next: nat)
    ensures previous == Some(deps) ==> next == visibleCount
    ensures previous != Some(deps) && Grows(deps) ==> next == visibleCount + batchSize
    ensures previous != Some(deps) && !Grows(deps) ==> next == visibleCount
  {
    if previous == Some(deps) then visibleCount
    else NextVisibleCount(visibleCount, batchSize, deps.inView, deps.loading, deps.searchTerm, deps.onlyFavorites)
  }

  /** The count after a run of renders, each seeing the dependencies of the one before. */
  function CountAfter(visibleCount: nat, batchSize: nat, previous: Option<EffectDeps>, renders: seq<EffectDeps>): nat
    decreases |renders|
  {
    if |renders| == 0 then visibleCount
    else CountAfter(AfterRender(visibleCount, batchSize, previous, renders[0]), batchSize, Some(renders[0]), renders[1..])
  }

  /** How many renders of the run both trigger the effect and meet its condition. */
  function Triggers(previous: Option<EffectDeps>, renders: seq<EffectDeps>): nat
    decreases |renders|
  {
    if |renders| == 0 then 0
    else (if previous != Some(renders[0]) && Grows(renders[0]) then 1 else 0) + Triggers(Some(renders[0]), renders[1..])
  }

  /** The count grows by one batch per triggering render, and by nothing else. */
  lemma {:induction false} CountAfterTriggers(visibleCount: nat, batchSize: nat, previous: Option<EffectDeps>, renders: seq<EffectDeps>)
    ensures CountAfter(visibleCount, batchSize, previous, renders) == visibleCount + batchSize * Triggers(previous, renders)
    decreases |renders|
  {
    if |renders| > 0 {
      var next := AfterRender(visibleCount, batchSize, previous, renders[0]);
      CountAfterTriggers(next, batchSize, Some(renders[0]), renders[1..]);
    }
  }

  /** `n` renders with the dependencies unchanged. */
  function Repeat(deps: EffectDeps, n: nat): (renders: seq<EffectDeps>)
    ensures |renders| == n && forall i :: 0 <= i < n ==> renders[i] == deps
  {
    seq(n, _ => deps)
  }

  /** Renders that leave the dependencies as they were never run the effect. */
  lemma {:induction false} UnchangedDepsAddNothing(visibleCount: nat, batchSize: nat, deps: EffectDeps, n: nat)
    ensures CountAfter(visibleCount, batchSize, Some(deps), Repeat(deps, n)) == visibleCount
    decreases n
  {
    if n > 0 {
      assert Repeat(deps, n)[1..] == Repeat(deps, n - 1);
      UnchangedDepsAddNothing(visibleCount, batchSize, deps, n - 1);
    }
  }

  /**
   The sentinel coming into view adds exactly one batch, however many times the
   page re-renders while it stays in view.
   */
  lemma StayingInViewAddsOneBatch(visibleCount: nat, batchSize: nat, previous: Option<EffectDeps>, deps: EffectDeps, n: nat)
    requires Grows(deps) && previous != Some(deps)
    ensures CountAfter(visibleCount, batchSize, previous, Repeat(deps, n + 1)) == visibleCount + batchSize
  {
    assert Repeat(deps, n + 1)[1..] == Repeat(deps, n);
    UnchangedDepsAddNothing(visibleCount + batchSize, batchSize, deps, n);
  }

  /** Scrolling the sentinel out of view and back in adds the next batch. */
  lemma ScrollOutAndBackIn(visibleCount: nat, batchSize: nat, deps: EffectDeps)
    requires Grows(deps)
    ensures CountAfter(visibleCount, batchSize, Some(deps), [deps.(inView := false), deps]) == visibleCount + batchSize
  {
    var out := deps.(inView := false);
    assert out != deps;
    assert [out, deps][1..] == [deps];
    assert CountAfter(visibleCount, batchSize, Some(out), [deps]) == visibleCount + batchSize by {
      assert [deps][1..] == [];
    }
  }

  /**
   A scroll that reveals the sentinel extends the displayed list by the next
   batch of filtered entries and keeps the ones already shown in front.
   */
  lemma ScrollRevealsNextBatch(filtered: seq<Pokemon>, visibleCount: nat, batchSize: nat, loading: bool)
    ensures var before := ListToDisplay(filtered, visibleCount, false);
            var next := NextVisibleCount(visibleCount, batchSize, true, loading, "", false);
            var after := ListToDisplay(filtered, next, false);
            && (loading ==> after == before)
            && (!loading ==> |after| == Min(visibleCount + batchSize, |filtered|))
            && before == after[..|before|]
  {
  }

  /** While a filter is on, scrolling never changes the displayed list. */
  lemma FilteringFreezesDisplay(filtered: seq<Pokemon>, visibleCount: nat, batchSize: nat,
                                inView: bool, loading: bool, searchTerm: string, onlyFavorites: bool)
    requires IsFiltering(searchTerm, onlyFavorites)
    ensures var next := NextVisibleCount(visibleCount, batchSize, inView, loading, searchTerm, onlyFavorites);
            next == visibleCount && ListToDisplay(filtered, next, true) == filtered
  {
  }

  /**
   Fifty entries with batches of ten: ten are shown with the sentinel, and
   twenty after the sentinel comes into view once.
   */
  lemma LoadMoreExample(filtered: seq<Pokemon>)
    requires |filtered| == 50
    ensures |ListToDisplay(filtered, 10, false)| == 10 && HasMore(filtered, 10, false)
    ensures var next := NextVisibleCount(10, 10, true, false, "", false);
            next == 20 && ListToDisplay(filtered, next, false) == filtered[..20]
  {
  }
}
