/**
 The client's favorites state and its optimistic updates.

 The client holds the favorites as a set of names. An add or a remove changes
 the set at once, then calls the backend: a success replaces the set with the
 list the backend returned, a failure restores the set as it was when the call
 began.
 */
module FavoritesContext {

  import opened Results
  import FavoriteStore

  /** The three states an optimistic update passes through. */
  datatype Transition = Transition(snapshot: set<string>, optimistic: set<string>, settled: set<string>)

  /** The state before the backend has answered anything. */
  const InitialFavorites: set<string> := {}

  /** The initial load: the backend's list replaces the state; a failed load leaves it as it was. */
  function LoadFavorites(favorites: set<string>, reply: Result<seq<string>>): (r: set<string>)
    ensures reply.Ok? ==> forall n :: n in r <==> n in reply.value
    ensures reply.Err? ==> r == favorites
  {
    match reply
    case Ok(names) => SetOf(names)
    case Err(_) => favorites
  }

  /** The end of an update: the backend's list on success, the snapshot on failure. */
  function Settle(snapshot: set<string>, reply: Result<seq<string>>): (r: set<string>)
    ensures reply.Ok? ==> forall n :: n in r <==> n in reply.value
    ensures reply.Err? ==> r == snapshot
  {
    LoadFavorites(snapshot, reply)
  }

  /**
   The state after the mount-time load: exactly the names the backend listed,
   or still empty when the load fails.
   */
  lemma InitialLoad(reply: Result<seq<string>>)
    ensures reply.Ok? ==> LoadFavorites(InitialFavorites, reply) == SetOf(reply.value)
    ensures reply.Err? ==> LoadFavorites(InitialFavorites, reply) == {}
  {
  }

  /** The optimistic step of an add: `new Set(prev).add(name)`. */
  function OptimisticAdd(favorites: set<string>, name: string): (r: set<string>)
    ensures name in r
    ensures forall n :: n != name ==> (n in r <==> n in favorites)
  {
    favorites + {name}
  }

  /** The optimistic step of a remove: a copy of the set with `name` deleted. */
  function OptimisticRemove(favorites: set<string>, name: string): (r: set<string>)
    ensures name !in r
    ensures forall n :: n != name ==> (n in r <==> n in favorites)
  {
    favorites - {name}
  }

  /** `handleAddFavorite`: add at once, then settle on the backend's reply. */
  function HandleAddFavorite(favorites: set<string>, name: string, reply: Result<seq<string>>): (t: Transition)
    ensures t.snapshot == favorites
    ensures name in t.optimistic
    ensures forall n :: n != name ==> (n in t.optimistic <==> n in favorites)
    ensures reply.Ok? ==> forall n :: n in t.settled <==> n in reply.value
    ensures reply.Err? ==> t.settled == favorites
  {
    Transition(favorites, OptimisticAdd(favorites, name), Settle(favorites, reply))
  }

  /** `handleRemoveFavorite`: remove at once, then settle on the backend's reply. */
  function HandleRemoveFavorite(favorites: set<string>, name: string, reply: Result<seq<string>>): (t: Transition)
    ensures t.snapshot == favorites
    ensures name !in t.optimistic
    ensures forall n :: n != name ==> (n in t.optimistic <==> n in favorites)
    ensures reply.Ok? ==> forall n :: n in t.settled <==> n in reply.value
    ensures reply.Err? ==> t.settled == favorites
  {
    Transition(favorites, OptimisticRemove(favorites, name), Settle(favorites, reply))
  }

  /** `isFavorite`. */
  function IsFavorite(favorites: set<string>, name: string): bool {
    name in favorites
  }

  /**
   `isFavorite` follows every change of the state: true after the name's
   optimistic add, false after its optimistic remove, unchanged for any other
   name, and after the initial load true exactly for the names the backend listed.
   */
  lemma IsFavoriteTracksState(favorites: set<string>, name: string, other: string, reply: Result<seq<string>>)
    ensures IsFavorite(OptimisticAdd(favorites, name), name)
    ensures !IsFavorite(OptimisticRemove(favorites, name), name)
    ensures other != name ==>
              && IsFavorite(OptimisticAdd(favorites, name), other) == IsFavorite(favorites, other)
              && IsFavorite(OptimisticRemove(favorites, name), other) == IsFavorite(favorites, other)
    ensures reply.Ok? ==> (IsFavorite(LoadFavorites(InitialFavorites, reply), other) <==> other in reply.value)
    ensures reply.Err? ==> !IsFavorite(LoadFavorites(InitialFavorites, reply), other)
  {
  }

  /**
   When the client's set mirrors the backend table, an add is confirmed by the
   backend's answer: the settled state equals the optimistic one and mirrors
   the table afterwards.
   */
  lemma AddAgreesWithBackend(table: FavoriteStore.Table, name: string)
    requires FavoriteStore.Valid(table)
    ensures var reply := FavoriteStore.AddFavorite(table, name);
            var t := HandleAddFavorite(FavoriteStore.Names(table), name, reply.response);
            t.settled == t.optimistic == FavoriteStore.Names(reply.table)
  {
  }

  /**
   When the client's set mirrors the backend table, removing a stored name is
   confirmed by the backend, and removing an absent one is rolled back to the
   snapshot, which is the same set: either way the client ends mirroring the table.
   */
  lemma RemoveAgreesWithBackend(table: FavoriteStore.Table, name: string)
    requires FavoriteStore.Valid(table)
    ensures var reply := FavoriteStore.RemoveFavorite(table, name);
            var t := HandleRemoveFavorite(FavoriteStore.Names(table), name, reply.response);
            t.settled == t.optimistic == FavoriteStore.Names(reply.table)
  {
  }

  /** A failed update leaves no trace: the state ends as the snapshot taken at the start. */
  lemma FailureRollsBack(favorites: set<string>, name: string, error: Error)
    ensures HandleAddFavorite(favorites, name, Err(error)).settled == favorites
    ensures HandleRemoveFavorite(favorites, name, Err(error)).settled == favorites
  {
  }
}
