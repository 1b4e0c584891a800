/**
 The backend's persisted favorites: a table of `Favorite` rows whose only
 column, `name`, is the primary key.

 `addFavorite` is idempotent; `removeFavorite` of an absent name is an error.
 Both answer with the whole list re-read from the table.
 */
module FavoriteStore {

  import opened Results

  /** The favorites table, rows in the order the table enumerates them. */
  datatype Table = Table(rows: seq<string>)

  predicate NoDuplicates(names: seq<string>) {
    forall i, j :: 0 <= i < j < |names| ==> names[i] != names[j]
  }

  /** The primary key: at most one row per name. */
  predicate Valid(t: Table) {
    NoDuplicates(t.rows)
  }

  /** The stored favorites as a set. */
  function Names(t: Table): set<string> {
    SetOf(t.rows)
  }

  /** A store operation's effect: the table afterwards and what the caller receives. */
  datatype Reply = Reply(table: Table, response: Result<seq<string>>)

  /** `getFavorites`: the name of every row, each stored name exactly once. */
  function GetFavorites(t: Table): (names: seq<string>)
    requires Valid(t)
    ensures SetOf(names) == Names(t)
    ensures NoDuplicates(names)
  {
    t.rows
  }

  /**
   `addFavorite`: a name not yet stored gets a new row; a stored one changes
   nothing. Either way the answer is the current list, and it never fails.
   */
  function AddFavorite(t: Table, name: string): (r: Reply)
    requires Valid(t)
    ensures Valid(r.table)
    ensures Names(r.table) == Names(t) + {name}
    ensures name in Names(t) ==> r.table == t
    ensures r.response.Ok? && r.response.value == GetFavorites(r.table)
  {
    if name in t.rows then Reply(t, Ok(GetFavorites(t)))
    else
      var t' := Table(t.rows + [name]);
      assert Names(t') == Names(t) + {name};
      Reply(t', Ok(GetFavorites(t')))
  }

  /** `delete({ name })`: the rows without `name`, the others kept in order. */
  function DeleteRows(rows: seq<string>, name: string): (kept: seq<string>)
    ensures |kept| <= |rows|
    ensures |kept| == |rows| <==> name !in rows
    ensures SetOf(kept) == SetOf(rows) - {name}
    ensures NoDuplicates(rows) ==> NoDuplicates(kept)
  {
    if |rows| == 0 then []
    else
      var rest := DeleteRows(rows[1..], name);
      assert SetOf(rows) == {rows[0]} + SetOf(rows[1..]);
      if rows[0] == name then rest
      else
        TailNoDuplicates(rows);
        assert NoDuplicates(rows) ==> rows[0] !in SetOf(rest);
        PrependNoDuplicates(rows[0], rest);
        [rows[0]] + rest
  }

  lemma TailNoDuplicates(rows: seq<string>)
    requires |rows| > 0
    ensures NoDuplicates(rows) ==> NoDuplicates(rows[1..]) && rows[0] !in rows[1..]
  {
    if NoDuplicates(rows) {
      forall i, j | 0 <= i < j < |rows[1..]| ensures rows[1..][i] != rows[1..][j] {
        assert rows[1..][i] == rows[i + 1] && rows[1..][j] == rows[j + 1];
      }
    }
  }

  lemma PrependNoDuplicates(x: string, rest: seq<string>)
    ensures NoDuplicates(rest) && x !in rest ==> NoDuplicates([x] + rest)
  {
    if NoDuplicates(rest) && x !in rest {
      var all := [x] + rest;
      forall i, j | 0 <= i < j < |all| ensures all[i] != all[j] {
        assert all[j] == rest[j - 1];
      }
    }
  }

  /**
   `removeFavorite`: when no row matched, `NotFound` with the name in the
   message and the table untouched; otherwise the table without the name and
   the remaining list.
   */
  function RemoveFavorite(t: Table, name: string): (r: Reply)
    requires Valid(t)
    ensures name !in Names(t) ==> r == Reply(t, Err(NotFound("Favorite '" + name + "' not found")))
    ensures name in Names(t) ==>
              && Valid(r.table)
              && Names(r.table) == Names(t) - {name}
              && r.response == Ok(GetFavorites(r.table))
  {
    var kept := DeleteRows(t.rows, name);
    var affected := |t.rows| - |kept|;
    if affected == 0 then Reply(t, Err(NotFound("Favorite '" + name + "' not found")))
    else Reply(Table(kept), Ok(kept))
  }

  /** Adding twice is adding once, for the table and for the answer. */
  lemma AddIsIdempotent(t: Table, name: string)
    requires Valid(t)
    ensures AddFavorite(AddFavorite(t, name).table, name) == AddFavorite(t, name)
  {
  }

  /** Removing twice fails the second time, with the table the first removal left. */
  lemma RemoveIsNotIdempotent(t: Table, name: string)
    requires Valid(t) && name in Names(t)
    ensures var once := RemoveFavorite(t, name);
            var twice := RemoveFavorite(once.table, name);
            once.response.Ok? && twice.table == once.table && twice.response.Err? && twice.response.error.NotFound?
  {
  }

  /** Adding then removing a name forgets it and keeps every other favorite. */
  lemma AddThenRemove(t: Table, name: string)
    requires Valid(t)
    ensures var added := AddFavorite(t, name);
            var removed := RemoveFavorite(added.table, name);
            removed.response.Ok? && Names(removed.table) == Names(t) - {name}
  {
  }
}
