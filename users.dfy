/**
  The user table behind UserRepository: the lookups the services make and
  the bulk statement
    UPDATE User u SET u.fcmToken = null WHERE u.fcmToken IN :tokens
  that returns the number of rows it updated.
 */
module Users {
  import opened Wrappers

  /** A row of the users table. The push token is nullable; every other
      column is carried unchanged by the token clean-up. */
  datatype User = User(
    id: string,
    name: string,
    email: string,
    phoneNumber: Option<string>,
    fcmToken: Option<string>)

  /** SQL "fcmToken IN :tokens": a NULL token matches no list. */
  predicate TokenListed(u: User, tokens: seq<string>) {
    u.fcmToken.Some? && u.fcmToken.value in tokens
  }

  /** The row after the UPDATE: its token nulled when listed, else as it was. */
  function ClearedRow(u: User, tokens: seq<string>): User {
    if TokenListed(u, tokens) then u.(fcmToken := None) else u
  }

  /** The whole table after the UPDATE: no row holds a listed token any
      more, every row that held one (however many share it) now holds
      none, unlisted rows are untouched, and no other column changes. */
  function ClearedTable(rows: seq<User>, tokens: seq<string>): (r: seq<User>)
    ensures |r| == |rows|
    ensures forall i | 0 <= i < |rows| :: !TokenListed(r[i], tokens)
    ensures forall i | 0 <= i < |rows| :: TokenListed(rows[i], tokens) ==> r[i].fcmToken == None
    ensures forall i | 0 <= i < |rows| :: !TokenListed(rows[i], tokens) ==> r[i] == rows[i]
    ensures forall i | 0 <= i < |rows| ::
      r[i].id == rows[i].id && r[i].name == rows[i].name && r[i].email == rows[i].email
      && r[i].phoneNumber == rows[i].phoneNumber
  {
    seq(|rows|, i requires 0 <= i < |rows| => ClearedRow(rows[i], tokens))
  }

  /** The update count: the rows whose token was in the list. */
  function ListedCount(rows: seq<User>, tokens: seq<string>): (n: nat)
    ensures n <= |rows|
  {
    if rows == [] then 0
    else ListedCount(rows[..|rows| - 1], tokens) + (if TokenListed(rows[|rows| - 1], tokens) then 1 else 0)
  }

  /** findAllById: the rows whose id is among the requested ids, in table order. */
  function RowsWithIds(rows: seq<User>, ids: seq<string>): (found: seq<User>)
    ensures forall u :: u in found <==> u in rows && u.id in ids
    ensures |found| <= |rows|
  {
    if rows == [] then []
    else
      var rest := RowsWithIds(rows[..|rows| - 1], ids);
      var last := rows[|rows| - 1];
      assert rows == rows[..|rows| - 1] + [last];
      if last.id in ids then rest + [last] else rest
  }

  /** findById: the row with that id, if any. */
  function RowWithId(rows: seq<User>, id: string): (found: Option<User>)
    ensures found.Some? ==> found.value in rows && found.value.id == id
    ensures found.None? ==> forall u | u in rows :: u.id != id
  {
    if rows == [] then None
    else if rows[0].id == id then Some(rows[0])
    else RowWithId(rows[1..], id)
  }

  /** Running the same UPDATE twice: the second run finds no listed row,
      updates nothing and reports 0. */
  lemma {:induction false} ClearFcmTokensIdempotent(rows: seq<User>, tokens: seq<string>)
    ensures ClearedTable(ClearedTable(rows, tokens), tokens) == ClearedTable(rows, tokens)
    ensures ListedCount(ClearedTable(rows, tokens), tokens) == 0
  {
    NothingListedCountsZero(ClearedTable(rows, tokens), tokens);
  }

  lemma {:induction false} NothingListedCountsZero(rows: seq<User>, tokens: seq<string>)
    requires forall u | u in rows :: !TokenListed(u, tokens)
    ensures ListedCount(rows, tokens) == 0
  {
    if rows != [] {
      NothingListedCountsZero(rows[..|rows| - 1], tokens);
    }
  }

  /** The update count is the size of the set of positions that held a
      listed token. */
  lemma {:induction false} ListedCountIsListedRows(rows: seq<User>, tokens: seq<string>)
    ensures ListedCount(rows, tokens) == |set i | 0 <= i < |rows| && TokenListed(rows[i], tokens)|
  {
    if rows != [] {
      var n := |rows| - 1;
      var init := rows[..n];
      ListedCountIsListedRows(init, tokens);
      var before := set i | 0 <= i < n && TokenListed(init[i], tokens);
      var after := set i | 0 <= i < |rows| && TokenListed(rows[i], tokens);
      if TokenListed(rows[n], tokens) {
        assert after == before + {n};
      } else {
        assert after == before;
      }
    }
  }

  /** The users table as the repository holds it. */
  class UserTable {
    var rows: seq<User>

    constructor (initial: seq<User>)
      ensures rows == initial
    {
      rows := initial;
    }

    function FindAllById(ids: seq<string>): seq<User>
      reads this
    {
      RowsWithIds(rows, ids)
    }

    function FindById(id: string): Option<User>
      reads this
    {
      RowWithId(rows, id)
    }

    /** UserRepository.clearFcmTokens: one pass over the table, nulling
        every listed token and counting the rows it changed. */
    method ClearFcmTokens(tokens: seq<string>) returns (count: nat)
      modifies this
      ensures rows == ClearedTable(old(rows), tokens)
      ensures count == ListedCount(old(rows), tokens)
    {
      var i := 0;
      count := 0;
      while i < |rows|
        invariant 0 <= i <= |rows| == |old(rows)|
        invariant rows[..i] == ClearedTable(old(rows)[..i], tokens)
        invariant forall k | i <= k < |rows| :: rows[k] == old(rows)[k]
        invariant count == ListedCount(old(rows)[..i], tokens)
      {
        assert old(rows)[..i + 1][..i] == old(rows)[..i];
        if TokenListed(rows[i], tokens) {
          rows := rows[i := rows[i].(fcmToken := None)];
          count := count + 1;
        }
        i := i + 1;
      }
      assert old(rows)[..i] == old(rows);
    }
  }
}
