/** The `users` table of the PostgreSQL database that both the repository
    and the token handlers talk to: the rows, the `id` serial, and the
    meaning of each SQL statement the core issues, as functions on rows.
    Rows are kept in table order; a `SELECT` without `ORDER BY` is read in
    that order. */
module UsersTable {
  import opened Wrappers
  import opened Text
  import opened Jwt
  import opened Models

  /** The `WHERE` clauses the core uses. */
  datatype Where = IdIs(id: int) | EmailIs(email: string) | RefreshTokenIs(refresh: Token)

  predicate Satisfies(u: User, w: Where) {
    match w
    case IdIs(id) => u.id == id
    case EmailIs(e) => u.email == Some(e)
    case RefreshTokenIs(t) => u.refreshToken == t
  }

  /** The position of the first row satisfying `w`: the row `QueryRow` scans. */
  function FirstIndex(users: seq<User>, w: Where): (r: Option<nat>)
    ensures r.Some? ==> r.value < |users| && Satisfies(users[r.value], w)
    ensures r.Some? ==> forall j :: 0 <= j < r.value ==> !Satisfies(users[j], w)
    ensures r.None? <==> forall j :: 0 <= j < |users| ==> !Satisfies(users[j], w)
  {
    if |users| == 0 then None
    else if Satisfies(users[0], w) then Some(0)
    else match FirstIndex(users[1..], w)
      case None => None
      case Some(k) => Some(k + 1)
  }

  ghost predicate UniqueIds(users: seq<User>) {
    forall i, j :: 0 <= i < j < |users| ==> users[i].id != users[j].id
  }

  /** The unique constraint on the e-mail column (NULLs never collide). */
  ghost predicate UniqueEmails(users: seq<User>) {
    forall i, j :: 0 <= i < j < |users| && users[i].email.Some? ==> users[i].email != users[j].email
  }

  /** With unique ids, the row holding an id is the one a lookup finds. */
  lemma UniqueIdFound(users: seq<User>, k: nat)
    requires UniqueIds(users) && k < |users|
    ensures FirstIndex(users, IdIs(users[k].id)) == Some(k)
  {
  }

  /** With unique e-mails, the row holding an e-mail is the one a lookup finds. */
  lemma UniqueEmailFound(users: seq<User>, k: nat)
    requires UniqueEmails(users) && k < |users| && users[k].email.Some?
    ensures FirstIndex(users, EmailIs(users[k].email.value)) == Some(k)
  {
  }

  /** `UPDATE users SET token=$1, refresh_token=$2 WHERE id=$3`. */
  function SetTokens(users: seq<User>, id: int, token: Token, refresh: Token): (r: seq<User>)
    ensures |r| == |users|
    ensures forall i :: 0 <= i < |users| && users[i].id != id ==> r[i] == users[i]
    ensures forall i :: 0 <= i < |users| && users[i].id == id ==>
              r[i].token == token && r[i].refreshToken == refresh
              && r[i].(token := users[i].token, refreshToken := users[i].refreshToken) == users[i]
  {
    seq(|users|, i requires 0 <= i < |users| =>
      if users[i].id == id then users[i].(token := token, refreshToken := refresh) else users[i])
  }

  /** `UPDATE users SET username=$2 WHERE id=$1`. */
  function SetUsername(users: seq<User>, id: int, username: string): (r: seq<User>)
    ensures |r| == |users|
    ensures forall i :: 0 <= i < |users| && users[i].id != id ==> r[i] == users[i]
    ensures forall i :: 0 <= i < |users| && users[i].id == id ==>
              r[i].username == username && r[i].(username := users[i].username) == users[i]
  {
    seq(|users|, i requires 0 <= i < |users| =>
      if users[i].id == id then users[i].(username := username) else users[i])
  }

  /** `DELETE FROM users WHERE id=$1`: the other rows, in their order. */
  function DeleteId(users: seq<User>, id: int): (r: seq<User>)
    ensures forall u :: u in r <==> u in users && u.id != id
    ensures |r| <= |users|
    ensures FirstIndex(users, IdIs(id)).None? ==> r == users
  {
    if |users| == 0 then []
    else (if users[0].id == id then [] else [users[0]]) + DeleteId(users[1..], id)
  }

  /** A token update rewrites the two token columns of the one row with that
      id and nothing else. */
  lemma SetTokensFrame(users: seq<User>, k: nat, token: Token, refresh: Token)
    requires UniqueIds(users) && k < |users|
    ensures SetTokens(users, users[k].id, token, refresh)[k] == users[k].(token := token, refreshToken := refresh)
    ensures forall i :: 0 <= i < |users| && i != k ==> SetTokens(users, users[k].id, token, refresh)[i] == users[i]
  {
  }

  /** A username update rewrites the username of the one row with that id
      and nothing else. */
  lemma SetUsernameFrame(users: seq<User>, k: nat, username: string)
    requires UniqueIds(users) && k < |users|
    ensures SetUsername(users, users[k].id, username)[k] == users[k].(username := username)
    ensures forall i :: 0 <= i < |users| && i != k ==> SetUsername(users, users[k].id, username)[i] == users[i]
  {
  }

  /** After a rotation of row k's pair, its old refresh token still resolves
      exactly when it equals the new one or another row carries it too. */
  lemma RotationRetiresOldRefresh(users: seq<User>, k: nat, token: Token, refresh: Token)
    requires UniqueIds(users) && k < |users|
    ensures var after := SetTokens(users, users[k].id, token, refresh);
            var stale := users[k].refreshToken;
            FirstIndex(after, RefreshTokenIs(stale)).Some?
            <==> stale == refresh || exists i :: 0 <= i < |users| && i != k && users[i].refreshToken == stale
  {
    var after := SetTokens(users, users[k].id, token, refresh);
    var stale := users[k].refreshToken;
    SetTokensFrame(users, k, token, refresh);
    if FirstIndex(after, RefreshTokenIs(stale)).Some? {
      var j := FirstIndex(after, RefreshTokenIs(stale)).value;
      if j != k {
        assert users[j].refreshToken == stale;
      }
    } else if stale != refresh {
      assert !Satisfies(after[k], RefreshTokenIs(stale));
      forall i | 0 <= i < |users| && i != k
        ensures users[i].refreshToken != stale
      {
        assert !Satisfies(after[i], RefreshTokenIs(stale));
      }
    }
  }

  /** After a rotation the new refresh token resolves; to row k itself unless
      an earlier row already carries the same token. */
  lemma RotatedRefreshResolves(users: seq<User>, k: nat, token: Token, refresh: Token)
    requires UniqueIds(users) && k < |users|
    ensures var after := SetTokens(users, users[k].id, token, refresh);
            FirstIndex(after, RefreshTokenIs(refresh)).Some?
            && ((forall i :: 0 <= i < k ==> users[i].refreshToken != refresh)
                ==> FirstIndex(after, RefreshTokenIs(refresh)) == Some(k))
  {
    var after := SetTokens(users, users[k].id, token, refresh);
    SetTokensFrame(users, k, token, refresh);
    assert Satisfies(after[k], RefreshTokenIs(refresh));
    if forall i :: 0 <= i < k ==> users[i].refreshToken != refresh {
      forall i | 0 <= i < k
        ensures !Satisfies(after[i], RefreshTokenIs(refresh))
      {
        assert after[i] == users[i];
      }
    }
  }

  /** After deleting the row with an id, nothing has that id, and every other
      id resolves to the same row as before. */
  lemma {:induction false} DeleteFrame(users: seq<User>, id: int, other: int)
    requires UniqueIds(users) && other != id
    ensures FirstIndex(DeleteId(users, id), IdIs(id)).None?
    ensures var before := FirstIndex(users, IdIs(other));
            var after := FirstIndex(DeleteId(users, id), IdIs(other));
            before.Some? == after.Some?
            && (before.Some? ==> DeleteId(users, id)[after.value] == users[before.value])
  {
    var rest := DeleteId(users, id);
    var before := FirstIndex(users, IdIs(other));
    var after := FirstIndex(rest, IdIs(other));
    if before.Some? {
      var u := users[before.value];
      assert u in rest;
      var i :| 0 <= i < |rest| && rest[i] == u;
      assert after.Some?;
      var v := rest[after.value];
      assert v in users;
      var m :| 0 <= m < |users| && users[m] == v;
      assert m == before.value;
    }
  }

  /** After deleting row k, its refresh token resolves only to some other
      row, and to none at all when no other row carries it. */
  lemma DeletedRefreshResolvesElsewhere(users: seq<User>, k: nat)
    requires UniqueIds(users) && k < |users|
    ensures var rest := DeleteId(users, users[k].id);
            var t := users[k].refreshToken;
            var f := FirstIndex(rest, RefreshTokenIs(t));
            (f.Some? ==> rest[f.value].id != users[k].id)
            && (f.None? <==> forall i :: 0 <= i < |users| && i != k ==> users[i].refreshToken != t)
  {
    var rest := DeleteId(users, users[k].id);
    var t := users[k].refreshToken;
    var f := FirstIndex(rest, RefreshTokenIs(t));
    if f.Some? {
      assert rest[f.value] in rest;
      var m :| 0 <= m < |users| && users[m] == rest[f.value];
      assert m != k;
    } else {
      forall i | 0 <= i < |users| && i != k
        ensures users[i].refreshToken != t
      {
        assert users[i].id != users[k].id;
        assert users[i] in rest;
        var j :| 0 <= j < |rest| && rest[j] == users[i];
      }
    }
  }

  /** A row appended under an e-mail nobody holds is what a lookup by that
      e-mail finds, whatever the letter case of the text looked up. */
  lemma InsertedFoundByEmail(users: seq<User>, row: User, e: string, s: string)
    requires row.email == Some(ToLower(e)) && ToLower(s) == ToLower(e)
    requires forall i :: 0 <= i < |users| ==> users[i].email != row.email
    ensures FirstIndex(users + [row], EmailIs(ToLower(s))) == Some(|users|)
  {
    var all := users + [row];
    assert Satisfies(all[|users|], EmailIs(ToLower(s)));
  }

  /** Deleting rows keeps both uniqueness constraints. */
  lemma DeleteIdKeepsConstraints(users: seq<User>, id: int)
    requires UniqueIds(users) && UniqueEmails(users)
    ensures UniqueIds(DeleteId(users, id)) && UniqueEmails(DeleteId(users, id))
  {
    DeleteIdKeepsUniqueIds(users, id);
    DeleteIdKeepsUniqueEmails(users, id);
  }

  lemma {:induction false} DeleteIdKeepsUniqueIds(users: seq<User>, id: int)
    requires UniqueIds(users)
    ensures UniqueIds(DeleteId(users, id))
  {
    if |users| > 0 && users[0].id != id {
      var tail := users[1..];
      DeleteIdKeepsUniqueIds(tail, id);
      var rest := DeleteId(tail, id);
      var r := [users[0]] + rest;
      assert DeleteId(users, id) == r;
      forall j | 1 <= j < |r|
        ensures r[0].id != r[j].id
      {
        assert r[j] == rest[j - 1] && rest[j - 1] in tail;
        var m :| 0 <= m < |tail| && tail[m] == rest[j - 1];
        assert users[m + 1] == tail[m];
      }
    } else if |users| > 0 {
      DeleteIdKeepsUniqueIds(users[1..], id);
    }
  }

  lemma {:induction false} DeleteIdKeepsUniqueEmails(users: seq<User>, id: int)
    requires UniqueEmails(users)
    ensures UniqueEmails(DeleteId(users, id))
  {
    if |users| > 0 && users[0].id != id {
      var tail := users[1..];
      DeleteIdKeepsUniqueEmails(tail, id);
      var rest := DeleteId(tail, id);
      var r := [users[0]] + rest;
      assert DeleteId(users, id) == r;
      forall j | 1 <= j < |r| && r[0].email.Some?
        ensures r[0].email != r[j].email
      {
        assert r[j] == rest[j - 1] && rest[j - 1] in tail;
        var m :| 0 <= m < |tail| && tail[m] == rest[j - 1];
        assert users[m + 1] == tail[m];
      }
    } else if |users| > 0 {
      DeleteIdKeepsUniqueEmails(users[1..], id);
    }
  }

  /** The database: the rows of `users` and the next value of its `id` serial. */
  class Database {
    var users: seq<User>
    var nextId: int

    /** Ids are positive, below the serial's next value and unique; the
        e-mail column is unique. */
    ghost predicate Valid()
      reads this
    {
      && nextId >= 1
      && (forall i :: 0 <= i < |users| ==> 1 <= users[i].id < nextId)
      && UniqueIds(users)
      && UniqueEmails(users)
    }

    constructor ()
      ensures Valid() && users == [] && nextId == 1
    {
      users := [];
      nextId := 1;
    }
  }
}
