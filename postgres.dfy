/** `storages/postgres/postgres.go`: the repository over the `users` table.
    Each method's SQL statement is the table function of the same meaning in
    `UsersTable`; connection failures and timeouts are not modelled. */
module PostgresStore {
  import opened Wrappers
  import opened Text
  import opened Jwt
  import opened Models
  import opened UsersTable

  /** The columns `id, username, email, date_joined`; the other fields keep
      their zero values. */
  function Summary(u: User): User {
    ZeroUser.(id := u.id, username := u.username, email := u.email, dateJoined := u.dateJoined)
  }

  /** The columns `id, username, email, password, date_joined`. */
  function WithoutTokens(u: User): User {
    u.(token := NoToken, refreshToken := NoToken)
  }

  /** The server message of a unique violation on the e-mail column, under
      PostgreSQL's default constraint name. */
  const DuplicateEmailMessage: string := "duplicate key value violates unique constraint \"users_email_key\""

  const NilDereference: string := "runtime error: invalid memory address or nil pointer dereference"

  /** The e-mail that `CreateUser` inserts: lower-cased, and NULL for a nil
      `*string`. */
  function InsertedEmail(email: Option<string>): (r: Option<string>)
    ensures r.Some? <==> email.Some?
    ensures r.Some? ==> r.value == ToLower(email.value) && ToLower(r.value) == r.value
  {
    ToLowerIdempotent(if email.Some? then email.value else "");
    match email
    case None => None
    case Some(e) => Some(ToLower(e))
  }

  /** Line 107 as written: `strings.ToLower(*user.Email)` dereferences the
      pointer before the nil test of line 116. */
  function InsertedEmailAsWritten(email: Option<string>): (r: Call<Option<string>>)
    ensures r.Panicked? <==> email.None?
    ensures email.Some? ==> r == Returned(Some(ToLower(email.value)))
  {
    match email
    case None => Panicked(NilDereference)
    case Some(e) => Returned(Some(ToLower(e)))
  }

  /** As written, a user without an e-mail makes `CreateUser` panic; the
      corrected insert stores NULL, and both agree on every non-nil e-mail. */
  lemma NilEmailInsertFinding(email: Option<string>)
    ensures InsertedEmailAsWritten(None).Panicked? && InsertedEmail(None) == None
    ensures email.Some? ==> InsertedEmailAsWritten(email) == Returned(InsertedEmail(email))
  {
  }

  /** Lines 56-61 as written: the e-mail column is scanned into the local
      `lowerEmail`, so the returned user never has its e-mail set. */
  function ScanByEmailAsWritten(users: seq<User>, email: string): (r: Result<User, DbError>)
    ensures r.Success? ==> r.value.email == None
  {
    match FirstIndex(users, EmailIs(ToLower(email)))
    case None => Failure(NoRows)
    case Some(k) => Success(WithoutTokens(users[k]).(email := ZeroUser.email))
  }

  /** `GetUserByEmail` as written: line 55 evaluates `*user.Email` on the zero
      `models.User`, whose `Email` is a nil pointer, so every call panics,
      whatever the table. */
  function GetUserByEmailAsWritten(users: seq<User>, email: string): (r: Call<Result<User, DbError>>)
    ensures r == Panicked(NilDereference)
  {
    if ZeroUser.email.None? then Panicked(NilDereference) else Returned(ScanByEmailAsWritten(users, email))
  }

  class Postgres {
    const db: Database

    constructor (db: Database)
      ensures this.db == db
    {
      this.db := db;
    }

    /** `GetUser`: the id, username, e-mail and join date of the row with
        that id; password and tokens are not read. */
    function GetUser(id: int): (r: Result<User, DbError>)
      reads db
      ensures r.Success? <==> exists i :: 0 <= i < |db.users| && db.users[i].id == id
      ensures r.Failure? ==> r.error == NoRows
      ensures r.Success? ==> r.value.id == id
      ensures r.Success? ==> exists i :: 0 <= i < |db.users| && db.users[i].id == id && r.value == Summary(db.users[i])
      ensures r.Success? ==> r.value.password == "" && r.value.token == NoToken && r.value.refreshToken == NoToken
    {
      match FirstIndex(db.users, IdIs(id))
      case None => Failure(NoRows)
      case Some(k) => Success(Summary(db.users[k]))
    }

    /** `GetUserByEmail`, corrected: the row whose e-mail is the lower-cased
        argument, with its e-mail and password but not its tokens. */
    function GetUserByEmail(email: string): (r: Result<User, DbError>)
      reads db
      ensures r.Success? <==> exists i :: 0 <= i < |db.users| && db.users[i].email == Some(ToLower(email))
      ensures r.Failure? ==> r.error == NoRows
      ensures r.Success? ==> r.value.email == Some(ToLower(email))
      ensures r.Success? ==> exists i :: 0 <= i < |db.users| && r.value == WithoutTokens(db.users[i])
    {
      match FirstIndex(db.users, EmailIs(ToLower(email)))
      case None => Failure(NoRows)
      case Some(k) => Success(WithoutTokens(db.users[k]))
    }

    /** `GetUserByRefresh`: a row that carries the refresh token, without its
        tokens. */
    function GetUserByRefresh(refresh: Token): (r: Result<User, DbError>)
      reads db
      ensures r.Success? <==> exists i :: 0 <= i < |db.users| && db.users[i].refreshToken == refresh
      ensures r.Failure? ==> r.error == NoRows
      ensures r.Success? ==> exists i :: 0 <= i < |db.users| && db.users[i].refreshToken == refresh
                                         && r.value == WithoutTokens(db.users[i])
    {
      match FirstIndex(db.users, RefreshTokenIs(refresh))
      case None => Failure(NoRows)
      case Some(k) => Success(WithoutTokens(db.users[k]))
    }

    /** `ValidateToken`: true exactly when some row carries the refresh token. */
    function ValidateToken(refresh: Token): (r: (bool, Option<DbError>))
      reads db
      ensures r.0 <==> exists i :: 0 <= i < |db.users| && db.users[i].refreshToken == refresh
      ensures r.0 ==> r.1 == None
      ensures !r.0 ==> r.1 == Some(NoRows)
    {
      if FirstIndex(db.users, RefreshTokenIs(refresh)).Some? then (true, None) else (false, Some(NoRows))
    }

    /** `GetUserList`: one summary per row, in table order. */
    method GetUserList() returns (list: seq<User>, err: Option<DbError>)
      ensures err == None
      ensures |list| == |db.users|
      ensures forall i :: 0 <= i < |list| ==> list[i] == Summary(db.users[i])
    {
      list := [];
      var i := 0;
      while i < |db.users|
        invariant 0 <= i <= |db.users|
        invariant |list| == i
        invariant forall j :: 0 <= j < i ==> list[j] == Summary(db.users[j])
      {
        list := list + [Summary(db.users[i])];
        i := i + 1;
      }
      err := None;
    }

    /** `CreateUser`: inserts the user under the next serial id with its
        e-mail lower-cased and returns it so; the id serial advances even
        when the unique constraint rejects the row. */
    method CreateUser(user: User) returns (r: Result<User, DbError>)
      requires db.Valid()
      modifies db
      ensures db.Valid()
      ensures db.nextId == old(db.nextId) + 1
      ensures var email := InsertedEmail(user.email);
              var taken := email.Some? && exists i :: 0 <= i < |old(db.users)| && old(db.users)[i].email == email;
              && (r.Failure? <==> taken)
              && (taken ==> r == Failure(Pg(PgError(UniqueViolation, DuplicateEmailMessage))) && db.users == old(db.users))
              && (!taken ==> r == Success(user.(id := old(db.nextId), email := email))
                             && db.users == old(db.users) + [r.value])
      ensures r.Success? && user.email.Some? ==>
                forall s :: ToLower(s) == ToLower(user.email.value) ==> GetUserByEmail(s) == Success(WithoutTokens(r.value))
    {
      var email := InsertedEmail(user.email);
      var id := db.nextId;
      db.nextId := db.nextId + 1;
      if email.Some? && FirstIndex(db.users, EmailIs(email.value)).Some? {
        r := Failure(Pg(PgError(UniqueViolation, DuplicateEmailMessage)));
      } else {
        var row := user.(id := id, email := email);
        ghost var before := db.users;
        db.users := db.users + [row];
        r := Success(row);
        if user.email.Some? {
          forall s | ToLower(s) == ToLower(user.email.value)
            ensures GetUserByEmail(s) == Success(WithoutTokens(row))
          {
            InsertedFoundByEmail(before, row, user.email.value, s);
          }
        }
      }
    }

    /** `UpdateUser`: sets only the username of the row with the user's id,
        and answers "user not found" when no row has it. */
    method UpdateUser(user: User) returns (r: Result<User, DbError>)
      requires db.Valid()
      modifies db
      ensures db.Valid() && db.nextId == old(db.nextId)
      ensures var found := exists i :: 0 <= i < |old(db.users)| && old(db.users)[i].id == user.id;
              && (!found ==> r == Failure(UserNotFound) && db.users == old(db.users))
              && (found ==> r == Success(user) && db.users == SetUsername(old(db.users), user.id, user.username))
    {
      if FirstIndex(db.users, IdIs(user.id)).None? {
        r := Failure(UserNotFound);
      } else {
        db.users := SetUsername(db.users, user.id, user.username);
        r := Success(user);
      }
    }

    /** `UpdateUserTokens`: overwrites the token columns of the row with that
        id; an id no row has updates nothing and is no error. */
    method UpdateUserTokens(id: int, token: Token, refresh: Token) returns (err: Option<DbError>)
      requires db.Valid()
      modifies db
      ensures db.Valid() && db.nextId == old(db.nextId)
      ensures err == None
      ensures db.users == SetTokens(old(db.users), id, token, refresh)
      ensures (forall i :: 0 <= i < |old(db.users)| ==> old(db.users)[i].id != id) ==> db.users == old(db.users)
    {
      db.users := SetTokens(db.users, id, token, refresh);
      err := None;
    }

    /** `DeleteUser`: removes the row with that id, and answers "user not
        found" when no row has it. */
    method DeleteUser(id: int) returns (err: Option<DbError>)
      requires db.Valid()
      modifies db
      ensures db.Valid() && db.nextId == old(db.nextId)
      ensures var found := exists i :: 0 <= i < |old(db.users)| && old(db.users)[i].id == id;
              && (!found ==> err == Some(UserNotFound) && db.users == old(db.users))
              && (found ==> err == None && db.users == DeleteId(old(db.users), id))
    {
      if FirstIndex(db.users, IdIs(id)).None? {
        err := Some(UserNotFound);
      } else {
        DeleteIdKeepsConstraints(db.users, id);
        db.users := DeleteId(db.users, id);
        err := None;
      }
    }
  }

  /** The repository's two refresh-token queries agree. */
  lemma ValidateAgreesWithLookup(p: Postgres, refresh: Token)
    ensures p.ValidateToken(refresh).0 <==> p.GetUserByRefresh(refresh).Success?
  {
  }
}
