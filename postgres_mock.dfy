/** `storages/postgres/postgres_mock.go`: the in-memory test double. Its
    methods have value receivers, so none of them can change `Users`; apart
    from `GetUser` they return constants. */
module PostgresMock {
  import opened Wrappers
  import opened Jwt
  import opened Models

  datatype PGMock = PGMock(users: seq<User>)

  /** `GetUser`: the first element of `Users`, in slice order, with that
      id; `(nil, nil)` when none has it. */
  method GetUser(p: PGMock, id: int) returns (user: Option<User>, err: Option<DbError>)
    ensures err == None
    ensures user.None? <==> forall i :: 0 <= i < |p.users| ==> p.users[i].id != id
    ensures user.Some? ==> exists i :: 0 <= i < |p.users| && p.users[i] == user.value && user.value.id == id
                                       && forall j :: 0 <= j < i ==> p.users[j].id != id
  {
    err := None;
    var i := 0;
    while i < |p.users|
      invariant 0 <= i <= |p.users|
      invariant forall j :: 0 <= j < i ==> p.users[j].id != id
    {
      if p.users[i].id == id {
        return Some(p.users[i]), None;
      }
      i := i + 1;
    }
    user := None;
  }

  /** `GetUserList`: the slice `Users` itself. */
  function GetUserList(p: PGMock): (r: (seq<User>, Option<DbError>))
    ensures r.0 == p.users && r.1 == None
  {
    (p.users, None)
  }

  /** `CreateUser`: nothing is appended; no user and no error. */
  function CreateUser(p: PGMock, user: User): (r: (Option<User>, Option<DbError>))
    ensures r.0.None? && r.1.None?
  {
    (None, None)
  }

  /** `UpdateUser`: nothing is changed; no user and no error. */
  function UpdateUser(p: PGMock, user: User): (r: (Option<User>, Option<DbError>))
    ensures r.0.None? && r.1.None?
  {
    (None, None)
  }

  /** `DeleteUser`: nothing is removed, and no error, whether or not an
      element has the id. */
  function DeleteUser(p: PGMock, id: int): (err: Option<DbError>)
    ensures err.None?
  {
    None
  }

  /** `GetUserByEmail`: no user and no error, whatever `Users` holds. */
  function GetUserByEmail(p: PGMock, email: string): (r: (Option<User>, Option<DbError>))
    ensures r.0.None? && r.1.None?
  {
    (None, None)
  }

  /** `GetUserByRefresh`: no user and no error, whatever `Users` holds. */
  function GetUserByRefresh(p: PGMock, refresh: Token): (r: (Option<User>, Option<DbError>))
    ensures r.0.None? && r.1.None?
  {
    (None, None)
  }

  /** `UpdateUserTokens`: nothing is changed, and no error. */
  function UpdateUserTokens(p: PGMock, id: int, token: Token, refresh: Token): (err: Option<DbError>)
    ensures err.None?
  {
    None
  }

  /** `ValidateToken`: every refresh token is valid. */
  function ValidateToken(p: PGMock, refresh: Token): (r: (bool, Option<DbError>))
    ensures r.0 && r.1.None?
  {
    (true, None)
  }

  /** The mock validates every refresh token, yet resolves none of them to a
      user, even one whose element of `Users` carries it, and finds no user
      by e-mail. */
  lemma MockValidateDisagreesWithLookup(p: PGMock, refresh: Token, email: string)
    ensures ValidateToken(p, refresh) == (true, None)
    ensures GetUserByRefresh(p, refresh) == (None, None) && GetUserByEmail(p, email) == (None, None)
  {
  }
}
