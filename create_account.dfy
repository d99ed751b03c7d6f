/** `create_account` (src/route/create_account.rs): a local account is
    created when the name is free and the password meets the rule. The name
    is checked first, then the password, then the row is upserted. The salt
    comes from the operating system's random source and the row id from the
    table's id sequence; both are parameters. */
module CreateAccount {
  import opened Common
  import opened Token
  import opened Users
  import opened Login

  const AccountCreated := Response(Ok200, "account created")
  const InternalError := Response(InternalError500, "internal server error")
  const NameTaken := Response(Conflict409, "username already exists")
  const WeakPassword := Response(BadRequest400,
    "password does not meet complexity requirements of at least: 8 characters, one uppercase letter, "
    + "one lowercase letter, one digit, no spaces, ASCII only")

  datatype AccountOutcome = AccountOutcome(response: Response, rows: seq<UserRow>)

  /** The row a successful request adds. */
  function NewAccountRow(username: string, password: string, salt: seq<byte>, hash: PasswordHasher,
                         newId: Int32, now: Timestamp): (row: UserRow)
    ensures Authenticates(row, password, hash) && row.username == username
    ensures row.mustChangePassword == Some(false)
  {
    UserRow(newId, username, Some(hash(password, salt)), Some(salt), Some(now), Some(false))
  }

  /** The handler's reply and the `users` rows afterwards. */
  function CreateAccountOutcome(rows: seq<UserRow>, username: string, password: string, salt: seq<byte>,
                                hash: PasswordHasher, newId: Int32, now: Timestamp, faults: Faults): (o: AccountOutcome)
    ensures o.response.status == Ok200 <==>
      && UsernameCheck !in faults && UserUpsert !in faults
      && (forall row :: row in rows ==> row.username != username)
      && ValidatePassword(password)
    ensures o.response.status != Ok200 ==> o.rows == rows
    ensures o.response.status == Ok200 ==> o.rows == rows + [NewAccountRow(username, password, salt, hash, newId, now)]
  {
    if UsernameCheck in faults then AccountOutcome(InternalError, rows)
    else if UsernameIndex(rows, username).Some? then AccountOutcome(NameTaken, rows)
    else if !ValidatePassword(password) then AccountOutcome(WeakPassword, rows)
    else if UserUpsert in faults then AccountOutcome(InternalError, rows)
    else AccountOutcome(AccountCreated, UpsertRows(rows, username, Some(hash(password, salt)), Some(salt), newId, now))
  }

  /** The name is checked before the password: a taken name gets 409
      whatever the password, and a free name with a weak password gets 400;
      neither changes the table. */
  lemma NameCheckedBeforePassword(rows: seq<UserRow>, username: string, password: string, salt: seq<byte>,
                                  hash: PasswordHasher, newId: Int32, now: Timestamp, faults: Faults)
    requires UsernameCheck !in faults
    ensures (exists row :: row in rows && row.username == username) ==>
      CreateAccountOutcome(rows, username, password, salt, hash, newId, now, faults) == AccountOutcome(NameTaken, rows)
    ensures (forall row :: row in rows ==> row.username != username) && !ValidatePassword(password) ==>
      CreateAccountOutcome(rows, username, password, salt, hash, newId, now, faults) == AccountOutcome(WeakPassword, rows)
  {
    if row :| row in rows && row.username == username {
      assert UsernameIndex(rows, username).Some?;
    }
  }

  /** A storage failure on either statement is a 500 with the table as it
      was. */
  lemma StorageFailureIs500(rows: seq<UserRow>, username: string, password: string, salt: seq<byte>,
                            hash: PasswordHasher, newId: Int32, now: Timestamp, faults: Faults)
    requires UsernameCheck in faults
      || (UserUpsert in faults && (forall row :: row in rows ==> row.username != username) && ValidatePassword(password))
    ensures CreateAccountOutcome(rows, username, password, salt, hash, newId, now, faults) == AccountOutcome(InternalError, rows)
  {
  }

  /** A successful request keeps the table's unique names and ids. */
  lemma CreateKeepsInvariant(rows: seq<UserRow>, username: string, password: string, salt: seq<byte>,
                             hash: PasswordHasher, newId: Int32, now: Timestamp, faults: Faults)
    requires UsersInvariant(rows) && UserIdFree(rows, newId)
    ensures UsersInvariant(CreateAccountOutcome(rows, username, password, salt, hash, newId, now, faults).rows)
  {
    UpsertStoresCredentials(rows, username, Some(hash(password, salt)), Some(salt), newId, now);
  }

  /** An account that `create_account` accepted can log in with the same
      name and password: the new account is not flagged for a password
      change, and the token issued becomes its only one. */
  lemma CreatedAccountCanLogIn(rows: seq<UserRow>, username: string, password: string, salt: seq<byte>,
                               hash: PasswordHasher, newId: Int32, now: Timestamp, faults: Faults,
                               pairs: set<UserToken>, token: string, loginFaults: Faults)
    requires UsersInvariant(rows) && UserIdFree(rows, newId)
    requires CreateAccountOutcome(rows, username, password, salt, hash, newId, now, faults).response.status == Ok200
    requires UserLookup !in loginFaults && TokenRemoveAll !in loginFaults && TokenInsert !in loginFaults
    ensures var after := CreateAccountOutcome(rows, username, password, salt, hash, newId, now, faults).rows;
      var o := LocalLoginOutcome(after, pairs, username, password, hash, token, loginFaults);
      && o.response == LoggedIn
      && o.issued == Some(token)
      && TokensOf(o.pairs, newId) == {token}
  {
    var after := CreateAccountOutcome(rows, username, password, salt, hash, newId, now, faults).rows;
    var row := NewAccountRow(username, password, salt, hash, newId, now);
    CreateKeepsInvariant(rows, username, password, salt, hash, newId, now, faults);
    assert after[|rows|] == row;
    DecideExact(after, username, password, hash, loginFaults, row);
    RotateLeavesOnlyNewToken(pairs, newId, token, newId);
  }

  /** The handler against the `users` table. */
  method CreateAccount(users: UserTable, username: string, password: string, salt: seq<byte>,
                       hash: PasswordHasher, newId: Int32, now: Timestamp, faults: Faults)
    returns (response: Response)
    requires users.Valid() && UserIdFree(users.rows, newId) && |salt| == SaltBytes
    modifies users
    ensures users.Valid()
    ensures AccountOutcome(response, users.rows)
      == CreateAccountOutcome(old(users.rows), username, password, salt, hash, newId, now, faults)
  {
    var user := new User.NewLocalFromPassword(username, password, Some(false), salt, hash);
    if UsernameCheck in faults {
      return InternalError;
    } else if user.CheckUsernameExists(users) {
      return NameTaken;
    } else if !ValidatePassword(password) {
      return WeakPassword;
    }
    if UserUpsert in faults {
      return InternalError;
    }
    user.InsertOrUpdate(users, newId, now);
    return AccountCreated;
  }
}
