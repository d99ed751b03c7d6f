/** Accounts (src/db/user.rs): the password rule, the in-memory `User`
    record and the `users` table. The password hash is foreign code (a
    SHA-512 digest in src/crypto.rs) and appears as a function parameter;
    salts arrive as parameters because they are drawn from the operating
    system's random source. */
module Users {
  import opened Common

  /** `hash_password(password, salt)`. */
  type PasswordHasher = (string, seq<byte>) -> string

  /** The width of a salt from `generate_salt`. */
  const SaltBytes: nat := 64

  /** A row of `users`. */
  datatype UserRow = UserRow(
    id: Int32,
    username: string,
    phash: Option<string>,
    psalt: Option<seq<byte>>,
    createdAt: Option<Timestamp>,
    mustChangePassword: Option<bool>)

  // ---------------------------------------------------------------------------
  // The password rule
  // ---------------------------------------------------------------------------

  /** `validate_password`. The character classes are the ASCII ones: the last
      conjunct makes every character ASCII, so Unicode upper- and lower-case
      letters outside ASCII can never make the rule hold. */
  predicate ValidatePassword(password: string) {
    && Utf8Len(password) >= 8
    && (exists i :: 0 <= i < |password| && IsAsciiUpper(password[i]))
    && (exists i :: 0 <= i < |password| && IsAsciiLower(password[i]))
    && (exists i :: 0 <= i < |password| && IsAsciiDigit(password[i]))
    && !(exists i :: 0 <= i < |password| && IsWhitespace(password[i]))
    && (forall i :: 0 <= i < |password| ==> IsAscii(password[i]))
  }

  /** The rule in characters: at least eight, an upper-case letter, a
      lower-case letter and a digit, no white space, nothing outside ASCII. */
  lemma ValidatePasswordInCharacters(password: string)
    ensures ValidatePassword(password) <==>
      && |password| >= 8
      && (exists i :: 0 <= i < |password| && IsAsciiUpper(password[i]))
      && (exists i :: 0 <= i < |password| && IsAsciiLower(password[i]))
      && (exists i :: 0 <= i < |password| && IsAsciiDigit(password[i]))
      && (forall i :: 0 <= i < |password| ==> !IsWhitespace(password[i]) && IsAscii(password[i]))
  {
    if forall i :: 0 <= i < |password| ==> IsAscii(password[i]) {
      AsciiUtf8Len(password);
    }
  }

  // ---------------------------------------------------------------------------
  // The table's rows
  // ---------------------------------------------------------------------------

  /** The credential check: a local account whose stored hash is the hash
      of `password` with the stored salt. */
  predicate Authenticates(row: UserRow, password: string, hash: PasswordHasher) {
    row.phash.Some? && row.psalt.Some? && hash(password, row.psalt.value) == row.phash.value
  }

  ghost predicate UniqueUsernames(rows: seq<UserRow>) {
    forall i, j :: 0 <= i < j < |rows| ==> rows[i].username != rows[j].username
  }

  ghost predicate UniqueUserIds(rows: seq<UserRow>) {
    forall i, j :: 0 <= i < j < |rows| ==> rows[i].id != rows[j].id
  }

  /** The serial primary key and the unique username. */
  ghost predicate UsersInvariant(rows: seq<UserRow>) {
    UniqueUsernames(rows) && UniqueUserIds(rows)
  }

  /** No row has this id: the next value of the id sequence satisfies it. */
  predicate UserIdFree(rows: seq<UserRow>, id: Int32) {
    forall i :: 0 <= i < |rows| ==> rows[i].id != id
  }

  /** The position of the row with `username`, if any. */
  function UsernameIndex(rows: seq<UserRow>, username: string): (k: Option<nat>)
    ensures k.Some? ==> k.value < |rows| && rows[k.value].username == username
    ensures k.None? ==> forall i :: 0 <= i < |rows| ==> rows[i].username != username
  {
    if rows == [] then None
    else if rows[0].username == username then Some(0)
    else match UsernameIndex(rows[1..], username)
      case None => None
      case Some(k) => Some(k + 1)
  }

  /** `get_by_username`. */
  function ByUsername(rows: seq<UserRow>, username: string): (r: Option<UserRow>)
    ensures r.Some? ==> r.value in rows && r.value.username == username
    ensures r.None? ==> forall row :: row in rows ==> row.username != username
  {
    match UsernameIndex(rows, username)
    case None => None
    case Some(k) => Some(rows[k])
  }

  /** With unique usernames, the row found is the only one with that name. */
  lemma ByUsernameUnique(rows: seq<UserRow>, username: string, row: UserRow)
    requires UniqueUsernames(rows) && row in rows && row.username == username
    ensures ByUsername(rows, username) == Some(row)
  {
    var k := UsernameIndex(rows, username).value;
    var j :| 0 <= j < |rows| && rows[j] == row;
    assert j == k;
  }

  /** `get_by_username_and_local_password`. */
  function ByUsernameAndPassword(rows: seq<UserRow>, username: string, password: string, hash: PasswordHasher)
    : (r: Option<UserRow>)
    ensures r.Some? ==> r.value in rows && r.value.username == username && Authenticates(r.value, password, hash)
  {
    match ByUsername(rows, username)
    case None => None
    case Some(user) =>
      if user.phash.Some? && user.psalt.Some? then
        if hash(password, user.psalt.value) == user.phash.value then Some(user) else None
      else None
  }

  /** The lookup succeeds exactly for a stored local account whose hash
      matches: an unknown name, an account without hash or salt, and a wrong
      password all give nothing. */
  lemma ByUsernameAndPasswordExact(rows: seq<UserRow>, username: string, password: string, hash: PasswordHasher)
    requires UniqueUsernames(rows)
    ensures ByUsernameAndPassword(rows, username, password, hash).Some? <==>
      exists row :: row in rows && row.username == username && Authenticates(row, password, hash)
  {
    if row :| row in rows && row.username == username && Authenticates(row, password, hash) {
      ByUsernameUnique(rows, username, row);
    }
  }

  /** The user with id `id` (`get_by_user_id`, called from the search
      handler; its body is not part of this model). */
  function ById(rows: seq<UserRow>, id: Int32): (r: Option<UserRow>)
    ensures r.Some? ==> r.value in rows && r.value.id == id
    ensures r.None? ==> forall row :: row in rows ==> row.id != id
  {
    if rows == [] then None
    else if rows[0].id == id then Some(rows[0])
    else ById(rows[1..], id)
  }

  /** `INSERT INTO users ... ON CONFLICT (username) DO UPDATE`: the row for
      `username` gets this hash and salt and `must_change_password = false`;
      a new name gets a new row. */
  function UpsertRows(rows: seq<UserRow>, username: string, phash: Option<string>, psalt: Option<seq<byte>>,
                      newId: Int32, now: Timestamp): (r: seq<UserRow>)
    ensures |r| >= |rows|
    ensures forall i :: 0 <= i < |rows| && rows[i].username != username ==> r[i] == rows[i]
    ensures UsernameIndex(rows, username).None? ==> r == rows + [UserRow(newId, username, phash, psalt, Some(now), Some(false))]
    ensures UsernameIndex(rows, username).Some? ==> |r| == |rows|
  {
    match UsernameIndex(rows, username)
    case None => rows + [UserRow(newId, username, phash, psalt, Some(now), Some(false))]
    case Some(k) => rows[k := rows[k].(phash := phash, psalt := psalt, mustChangePassword := Some(false))]
  }

  /** After the upsert the name has exactly one row, holding the given hash
      and salt and `must_change_password = false`; an existing row keeps its
      id and creation time. */
  lemma UpsertStoresCredentials(rows: seq<UserRow>, username: string, phash: Option<string>, psalt: Option<seq<byte>>,
                                newId: Int32, now: Timestamp)
    requires UsersInvariant(rows) && UserIdFree(rows, newId)
    ensures var after := UpsertRows(rows, username, phash, psalt, newId, now);
      && UsersInvariant(after)
      && ByUsername(after, username).Some?
      && ByUsername(after, username).value.phash == phash
      && ByUsername(after, username).value.psalt == psalt
      && ByUsername(after, username).value.mustChangePassword == Some(false)
      && (ByUsername(rows, username).Some? ==>
            ByUsername(after, username).value.id == ByUsername(rows, username).value.id
            && ByUsername(after, username).value.createdAt == ByUsername(rows, username).value.createdAt)
      && (ByUsername(rows, username).None? ==> ByUsername(after, username).value.id == newId)
  {
    var after := UpsertRows(rows, username, phash, psalt, newId, now);
    match UsernameIndex(rows, username)
    case None =>
      var row := UserRow(newId, username, phash, psalt, Some(now), Some(false));
      assert after[|rows|] == row;
      ByUsernameUnique(after, username, row);
    case Some(k) =>
      assert forall i :: 0 <= i < |rows| ==> after[i].id == rows[i].id && after[i].username == rows[i].username;
      ByUsernameUnique(after, username, after[k]);
      ByUsernameUnique(rows, username, rows[k]);
  }

  /** The upsert leaves every other name's row as it was. */
  lemma UpsertKeepsOtherNames(rows: seq<UserRow>, username: string, phash: Option<string>, psalt: Option<seq<byte>>,
                              newId: Int32, now: Timestamp, other: string)
    requires UsersInvariant(rows) && UserIdFree(rows, newId) && other != username
    ensures ByUsername(UpsertRows(rows, username, phash, psalt, newId, now), other) == ByUsername(rows, other)
  {
    var after := UpsertRows(rows, username, phash, psalt, newId, now);
    UpsertStoresCredentials(rows, username, phash, psalt, newId, now);
    match ByUsername(rows, other)
    case None =>
      forall row | row in after ensures row.username != other {
        var j :| 0 <= j < |after| && after[j] == row;
        if j < |rows| {
          if rows[j].username == username {
            assert after[j].username == username;
          } else {
            assert after[j] == rows[j];
          }
        }
      }
    case Some(row) =>
      var j :| 0 <= j < |rows| && rows[j] == row;
      assert after[j] == row;
      ByUsernameUnique(after, other, row);
  }

  // ---------------------------------------------------------------------------
  // The `users` table
  // ---------------------------------------------------------------------------

  class UserTable {
    var rows: seq<UserRow>

    ghost predicate Valid()
      reads this
    {
      UsersInvariant(rows)
    }

    constructor (initial: seq<UserRow>)
      requires UsersInvariant(initial)
      ensures Valid() && rows == initial
    {
      rows := initial;
    }

    /** `get_by_username_and_local_password`. */
    function GetByUsernameAndLocalPassword(username: string, password: string, hash: PasswordHasher)
      : (r: Option<UserRow>)
      reads this
      requires Valid()
      ensures r.Some? <==> exists row :: row in rows && row.username == username && Authenticates(row, password, hash)
      ensures r.Some? ==> r.value in rows && r.value.username == username
    {
      ByUsernameAndPasswordExact(rows, username, password, hash);
      ByUsernameAndPassword(rows, username, password, hash)
    }

    /** `get_id_from_username`, called from the search handler (its body is
        not part of this model). */
    function GetIdFromUsername(username: string): (r: Option<Int32>)
      reads this
      ensures r.Some? <==> exists row :: row in rows && row.username == username
      ensures r.Some? ==> exists row :: row in rows && row.username == username && row.id == r.value
    {
      match ByUsername(rows, username)
      case None => None
      case Some(row) => Some(row.id)
    }

    /** `get_by_user_id`, called from the search handler. */
    function GetByUserId(id: Int32): (r: Option<UserRow>)
      reads this
      ensures r.Some? <==> exists row :: row in rows && row.id == id
      ensures r.Some? ==> r.value in rows && r.value.id == id
    {
      ById(rows, id)
    }
  }

  // ---------------------------------------------------------------------------
  // The in-memory `User`
  // ---------------------------------------------------------------------------

  class User {
    var id: Int32
    var username: string
    var phash: Option<string>
    var psalt: Option<seq<byte>>
    var createdAt: Option<Timestamp>
    var mustChangePassword: Option<bool>

    function Row(): UserRow
      reads this
    {
      UserRow(id, username, phash, psalt, createdAt, mustChangePassword)
    }

    /** Has both a hash and a salt; accounts made through the Discord login
        have neither. */
    predicate IsLocal()
      reads this
    {
      phash.Some? && psalt.Some?
    }

    /** `new_local_from_password`, with `salt` the fresh salt it draws. The
        id is assigned by the database on insert. */
    constructor NewLocalFromPassword(username: string, password: string, mustChangePassword: Option<bool>,
                                     salt: seq<byte>, hash: PasswordHasher)
      requires |salt| == SaltBytes
      ensures IsLocal() && Authenticates(Row(), password, hash)
      ensures psalt == Some(salt)
      ensures id == 0 && this.username == username && createdAt.None?
      ensures this.mustChangePassword == mustChangePassword
    {
      id := 0;
      this.username := username;
      psalt := Some(salt);
      phash := Some(hash(password, salt));
      this.mustChangePassword := mustChangePassword;
      createdAt := None;
    }

    /** `update_local_password`: only a local account changes, getting a
        fresh salt, the hash of the new password and the flag. */
    method UpdateLocalPassword(newPassword: string, mustChangePassword: bool, salt: seq<byte>, hash: PasswordHasher)
      returns (r: Option<()>)
      requires |salt| == SaltBytes
      modifies this
      ensures r.Some? <==> old(IsLocal())
      ensures old(IsLocal()) ==>
        && IsLocal() && Authenticates(Row(), newPassword, hash)
        && psalt == Some(salt)
        && this.mustChangePassword == Some(mustChangePassword)
        && id == old(id) && username == old(username) && createdAt == old(createdAt)
      ensures !old(IsLocal()) ==> Row() == old(Row())
    {
      if phash.Some? && psalt.Some? {
        psalt := Some(salt);
        phash := Some(hash(newPassword, salt));
        this.mustChangePassword := Some(mustChangePassword);
        return Some(());
      }
      return None;
    }

    /** `check_username_exists`. */
    function CheckUsernameExists(table: UserTable): (b: bool)
      reads this, table
      ensures b <==> exists row :: row in table.rows && row.username == username
    {
      UsernameIndex(table.rows, username).Some?
    }

    /** `insert_or_update`: upserts by username; the stored
        `must_change_password` is always false. */
    method InsertOrUpdate(table: UserTable, newId: Int32, now: Timestamp)
      requires table.Valid() && UserIdFree(table.rows, newId)
      modifies table
      ensures table.Valid()
      ensures table.rows == UpsertRows(old(table.rows), username, phash, psalt, newId, now)
    {
      UpsertStoresCredentials(table.rows, username, phash, psalt, newId, now);
      table.rows := UpsertRows(table.rows, username, phash, psalt, newId, now);
    }
  }
}
