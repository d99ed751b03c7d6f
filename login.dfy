/** The two password login handlers: `local_login::login`
    (src/route/local_login.rs) and the earlier `login::login`
    (src/route/login.rs). Both look the account up by name and password,
    refuse an account that must change its password, and then rotate the
    user's session token: every earlier token is removed and the fresh one
    inserted. They differ only when a token statement fails: the newer
    handler answers 500, the earlier one panics on `unwrap`. The fresh
    token comes from the operating system's random source and is a
    parameter here. */
module Login {
  import opened Common
  import opened Token
  import opened Users

  /** What the account lookup decides before any token is touched. */
  datatype Verdict =
    | LookupFailed
    | InvalidCredentials
    | PasswordChangeRequired
    | Accepted(user: UserRow)

  /** The lookup and the `must_change_password` gate, shared by both
      handlers; a missing flag counts as false. */
  function Decide(rows: seq<UserRow>, username: string, password: string, hash: PasswordHasher, faults: Faults)
    : (v: Verdict)
    ensures v == LookupFailed <==> UserLookup in faults
    ensures v.Accepted? ==>
      && v.user in rows && v.user.username == username && Authenticates(v.user, password, hash)
      && !UnwrapOr(v.user.mustChangePassword, false)
    ensures v == PasswordChangeRequired ==>
      exists row :: row in rows && row.username == username && Authenticates(row, password, hash)
        && row.mustChangePassword == Some(true)
  {
    if UserLookup in faults then LookupFailed
    else match ByUsernameAndPassword(rows, username, password, hash)
      case None => InvalidCredentials
      case Some(user) =>
        if UnwrapOr(user.mustChangePassword, false) then PasswordChangeRequired else Accepted(user)
  }

  /** With unique usernames the verdict is determined by the stored account
      alone: no matching account gives `InvalidCredentials`, a matching
      account flagged for a password change gives `PasswordChangeRequired`,
      any other matching account is accepted. */
  lemma DecideExact(rows: seq<UserRow>, username: string, password: string, hash: PasswordHasher, faults: Faults,
                    row: UserRow)
    requires UniqueUsernames(rows) && UserLookup !in faults
    ensures (forall r :: r in rows && r.username == username ==> !Authenticates(r, password, hash)) ==>
      Decide(rows, username, password, hash, faults) == InvalidCredentials
    ensures row in rows && row.username == username && Authenticates(row, password, hash) ==>
      Decide(rows, username, password, hash, faults) ==
        if UnwrapOr(row.mustChangePassword, false) then PasswordChangeRequired else Accepted(row)
  {
    ByUsernameAndPasswordExact(rows, username, password, hash);
    if row in rows && row.username == username && Authenticates(row, password, hash) {
      ByUsernameUnique(rows, username, row);
    }
  }

  /** A handler's reply, the token table afterwards and the token it hands
      out. */
  datatype Outcome = Outcome(response: Response, pairs: set<UserToken>, issued: Option<string>)

  const LookupError := Response(InternalError500, "internal server error")
  const BadCredentials := Response(Unauthorized401, "invalid credentials")
  const ChangeRequired := Response(Forbidden403, "password change required")
  const LoggedIn := Response(Ok200, "login successful")

  /** `local_login::login`. */
  function LocalLoginOutcome(rows: seq<UserRow>, pairs: set<UserToken>, username: string, password: string,
                             hash: PasswordHasher, token: string, faults: Faults): (o: Outcome)
    ensures o.issued.Some? <==> o.response.status == Ok200
    ensures o.response.status != Panicked
    ensures o.response.status == Ok200 ==>
      exists row :: row in rows && row.username == username && Authenticates(row, password, hash)
        && o.issued == Some(token) && o.pairs == Rotate(pairs, row.id, token)
    ensures o.response.status != Ok200 ==>
      o.pairs == pairs || exists u :: o.pairs == WithoutUser(pairs, u)
  {
    match Decide(rows, username, password, hash, faults)
    case LookupFailed => Outcome(LookupError, pairs, None)
    case InvalidCredentials => Outcome(BadCredentials, pairs, None)
    case PasswordChangeRequired => Outcome(ChangeRequired, pairs, None)
    case Accepted(user) =>
      if TokenRemoveAll in faults then
        Outcome(Response(InternalError500, "database error on token invalidation"), pairs, None)
      else if TokenInsert in faults then
        Outcome(Response(InternalError500, "database error on token register"), WithoutUser(pairs, user.id), None)
      else
        Outcome(LoggedIn, Rotate(pairs, user.id, token), Some(token))
  }

  /** `login::login`: the same flow, with the token statements unwrapped. */
  function LegacyLoginOutcome(rows: seq<UserRow>, pairs: set<UserToken>, username: string, password: string,
                              hash: PasswordHasher, token: string, faults: Faults): (o: Outcome)
    ensures o.issued.Some? <==> o.response.status == Ok200
    ensures o.response.status == Panicked <==>
      Decide(rows, username, password, hash, faults).Accepted? && (TokenRemoveAll in faults || TokenInsert in faults)
    ensures o.response.status == Ok200 ==>
      exists row :: row in rows && row.username == username && Authenticates(row, password, hash)
        && o.issued == Some(token) && o.pairs == Rotate(pairs, row.id, token)
  {
    match Decide(rows, username, password, hash, faults)
    case LookupFailed => Outcome(LookupError, pairs, None)
    case InvalidCredentials => Outcome(BadCredentials, pairs, None)
    case PasswordChangeRequired => Outcome(ChangeRequired, pairs, None)
    case Accepted(user) =>
      if TokenRemoveAll in faults then Outcome(Response(Panicked, ""), pairs, None)
      else if TokenInsert in faults then Outcome(Response(Panicked, ""), WithoutUser(pairs, user.id), None)
      else Outcome(LoggedIn, Rotate(pairs, user.id, token), Some(token))
  }

  /** A failed lookup, bad credentials or a required password change leave
      the token table as it was and issue nothing, in both handlers. */
  lemma RejectedLoginTouchesNoToken(rows: seq<UserRow>, pairs: set<UserToken>, username: string, password: string,
                                    hash: PasswordHasher, token: string, faults: Faults)
    requires !Decide(rows, username, password, hash, faults).Accepted?
    ensures var o := LocalLoginOutcome(rows, pairs, username, password, hash, token, faults);
      o.pairs == pairs && o.issued.None? && o.response.status in {InternalError500, Unauthorized401, Forbidden403}
    ensures var o := LegacyLoginOutcome(rows, pairs, username, password, hash, token, faults);
      o.pairs == pairs && o.issued.None? && o.response.status in {InternalError500, Unauthorized401, Forbidden403}
  {
  }

  /** Unknown name or wrong password: 401 and no token touched. */
  lemma UnknownOrWrongPasswordIs401(rows: seq<UserRow>, pairs: set<UserToken>, username: string, password: string,
                                    hash: PasswordHasher, token: string, faults: Faults)
    requires UniqueUsernames(rows) && UserLookup !in faults
    requires forall r :: r in rows && r.username == username ==> !Authenticates(r, password, hash)
    ensures LocalLoginOutcome(rows, pairs, username, password, hash, token, faults) == Outcome(BadCredentials, pairs, None)
    ensures LegacyLoginOutcome(rows, pairs, username, password, hash, token, faults) == Outcome(BadCredentials, pairs, None)
  {
    DecideExact(rows, username, password, hash, faults, UserRow(0, [], None, None, None, None));
  }

  /** An authenticated account flagged `Some(true)` gets 403 and no token;
      one whose flag is absent or false is logged in when the token
      statements succeed. */
  lemma MustChangeGate(rows: seq<UserRow>, pairs: set<UserToken>, username: string, password: string,
                       hash: PasswordHasher, token: string, faults: Faults, row: UserRow)
    requires UniqueUsernames(rows) && UserLookup !in faults
    requires row in rows && row.username == username && Authenticates(row, password, hash)
    ensures row.mustChangePassword == Some(true) ==>
      && LocalLoginOutcome(rows, pairs, username, password, hash, token, faults) == Outcome(ChangeRequired, pairs, None)
      && LegacyLoginOutcome(rows, pairs, username, password, hash, token, faults) == Outcome(ChangeRequired, pairs, None)
    ensures row.mustChangePassword != Some(true) && TokenRemoveAll !in faults && TokenInsert !in faults ==>
      && LocalLoginOutcome(rows, pairs, username, password, hash, token, faults).response == LoggedIn
      && LegacyLoginOutcome(rows, pairs, username, password, hash, token, faults).response == LoggedIn
  {
    DecideExact(rows, username, password, hash, faults, row);
  }

  /** A successful login leaves the returned token as the user's only one,
      leaves every other user's tokens alone, and keeps the
      one-session-per-user rule. */
  lemma SuccessfulLoginRotates(rows: seq<UserRow>, pairs: set<UserToken>, username: string, password: string,
                               hash: PasswordHasher, token: string, faults: Faults, other: Int32)
    requires LocalLoginOutcome(rows, pairs, username, password, hash, token, faults).response.status == Ok200
    ensures var o := LocalLoginOutcome(rows, pairs, username, password, hash, token, faults);
      var u := Decide(rows, username, password, hash, faults).user;
      && u.username == username
      && o.issued == Some(token)
      && TokensOf(o.pairs, u.id) == {token}
      && (other != u.id ==> TokensOf(o.pairs, other) == TokensOf(pairs, other))
      && (SingleSession(pairs) ==> SingleSession(o.pairs))
      && LegacyLoginOutcome(rows, pairs, username, password, hash, token, faults) == o
  {
    var u := Decide(rows, username, password, hash, faults).user;
    RotateLeavesOnlyNewToken(pairs, u.id, token, other);
    if SingleSession(pairs) {
      RotateKeepsSingleSession(pairs, u.id, token);
    }
  }

  /** Whatever happens, other users' tokens are untouched by a login. */
  lemma LoginLeavesOtherUsers(rows: seq<UserRow>, pairs: set<UserToken>, username: string, password: string,
                              hash: PasswordHasher, token: string, faults: Faults, other: Int32)
    requires forall r :: r in rows && r.username == username ==> r.id != other
    ensures TokensOf(LocalLoginOutcome(rows, pairs, username, password, hash, token, faults).pairs, other)
      == TokensOf(pairs, other)
    ensures TokensOf(LegacyLoginOutcome(rows, pairs, username, password, hash, token, faults).pairs, other)
      == TokensOf(pairs, other)
  {
    var v := Decide(rows, username, password, hash, faults);
    if v.Accepted? {
      RemoveAllOnlyThatUser(pairs, v.user.id, other);
      RotateLeavesOnlyNewToken(pairs, v.user.id, token, other);
    }
  }

  /** `local_login::login` against the tables. */
  method LocalLogin(users: UserTable, tokens: TokenStore, username: string, password: string,
                    hash: PasswordHasher, token: string, faults: Faults)
    returns (response: Response, issued: Option<string>)
    modifies tokens
    ensures Outcome(response, tokens.pairs, issued)
      == LocalLoginOutcome(users.rows, old(tokens.pairs), username, password, hash, token, faults)
  {
    var verdict := Decide(users.rows, username, password, hash, faults);
    match verdict
    case LookupFailed => return LookupError, None;
    case InvalidCredentials => return BadCredentials, None;
    case PasswordChangeRequired => return ChangeRequired, None;
    case Accepted(user) =>
      if TokenRemoveAll in faults {
        return Response(InternalError500, "database error on token invalidation"), None;
      }
      tokens.RemoveAll(user.id);
      if TokenInsert in faults {
        return Response(InternalError500, "database error on token register"), None;
      }
      tokens.Insert(UserToken(user.id, token));
      return LoggedIn, Some(token);
  }

  /** `login::login` against the tables; a failing token statement panics
      with the table as that statement left it. */
  method LegacyLogin(users: UserTable, tokens: TokenStore, username: string, password: string,
                     hash: PasswordHasher, token: string, faults: Faults)
    returns (response: Response, issued: Option<string>)
    modifies tokens
    ensures Outcome(response, tokens.pairs, issued)
      == LegacyLoginOutcome(users.rows, old(tokens.pairs), username, password, hash, token, faults)
  {
    var verdict := Decide(users.rows, username, password, hash, faults);
    match verdict
    case LookupFailed => return LookupError, None;
    case InvalidCredentials => return BadCredentials, None;
    case PasswordChangeRequired => return ChangeRequired, None;
    case Accepted(user) =>
      if TokenRemoveAll in faults {
        return Response(Panicked, ""), None;
      }
      tokens.RemoveAll(user.id);
      if TokenInsert in faults {
        return Response(Panicked, ""), None;
      }
      tokens.Insert(UserToken(user.id, token));
      return LoggedIn, Some(token);
  }
}
