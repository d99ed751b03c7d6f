/** The `user_tokens` table (src/db/token.rs): a set of (user id, token)
    pairs. A user is meant to hold one active token at a time; the table does
    not enforce it, the login handlers do by removing every token of the user
    before inserting the new one. */
module Token {
  import opened Common

  /** A row of `user_tokens`; `UserToken::new` is this constructor. */
  datatype UserToken = UserToken(userId: Int32, token: string)

  /** The tokens `userId` holds. */
  function TokensOf(pairs: set<UserToken>, userId: Int32): set<string> {
    set p | p in pairs && p.userId == userId :: p.token
  }

  /** `DELETE FROM user_tokens WHERE user_id = ...`. */
  function WithoutUser(pairs: set<UserToken>, userId: Int32): (r: set<UserToken>)
    ensures r <= pairs
    ensures forall p :: p in r <==> p in pairs && p.userId != userId
  {
    set p | p in pairs && p.userId != userId
  }

  /** What a successful login does to the table: `remove_all`, then `insert`. */
  function Rotate(pairs: set<UserToken>, userId: Int32, token: string): set<UserToken> {
    WithoutUser(pairs, userId) + {UserToken(userId, token)}
  }

  /** At most one token per user: the rule the login handlers keep. */
  ghost predicate SingleSession(pairs: set<UserToken>) {
    forall p, q :: p in pairs && q in pairs && p.userId == q.userId ==> p == q
  }

  /** `insert` alone adds the token and keeps the user's earlier ones. */
  lemma InsertKeepsEarlierTokens(pairs: set<UserToken>, userId: Int32, token: string)
    ensures TokensOf(pairs + {UserToken(userId, token)}, userId) == TokensOf(pairs, userId) + {token}
  {
    var after := pairs + {UserToken(userId, token)};
    assert UserToken(userId, token) in after;
    forall s | s in TokensOf(pairs, userId) ensures s in TokensOf(after, userId) {
      var p :| p in pairs && p.userId == userId && p.token == s;
      assert p in after;
    }
  }

  /** `remove_all` empties the user's tokens and leaves every other user's. */
  lemma RemoveAllOnlyThatUser(pairs: set<UserToken>, userId: Int32, other: Int32)
    ensures TokensOf(WithoutUser(pairs, userId), userId) == {}
    ensures other != userId ==> TokensOf(WithoutUser(pairs, userId), other) == TokensOf(pairs, other)
  {
    var after := WithoutUser(pairs, userId);
    if other != userId {
      forall s | s in TokensOf(pairs, other) ensures s in TokensOf(after, other) {
        var p :| p in pairs && p.userId == other && p.token == s;
        assert p in after;
      }
    }
  }

  /** After a rotation the new token is the user's only token, and nobody
      else's tokens changed. */
  lemma RotateLeavesOnlyNewToken(pairs: set<UserToken>, userId: Int32, token: string, other: Int32)
    ensures TokensOf(Rotate(pairs, userId, token), userId) == {token}
    ensures other != userId ==> TokensOf(Rotate(pairs, userId, token), other) == TokensOf(pairs, other)
  {
    var after := Rotate(pairs, userId, token);
    assert UserToken(userId, token) in after;
    if other != userId {
      forall s | s in TokensOf(pairs, other) ensures s in TokensOf(after, other) {
        var p :| p in pairs && p.userId == other && p.token == s;
        assert p in after;
      }
    }
  }

  /** Rotation keeps the one-token-per-user rule. */
  lemma RotateKeepsSingleSession(pairs: set<UserToken>, userId: Int32, token: string)
    requires SingleSession(pairs)
    ensures SingleSession(Rotate(pairs, userId, token))
  {
  }

  /** `r` is a correct answer to `get_user_by_token(token)`: a row holding
      the token, or nothing when no row holds it. */
  ghost predicate AnswersLookup(pairs: set<UserToken>, token: string, r: Option<UserToken>) {
    && (r.Some? ==> r.value in pairs && r.value.token == token)
    && (r.None? <==> forall p :: p in pairs ==> p.token != token)
  }

  class TokenStore {
    var pairs: set<UserToken>

    constructor (initial: set<UserToken>)
      ensures pairs == initial
    {
      pairs := initial;
    }

    /** `insert`. */
    method Insert(t: UserToken)
      modifies this
      ensures pairs == old(pairs) + {t}
    {
      pairs := pairs + {t};
    }

    /** `remove_all`. */
    method RemoveAll(userId: Int32)
      modifies this
      ensures pairs == WithoutUser(old(pairs), userId)
    {
      pairs := WithoutUser(pairs, userId);
    }

    /** `get_user_by_token`: the row holding `token`, if there is one. */
    method GetUserByToken(token: string) returns (r: Option<UserToken>)
      ensures r.Some? ==> r.value in pairs && r.value.token == token
      ensures r.None? <==> forall p :: p in pairs ==> p.token != token
      ensures AnswersLookup(pairs, token, r)
    {
      if p :| p in pairs && p.token == token {
        r := Some(p);
      } else {
        r := None;
      }
    }
  }
}
