/**
 The rows and tokens of the refresh-token protocol (camp44/models/refresh_token.py and
 camp44/models/token.py), and the predicates by which a presented token is judged.
 Times are whole seconds; identifiers that the program draws at random are plain values,
 and "fresh" is a condition on the step that draws them.
 */
module TokenModel {
  type UserId = nat
  type FamilyId = nat
  type RawToken = string

  /** SHA-256 of a raw token, idealised as an injective constructor. */
  datatype TokenHash = Sha256(raw: RawToken)

  datatype User = User(active: bool, version: int)

  datatype Row = Row(user: UserId, family: FamilyId, version: int, revoked: bool, expires: int)

  type Users = map<UserId, User>
  type Rows = map<TokenHash, Row>

  datatype Settings = Settings(accessMinutes: int, refreshDays: int)

  function AccessTtl(cfg: Settings): int {
    cfg.accessMinutes * 60
  }

  function RefreshTtl(cfg: Settings): int {
    cfg.refreshDays * 86400
  }

  /** The claims of a signed access token. */
  datatype AccessToken = AccessToken(sub: UserId, tv: int, exp: int)

  /** The answers of get_current_user and get_current_active_user, in the order they are given. */
  datatype Verdict = NotAuthenticated | UserNotFound | TokenRevoked | InactiveUser | Accepted(user: UserId)

  /** `genuine` stands for a signature made with the server's key. */
  function Judge(users: Users, now: int, access: AccessToken, genuine: bool): Verdict {
    if !genuine || access.exp < now then NotAuthenticated
    else if access.sub !in users then UserNotFound
    else if access.tv != users[access.sub].version then TokenRevoked
    else if !users[access.sub].active then InactiveUser
    else Accepted(access.sub)
  }

  /** A token is accepted for a user exactly when the server signed it, it has not expired, and its
      subject is that user, who exists, is active and has the token's version. */
  lemma AcceptedIff(users: Users, now: int, access: AccessToken, genuine: bool, u: UserId)
    ensures Judge(users, now, access, genuine) == Accepted(u)
            <==> && genuine && now <= access.exp
                 && u == access.sub && u in users && users[u].active && users[u].version == access.tv
  {}

  /** Which of the four refusals is given, in the order of the checks. */
  lemma RefusedIff(users: Users, now: int, access: AccessToken, genuine: bool)
    ensures var verdict := Judge(users, now, access, genuine);
            var valid := genuine && now <= access.exp;
            && (verdict == NotAuthenticated <==> !valid)
            && (verdict == UserNotFound <==> valid && access.sub !in users)
            && (verdict == TokenRevoked <==>
                  valid && access.sub in users && access.tv != users[access.sub].version)
            && (verdict == InactiveUser <==>
                  valid && access.sub in users && access.tv == users[access.sub].version && !users[access.sub].active)
  {}

  predicate Live(rows: Rows, h: TokenHash) {
    h in rows && !rows[h].revoked
  }

  function LiveIn(rows: Rows, f: FamilyId): set<TokenHash> {
    set h | h in rows && rows[h].family == f && !rows[h].revoked
  }

  function LiveOfUser(rows: Rows, u: UserId): set<TokenHash> {
    set h | h in rows && rows[h].user == u && !rows[h].revoked
  }

  /** A refresh token that /auth/refresh would exchange if it were presented alone now. */
  predicate Refreshable(users: Users, rows: Rows, now: int, h: TokenHash) {
    && Live(rows, h)
    && now <= rows[h].expires
    && rows[h].user in users
    && users[rows[h].user].active
    && users[rows[h].user].version == rows[h].version
  }
}
