/** The refresh-token operations as whole transactions, one after another, on the committed rows. */
module RefreshTransactions {
  import opened Wrappers
  import opened TokenModel

  datatype TokenPair = TokenPair(access: AccessToken, refresh: RawToken, expiresIn: int)

  function Revoked(rows: Rows, hs: set<TokenHash>): Rows {
    map h | h in rows :: if h in hs then rows[h].(revoked := true) else rows[h]
  }

  function Expired(rows: Rows, now: int): set<TokenHash> {
    set h | h in rows && rows[h].expires < now
  }

  function NewRow(cfg: Settings, users: Users, now: int, u: UserId, f: FamilyId): Row
    requires u in users
  {
    Row(u, f, users[u].version, false, now + RefreshTtl(cfg))
  }

  function Signed(cfg: Settings, users: Users, now: int, u: UserId): AccessToken
    requires u in users
  {
    AccessToken(u, users[u].version, now + AccessTtl(cfg))
  }

  /** The rows a refresh leaves, for a token presented when the clock shows `now`. */
  function RefreshedRows(cfg: Settings, users: Users, rows: Rows, now: int, raw: RawToken, next: RawToken): Rows {
    var h := Sha256(raw);
    if h !in rows then rows
    else if rows[h].revoked then Revoked(rows, LiveIn(rows, rows[h].family))
    else
      var row := rows[h];
      var consumed := Revoked(rows, {h});
      if row.expires < now || row.user !in users || !users[row.user].active then consumed
      else if row.version != users[row.user].version then Revoked(consumed, LiveIn(consumed, row.family))
      else consumed[Sha256(next) := NewRow(cfg, users, now, row.user, row.family)]
  }

  /** The reply: a token pair, or nothing for a 401. */
  function RefreshReply(cfg: Settings, users: Users, rows: Rows, now: int, raw: RawToken, next: RawToken)
    : Option<TokenPair>
  {
    var h := Sha256(raw);
    if h in rows && !rows[h].revoked && rows[h].expires >= now
       && rows[h].user in users && users[rows[h].user].active
       && rows[h].version == users[rows[h].user].version
    then Some(TokenPair(Signed(cfg, users, now, rows[h].user), next, AccessTtl(cfg)))
    else None
  }

  ghost predicate OneLivePerFamily(rows: Rows) {
    forall h, k | Live(rows, h) && Live(rows, k) && rows[h].family == rows[k].family :: h == k
  }

  /** After a refresh with a known token its family's unrevoked rows are exactly the new token on
      success and none on any 401, and no other family is touched. */
  lemma RefreshRotatesOrEmpties(cfg: Settings, users: Users, rows: Rows, now: int, raw: RawToken, next: RawToken)
    requires OneLivePerFamily(rows)
    requires Sha256(raw) in rows && Sha256(next) !in rows
    ensures var f := rows[Sha256(raw)].family;
            var rows' := RefreshedRows(cfg, users, rows, now, raw, next);
            var reply := RefreshReply(cfg, users, rows, now, raw, next);
            && LiveIn(rows', f) == (if reply.Some? then {Sha256(next)} else {})
            && (reply.Some? <==> Refreshable(users, rows, now, Sha256(raw)))
            && (reply.Some? && cfg.refreshDays >= 0 && cfg.accessMinutes >= 0 ==>
                  && Refreshable(users, rows', now, Sha256(reply.value.refresh))
                  && Judge(users, now, reply.value.access, true) == Accepted(rows[Sha256(raw)].user))
            && (reply.Some? ==>
                  var u := rows[Sha256(raw)].user;
                  && reply.value.refresh == next
                  && reply.value.expiresIn == cfg.accessMinutes * 60
                  && reply.value.access == AccessToken(u, users[u].version, now + cfg.accessMinutes * 60)
                  && rows'[Sha256(next)] == Row(u, f, users[u].version, false, now + cfg.refreshDays * 86400))
            && (forall h | h in rows :: h in rows' && rows'[h] == rows[h].(revoked := rows'[h].revoked))
            && rows'.Keys == rows.Keys + (if reply.Some? then {Sha256(next)} else {})
            && (forall h | h in rows && rows[h].family != f :: rows'[h] == rows[h])
            && OneLivePerFamily(rows')
  {
    var f := rows[Sha256(raw)].family;
    var rows' := RefreshedRows(cfg, users, rows, now, raw, next);
    forall h | h in LiveIn(rows', f) ensures h == Sha256(next) && RefreshReply(cfg, users, rows, now, raw, next).Some? {
      if h != Sha256(next) && Live(rows, Sha256(raw)) { assert Live(rows, h); }
    }
  }

  /** An unknown token changes nothing and is refused. */
  lemma UnknownTokenIsRefused(cfg: Settings, users: Users, rows: Rows, now: int, raw: RawToken, next: RawToken)
    requires Sha256(raw) !in rows
    ensures RefreshedRows(cfg, users, rows, now, raw, next) == rows
    ensures RefreshReply(cfg, users, rows, now, raw, next) == None
  {}
}
