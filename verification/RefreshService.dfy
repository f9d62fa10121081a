/**
 The refresh-token table as the program updates it: camp44/crud/refresh_token.py,
 camp44/core/auth_tokens.py and the refresh and logout handlers of auth.py, one transaction at a
 time. Random values and clock readings are parameters; a transaction reads the clock once.
 */
module RefreshService {
  import opened Wrappers
  import opened TokenModel
  import opened RefreshTransactions

  class RefreshService {
    const cfg: Settings
    var users: Users
    var rows: Rows
    /** Every family id ever drawn. */
    ghost var families: set<FamilyId>

    ghost predicate Valid()
      reads this
    {
      OneLivePerFamily(rows) && forall h | h in rows :: rows[h].family in families
    }

    constructor (cfg: Settings, users: Users)
      ensures this.cfg == cfg && this.users == users && rows == map[] && families == {} && Valid()
    {
      this.cfg := cfg;
      this.users := users;
      rows := map[];
      families := {};
    }

    /** The rest of the program creates users and changes their activity and version. */
    method PutUser(u: UserId, user: User)
      modifies this`users
      ensures users == old(users)[u := user]
      ensures old(Valid()) ==> Valid()
    {
      users := users[u := user];
    }

    /** Inserts a row for a new raw token; `anew` is the family drawn when none is given. */
    method Create(user: UserId, version: int, family: Option<FamilyId>, raw: RawToken, anew: FamilyId, now: int)
      returns (row: Row)
      requires Sha256(raw) !in rows
      modifies this`rows
      ensures row.user == user && row.version == version && !row.revoked
      ensures row.expires == now + cfg.refreshDays * 86400
      ensures row.family == if family.Some? then family.value else anew
      ensures rows == old(rows)[Sha256(raw) := row]
    {
      var f := if family.Some? then family.value else anew;
      row := Row(user, f, version, false, now + RefreshTtl(cfg));
      rows := rows[Sha256(raw) := row];
    }

    method GetByToken(raw: RawToken) returns (row: Option<Row>)
      ensures row == if Sha256(raw) in rows then Some(rows[Sha256(raw)]) else None
    {
      row := if Sha256(raw) in rows then Some(rows[Sha256(raw)]) else None;
    }

    /** Wins exactly when the token was there and unrevoked, and then it is revoked. */
    method Consume(raw: RawToken) returns (won: Option<Row>)
      modifies this`rows
      ensures old(Valid()) ==> Valid()
      ensures won.Some? <==> old(Live(rows, Sha256(raw)))
      ensures won.Some? ==> won.value == old(rows)[Sha256(raw)].(revoked := true)
      ensures rows == Revoked(old(rows), if won.Some? then {Sha256(raw)} else {})
      ensures rows == if won.Some? then old(rows)[Sha256(raw) := won.value] else old(rows)
    {
      var h := Sha256(raw);
      won := None;
      if h in rows && !rows[h].revoked {
        rows := rows[h := rows[h].(revoked := true)];
        won := Some(rows[h]);
      }
    }

    method RevokeAll(tokens: set<TokenHash>)
      requires tokens <= rows.Keys
      modifies this`rows
      ensures old(Valid()) ==> Valid()
      ensures rows == Revoked(old(rows), tokens)
    {
      var todo := tokens;
      while todo != {}
        invariant todo <= tokens
        invariant rows == Revoked(old(rows), tokens - todo)
        decreases todo
      {
        var h :| h in todo;
        rows := rows[h := rows[h].(revoked := true)];
        todo := todo - {h};
      }
    }

    /** Afterwards the family has no unrevoked row, and no other row has changed. */
    method RevokeFamily(family: FamilyId) returns (count: nat)
      modifies this`rows
      ensures old(Valid()) ==> Valid()
      ensures count == |LiveIn(old(rows), family)|
      ensures rows == Revoked(old(rows), LiveIn(old(rows), family))
      ensures LiveIn(rows, family) == {}
      ensures rows.Keys == old(rows).Keys
      ensures forall h | h in rows ::
                rows[h] == old(rows)[h].(revoked := old(rows)[h].revoked || old(rows)[h].family == family)
    {
      var tokens := set h | h in rows && rows[h].family == family && !rows[h].revoked;
      RevokeAll(tokens);
      count := |tokens|;
    }

    method RevokeUserTokens(user: UserId) returns (count: nat)
      modifies this`rows
      ensures old(Valid()) ==> Valid()
      ensures count == |LiveOfUser(old(rows), user)|
      ensures rows == Revoked(old(rows), LiveOfUser(old(rows), user))
      ensures LiveOfUser(rows, user) == {}
      ensures rows.Keys == old(rows).Keys
      ensures forall h | h in rows ::
                rows[h] == old(rows)[h].(revoked := old(rows)[h].revoked || old(rows)[h].user == user)
    {
      var tokens := set h | h in rows && rows[h].user == user && !rows[h].revoked;
      RevokeAll(tokens);
      count := |tokens|;
    }

    method CleanupExpired(now: int) returns (count: nat)
      modifies this`rows
      ensures old(Valid()) ==> Valid()
      ensures count == |Expired(old(rows), now)|
      ensures rows == old(rows) - Expired(old(rows), now)
      ensures forall h | h in old(rows) :: h in rows <==> now <= old(rows)[h].expires
      ensures forall h | h in rows :: h in old(rows) && rows[h] == old(rows)[h]
    {
      var expired := set h | h in rows && rows[h].expires < now;
      var todo := expired;
      while todo != {}
        invariant todo <= expired
        invariant rows == old(rows) - (expired - todo)
        decreases todo
      {
        var h :| h in todo;
        rows := rows - {h};
        todo := todo - {h};
      }
      count := |expired|;
    }

    method CreateTokenPair(user: UserId, family: Option<FamilyId>, raw: RawToken, anew: FamilyId, now: int)
      returns (pair: TokenPair)
      requires user in users && Sha256(raw) !in rows
      modifies this`rows
      ensures pair.access == AccessToken(user, users[user].version, now + cfg.accessMinutes * 60)
      ensures pair.refresh == raw && pair.expiresIn == cfg.accessMinutes * 60
      ensures var f := if family.Some? then family.value else anew;
              rows == old(rows)[Sha256(raw) := NewRow(cfg, users, now, user, f)]
    {
      var access := AccessToken(user, users[user].version, now + cfg.accessMinutes * 60);
      var _ := Create(user, users[user].version, family, raw, anew, now);
      pair := TokenPair(access, raw, cfg.accessMinutes * 60);
    }

    /** The login of a user starts a new family. */
    method Login(user: UserId, raw: RawToken, anew: FamilyId, now: int) returns (pair: TokenPair)
      requires Valid() && user in users && Sha256(raw) !in rows && anew !in families
      modifies this`rows, this`families
      ensures Valid() && families == old(families) + {anew}
      ensures pair.access == AccessToken(user, users[user].version, now + cfg.accessMinutes * 60)
      ensures pair.refresh == raw && pair.expiresIn == cfg.accessMinutes * 60
      ensures rows == old(rows)[Sha256(raw) := NewRow(cfg, users, now, user, anew)]
      ensures LiveIn(rows, anew) == {Sha256(raw)}
    {
      pair := CreateTokenPair(user, None, raw, anew, now);
      families := families + {anew};
    }

    /** /auth/refresh: the family of a known token is left with the new token alone, or with none. */
    method Refresh(raw: RawToken, next: RawToken, now: int) returns (reply: Option<TokenPair>)
      requires Valid() && Sha256(next) !in rows
      modifies this`rows
      ensures Valid()
      ensures rows == RefreshedRows(cfg, users, old(rows), now, raw, next)
      ensures reply == RefreshReply(cfg, users, old(rows), now, raw, next)
      ensures Sha256(raw) in old(rows) ==>
                LiveIn(rows, old(rows)[Sha256(raw)].family) == if reply.Some? then {Sha256(next)} else {}
      ensures reply.Some? <==> old(Refreshable(users, rows, now, Sha256(raw)))
      ensures reply.Some? ==>
                var u := old(rows)[Sha256(raw)].user;
                && reply.value.refresh == next && reply.value.expiresIn == cfg.accessMinutes * 60
                && u in users
                && reply.value.access == AccessToken(u, users[u].version, now + cfg.accessMinutes * 60)
      ensures Sha256(raw) !in old(rows) ==> reply == None && rows == old(rows)
    {
      if Sha256(raw) in rows { RefreshRotatesOrEmpties(cfg, users, rows, now, raw, next); }
      else { UnknownTokenIsRefused(cfg, users, rows, now, raw, next); }
      reply := Exchange(raw, next, now);
    }

    /** The branches of the handler. */
    method Exchange(raw: RawToken, next: RawToken, now: int) returns (reply: Option<TokenPair>)
      requires Sha256(next) !in rows
      modifies this`rows
      ensures rows == RefreshedRows(cfg, users, old(rows), now, raw, next)
      ensures reply == RefreshReply(cfg, users, old(rows), now, raw, next)
    {
      var stored := Consume(raw);
      if stored == None {
        var existing := GetByToken(raw);
        if existing.Some? {
          var _ := RevokeFamily(existing.value.family);
        }
        return None;
      }
      var row := stored.value;
      if row.expires < now {
        return None;
      }
      if row.user !in users || !users[row.user].active {
        return None;
      }
      if row.version != users[row.user].version {
        var _ := RevokeFamily(row.family);
        return None;
      }
      var pair := CreateTokenPair(row.user, Some(row.family), next, 0, now);
      reply := Some(pair);
    }

    /** /auth/logout. */
    method Logout(raw: RawToken)
      modifies this`rows
      ensures old(Valid()) ==> Valid()
      ensures rows == Revoked(old(rows), {Sha256(raw)})
      ensures rows.Keys == old(rows).Keys
      ensures forall h | h in rows ::
                rows[h] == old(rows)[h].(revoked := old(rows)[h].revoked || h == Sha256(raw))
    {
      var stored := GetByToken(raw);
      if stored.Some? && !stored.value.revoked {
        rows := rows[Sha256(raw) := stored.value.(revoked := true)];
      }
    }

    /** The part of a user's deletion that concerns tokens: the rows go with the user. */
    method DeleteUser(u: UserId)
      modifies this`users, this`rows
      ensures old(Valid()) ==> Valid()
      ensures u !in users
      ensures forall v | v != u :: (v in users <==> v in old(users)) && (v in users ==> users[v] == old(users)[v])
      ensures forall h | h in rows :: rows[h].user != u
      ensures forall h | h in old(rows) && old(rows)[h].user != u :: h in rows
      ensures forall h | h in rows :: h in old(rows) && rows[h] == old(rows)[h]
    {
      rows := map h | h in rows && rows[h].user != u :: rows[h];
      users := users - {u};
    }
  }
}
