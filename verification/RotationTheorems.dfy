/** The promises of the rotation protocol, over every run of any number of concurrent requests. */
module RotationTheorems {
  import opened Wrappers
  import opened TokenModel
  import opened RotationSteps
  import opened RotationInvariant

  ghost predicate Valid(cfg: Settings, s: State, run: seq<Action>)
    decreases |run|
  {
    run == [] || (Enabled(s, run[0]) && Valid(cfg, Next(cfg, s, run[0]), run[1..]))
  }

  ghost function Run(cfg: Settings, s: State, run: seq<Action>): State
    requires Valid(cfg, s, run)
    decreases |run|
  {
    if run == [] then s else Run(cfg, Next(cfg, s, run[0]), run[1..])
  }

  lemma Prepend(cfg: Settings, s: State, a: Action, rest: seq<Action>)
    requires Enabled(s, a) && Valid(cfg, Next(cfg, s, a), rest)
    ensures Valid(cfg, s, [a] + rest) && Run(cfg, s, [a] + rest) == Run(cfg, Next(cfg, s, a), rest)
  {
    assert ([a] + rest)[1..] == rest;
  }

  lemma {:induction false} RunAppend(cfg: Settings, s: State, first: seq<Action>, second: seq<Action>)
    requires Valid(cfg, s, first) && Valid(cfg, Run(cfg, s, first), second)
    ensures Valid(cfg, s, first + second)
    ensures Run(cfg, s, first + second) == Run(cfg, Run(cfg, s, first), second)
    decreases |first|
  {
    if first == [] {
      assert first + second == second;
    } else {
      RunAppend(cfg, Next(cfg, s, first[0]), first[1..], second);
      assert (first + second)[1..] == first[1..] + second;
    }
  }

  // ---------------------------------------------------------------------------------------
  // What a later state keeps of an earlier one.
  // ---------------------------------------------------------------------------------------

  function GrantsIn(st: Store, f: FamilyId): set<Grant> {
    set g | g in st.grants && g.family == f
  }

  /** The transaction has consumed a token of the family and has not ended. */
  predicate Consuming(tx: Txn, f: FamilyId) {
    match tx.phase
    case Consumed(_, row) => row.family == f
    case Unexpired(_, row) => row.family == f
    case Ready(_, _, lineage, _) => lineage == Some(f)
    case Minted(_, _, row, parent) => row.family == f && parent.Some?
    case _ => false
  }

  /** A family that was issued and has neither an unrevoked row nor a consumer in flight. */
  ghost predicate Dead(s: State, f: FamilyId) {
    && f in s.store.sessions
    && LiveIn(s.store.rows, f) == {}
    && forall t | t in s.txns :: !Consuming(s.txns[t], f)
  }

  /** A row once issued never comes back, never changes hands and never becomes unrevoked. */
  ghost predicate RowsFade(st: Store, st': Store) {
    forall h | h in st'.rows && h in st.issued ::
      h in st.rows && st'.rows[h] == st.rows[h].(revoked := st'.rows[h].revoked)
      && (st.rows[h].revoked ==> st'.rows[h].revoked)
  }

  /** A row goes only when it has expired or its user is gone. */
  ghost predicate RowsPersist(st: Store, st': Store) {
    forall h | h in st.rows && h !in st'.rows :: st.rows[h].expires < st'.now || st.rows[h].user !in st'.users
  }

  ghost predicate SessionsStay(st: Store, st': Store) {
    forall f | f in st.sessions ::
      && f in st'.sessions
      && st'.sessions[f].user == st.sessions[f].user
      && st'.sessions[f].version == st.sessions[f].version
  }

  ghost predicate UsersAdvance(st: Store, st': Store) {
    && st.known <= st'.known
    && forall u | u in st'.users && u in st.known ::
         u in st.users && st.users[u].version <= st'.users[u].version
  }

  ghost predicate DeadStays(s: State, s': State) {
    forall f | Dead(s, f) :: Dead(s', f) && GrantsIn(s'.store, f) == GrantsIn(s.store, f)
  }

  ghost predicate Later(s: State, s': State) {
    && s.store.now <= s'.store.now
    && s.store.issued <= s'.store.issued
    && s.store.log <= s'.store.log
    && s.store.grants <= s'.store.grants
    && RowsFade(s.store, s'.store)
    && RowsPersist(s.store, s'.store)
    && SessionsStay(s.store, s'.store)
    && UsersAdvance(s.store, s'.store)
    && DeadStays(s, s')
  }

  lemma CommitKeepsDead(cfg: Settings, s: State, t: TxnId)
    requires Inv(cfg, s) && Enabled(s, Commit(t))
    ensures DeadStays(s, Next(cfg, s, Commit(t)))
  {
    var s' := Next(cfg, s, Commit(t));
    var tx := s.txns[t];
    assert TxnOk(cfg, s.store, tx);
    forall f | Dead(s, f) ensures Dead(s', f) && GrantsIn(s'.store, f) == GrantsIn(s.store, f) {
      assert !Consuming(tx, f);
      if tx.phase.Minted? { assert tx.phase.row.family != f; }
      forall h | h in LiveIn(s'.store.rows, f) ensures h in LiveIn(s.store.rows, f) {}
    }
  }

  lemma CommitKeepsRowsAsTheyWere(cfg: Settings, s: State, t: TxnId)
    requires Inv(cfg, s) && Enabled(s, Commit(t))
    ensures RowsFade(s.store, Next(cfg, s, Commit(t)).store) && RowsPersist(s.store, Next(cfg, s, Commit(t)).store)
  {
    assert TxnOk(cfg, s.store, s.txns[t]);
  }

  lemma CommitIsLater(cfg: Settings, s: State, t: TxnId)
    requires Inv(cfg, s) && Enabled(s, Commit(t))
    ensures Later(s, Next(cfg, s, Commit(t)))
  {
    CommitKeepsDead(cfg, s, t);
    CommitKeepsRowsAsTheyWere(cfg, s, t);
    assert TxnOk(cfg, s.store, s.txns[t]);
  }

  /** Only consuming an unrevoked token of the family makes a transaction its consumer. */
  lemma ConsumersComeFromLiveTokens(cfg: Settings, s: State, a: Action, f: FamilyId)
    requires Inv(cfg, s) && Enabled(s, a) && Next(cfg, s, a).store == s.store
    requires a.LookUp? || a.CheckExpiry? || a.CheckUser? || a.SelectFamily? || a.WriteRevoke? || a.WriteDelete?
             || a.Mint?
    requires Consuming(Next(cfg, s, a).txns[a.t], f)
    ensures Consuming(s.txns[a.t], f)
  {
    assert TxnOk(cfg, s.store, s.txns[a.t]);
  }

  lemma ConsumeKeepsDead(cfg: Settings, s: State, a: Action)
    requires Inv(cfg, s) && Enabled(s, a) && a.Consume?
    ensures DeadStays(s, Next(cfg, s, a))
  {
    var s' := Next(cfg, s, a);
    forall f | Dead(s, f) ensures Dead(s', f) {
      forall t | t in s'.txns ensures !Consuming(s'.txns[t], f) {
        if t in s.txns { assert !Consuming(s.txns[t], f); }
        else if Live(s.store.rows, Sha256(a.raw)) { assert Sha256(a.raw) !in LiveIn(s.store.rows, f); }
      }
    }
  }

  lemma OpenTxnKeepsDead(cfg: Settings, s: State, a: Action)
    requires Inv(cfg, s) && Enabled(s, a) && Next(cfg, s, a).store == s.store
    requires a.LookUp? || a.CheckExpiry? || a.CheckUser? || a.SelectFamily? || a.WriteRevoke? || a.WriteDelete?
             || a.Mint?
    ensures DeadStays(s, Next(cfg, s, a))
  {
    var s' := Next(cfg, s, a);
    forall f | Dead(s, f) ensures Dead(s', f) {
      forall t | t in s'.txns ensures !Consuming(s'.txns[t], f) {
        assert !Consuming(s.txns[t], f);
        if t == a.t && Consuming(s'.txns[t], f) { ConsumersComeFromLiveTokens(cfg, s, a, f); }
      }
    }
  }

  /** Beginning anything but a consume, and rolling back, make no consumer. */
  lemma BeginOrRollbackKeepsDead(cfg: Settings, s: State, a: Action)
    requires Enabled(s, a)
    requires a.Rollback? || a.BeginLogin? || a.BeginLogout? || a.BeginRevokeUser? || a.BeginCleanup?
    ensures DeadStays(s, Next(cfg, s, a))
  {}

  lemma EnvironmentIsLater(cfg: Settings, s: State, a: Action)
    requires Inv(cfg, s) && Enabled(s, a)
    requires a.Tick? || a.AddUser? || a.SetActive? || a.BumpVersion? || a.DeleteUser?
    ensures Later(s, Next(cfg, s, a))
  {
    var s' := Next(cfg, s, a);
    forall f | Dead(s, f) ensures Dead(s', f) && GrantsIn(s'.store, f) == GrantsIn(s.store, f) {
      forall h | h in LiveIn(s'.store.rows, f) ensures h in LiveIn(s.store.rows, f) {}
    }
  }

  lemma StepIsLater(cfg: Settings, s: State, a: Action)
    requires Inv(cfg, s) && Enabled(s, a)
    ensures Later(s, Next(cfg, s, a))
  {
    if a.Commit? { CommitIsLater(cfg, s, a.t); }
    else if a.Consume? { ConsumeKeepsDead(cfg, s, a); }
    else if a.Rollback? || a.BeginLogin? || a.BeginLogout? || a.BeginRevokeUser? || a.BeginCleanup? {
      BeginOrRollbackKeepsDead(cfg, s, a);
    } else if a.Tick? || a.AddUser? || a.SetActive? || a.BumpVersion? || a.DeleteUser? {
      EnvironmentIsLater(cfg, s, a);
    } else {
      OpenTxnKeepsDead(cfg, s, a);
    }
  }

  lemma LaterIsTransitive(s: State, m: State, e: State)
    requires Later(s, m) && Later(m, e)
    requires forall h | h in s.store.rows :: h in s.store.issued && s.store.rows[h].user in s.store.known
    ensures Later(s, e)
  {
    forall h | h in e.store.rows && h in s.store.issued
      ensures h in s.store.rows && e.store.rows[h] == s.store.rows[h].(revoked := e.store.rows[h].revoked)
              && (s.store.rows[h].revoked ==> e.store.rows[h].revoked)
    {
      assert h in m.store.issued;
      assert h in m.store.rows;
    }
    forall h | h in s.store.rows && h !in e.store.rows
      ensures s.store.rows[h].expires < e.store.now || s.store.rows[h].user !in e.store.users
    {
      var u := s.store.rows[h].user;
      assert h in s.store.issued && u in m.store.known;
      if h in m.store.rows { assert m.store.rows[h].expires == s.store.rows[h].expires && m.store.rows[h].user == u; }
    }
    forall f | f in s.store.sessions
      ensures f in e.store.sessions && e.store.sessions[f].user == s.store.sessions[f].user
              && e.store.sessions[f].version == s.store.sessions[f].version
    {
      assert f in m.store.sessions;
    }
    forall u | u in e.store.users && u in s.store.known
      ensures u in s.store.users && s.store.users[u].version <= e.store.users[u].version
    {
      assert u in m.store.known;
      assert u in m.store.users;
    }
    forall f | Dead(s, f) ensures Dead(e, f) && GrantsIn(e.store, f) == GrantsIn(s.store, f) {
      assert Dead(m, f);
    }
  }

  /** Over every run: the invariant holds at the end, and the end is `Later` than the start. */
  lemma {:induction false} RunKeeps(cfg: Settings, s: State, run: seq<Action>)
    requires Inv(cfg, s) && Valid(cfg, s, run)
    ensures Inv(cfg, Run(cfg, s, run)) && Later(s, Run(cfg, s, run))
    decreases |run|
  {
    if run != [] {
      var m := Next(cfg, s, run[0]);
      StepKeepsInv(cfg, s, run[0]);
      StepIsLater(cfg, s, run[0]);
      RunKeeps(cfg, m, run[1..]);
      assert forall h | h in s.store.rows :: s.store.rows[h].family in s.store.sessions;
      LaterIsTransitive(s, m, Run(cfg, s, run));
    }
  }

  // ---------------------------------------------------------------------------------------
  // Safety of every reachable state.
  // ---------------------------------------------------------------------------------------

  /** The token a consumer took out of circulation. */
  function Presented(tx: Txn): Option<TokenHash> {
    match tx.phase
    case Consumed(h, _) => Some(h)
    case Unexpired(h, _) => Some(h)
    case Ready(_, _, _, parent) => parent
    case Minted(_, _, _, parent) => parent
    case _ => None
  }

  /** A consumer holds the lock on the family's only unrevoked token. */
  ghost predicate HoldsTheLiveToken(st: Store, tx: Txn, f: FamilyId) {
    && Presented(tx).Some?
    && LiveIn(st.rows, f) == {Presented(tx).value}
    && Presented(tx).value in tx.writes && tx.writes[Presented(tx).value] == Revoke
  }

  lemma ConsumerHoldsTheLiveToken(cfg: Settings, st: Store, tx: Txn, f: FamilyId)
    requires RowsOk(st) && TxnOk(cfg, st, tx) && Consuming(tx, f)
    ensures HoldsTheLiveToken(st, tx, f)
  {
    assert Presented(tx).value in LiveIn(st.rows, f);
  }

  /** At most one unrevoked token, at most one consumer, and the consumer holds that token. */
  ghost predicate OneTokenOneConsumer(s: State, f: FamilyId) {
    && (forall h, k | h in LiveIn(s.store.rows, f) && k in LiveIn(s.store.rows, f) :: h == k)
    && (forall t | t in s.txns && Consuming(s.txns[t], f) :: HoldsTheLiveToken(s.store, s.txns[t], f))
    && (forall t, o | t in s.txns && o in s.txns && Consuming(s.txns[t], f) && Consuming(s.txns[o], f) :: t == o)
  }

  /** Every state of every run has at most one unrevoked token in a family and at most one
      consumer in flight, and that consumer holds the lock on exactly that token. */
  lemma OneLiveTokenOneConsumer(cfg: Settings, start: int, run: seq<Action>, f: FamilyId)
    requires Valid(cfg, Initial(start), run)
    ensures OneTokenOneConsumer(Run(cfg, Initial(start), run), f)
  {
    RunKeeps(cfg, Initial(start), run);
    OneConsumer(cfg, Run(cfg, Initial(start), run), f);
  }

  lemma OneConsumer(cfg: Settings, s: State, f: FamilyId)
    requires Inv(cfg, s)
    ensures OneTokenOneConsumer(s, f)
  {
    forall t | t in s.txns && Consuming(s.txns[t], f) ensures HoldsTheLiveToken(s.store, s.txns[t], f) {
      ConsumerHoldsTheLiveToken(cfg, s.store, s.txns[t], f);
    }
    forall t, o | t in s.txns && o in s.txns && Consuming(s.txns[t], f) && Consuming(s.txns[o], f)
      ensures t == o
    {
      var p := Presented(s.txns[t]).value;
      assert p in LiveIn(s.store.rows, f);
      assert p in s.txns[t].writes.Keys && p in s.txns[o].writes.Keys;
    }
  }

  /** Dead stays dead: no continuation revives a family or grants anything more in it. */
  lemma DeadStaysDead(cfg: Settings, start: int, before: seq<Action>, after: seq<Action>, f: FamilyId)
    requires Valid(cfg, Initial(start), before)
    requires Dead(Run(cfg, Initial(start), before), f)
    requires Valid(cfg, Run(cfg, Initial(start), before), after)
    ensures var s := Run(cfg, Initial(start), before);
            var e := Run(cfg, s, after);
            Dead(e, f) && GrantsIn(e.store, f) == GrantsIn(s.store, f)
  {
    RunKeeps(cfg, Initial(start), before);
    RunKeeps(cfg, Run(cfg, Initial(start), before), after);
  }

  /** If a family is dead at time t, no access token granted in it is accepted after t plus one TTL. */
  lemma DeathBoundsAccess(cfg: Settings, start: int, before: seq<Action>, after: seq<Action>, f: FamilyId, g: Grant)
    requires Valid(cfg, Initial(start), before)
    requires Dead(Run(cfg, Initial(start), before), f)
    requires Valid(cfg, Run(cfg, Initial(start), before), after)
    requires g in GrantsIn(Run(cfg, Run(cfg, Initial(start), before), after).store, f)
    ensures var s := Run(cfg, Initial(start), before);
            var e := Run(cfg, s, after);
            e.store.now > s.store.now + cfg.accessMinutes * 60 ==>
              Judge(e.store.users, e.store.now, g.access, true) == NotAuthenticated
  {
    var s := Run(cfg, Initial(start), before);
    DeadStaysDead(cfg, start, before, after, f);
    RunKeeps(cfg, Initial(start), before);
    assert g in GrantsIn(s.store, f);
    assert GrantOk(cfg, s.store, g);
  }

  /** The server signed the token in this run. */
  ghost predicate Genuine(st: Store, access: AccessToken) {
    exists g :: g in st.grants && g.access == access
  }

  /** What the grants of a run say about an access token that is accepted: who logged in, at which
      version, and how long ago at most. */
  ghost predicate GrantedTo(cfg: Settings, st: Store, access: AccessToken, u: UserId) {
    exists g :: g in st.grants && g.access == access
                && g.family in st.sessions && st.sessions[g.family].user == u
                && u in st.users && st.sessions[g.family].version == st.users[u].version
                && st.now <= access.exp <= st.now + cfg.accessMinutes * 60
  }

  /** In every reachable state an access token is accepted only for the user to whose family it was
      granted, at the user's present version and within its lifetime; a token that equals no grant is
      refused. */
  lemma OnlyGrantsAreAccepted(cfg: Settings, start: int, run: seq<Action>, access: AccessToken, u: UserId)
    requires Valid(cfg, Initial(start), run)
    ensures var st := Run(cfg, Initial(start), run).store;
            var verdict := Judge(st.users, st.now, access, Genuine(st, access));
            && (verdict == Accepted(u) ==> u in st.users && st.users[u].active && GrantedTo(cfg, st, access, u))
            && (!Genuine(st, access) ==> verdict == NotAuthenticated)
  {
    RunKeeps(cfg, Initial(start), run);
    var st := Run(cfg, Initial(start), run).store;
    if Judge(st.users, st.now, access, Genuine(st, access)) == Accepted(u) {
      var g :| g in st.grants && g.access == access;
      assert GrantOk(cfg, st, g);
    }
  }

  ghost predicate NothingOldAccepted(s: State, e: State, u: UserId) {
    && (forall g, now | g in s.store.grants && g.access.sub == u ::
          !Judge(e.store.users, now, g.access, true).Accepted?)
    && (forall h, now | h in s.store.issued && h in e.store.rows && e.store.rows[h].user == u ::
          !Refreshable(e.store.users, e.store.rows, now, h))
  }

  ghost predicate VersionRaisedOrGone(s: State, e: State, u: UserId) {
    u in s.store.users && (u in e.store.users ==> e.store.users[u].version > s.store.users[u].version)
  }

  lemma OldTokensRejected(cfg: Settings, s: State, e: State, u: UserId)
    requires Inv(cfg, s) && Inv(cfg, e) && Later(s, e) && VersionRaisedOrGone(s, e, u)
    ensures NothingOldAccepted(s, e, u)
  {
    forall g, now | g in s.store.grants && g.access.sub == u
      ensures !Judge(e.store.users, now, g.access, true).Accepted?
    {
      assert GrantOk(cfg, s.store, g);
    }
    forall h, now | h in s.store.issued && h in e.store.rows && e.store.rows[h].user == u
      ensures !Refreshable(e.store.users, e.store.rows, now, h)
    {
      assert h in s.store.rows && s.store.rows[h].family in s.store.sessions;
    }
  }

  /** Once a user's version has risen, or the user is gone, no access or refresh token issued to
      the user before is accepted in any later state. */
  lemma RaisedVersionRevokes(cfg: Settings, start: int, before: seq<Action>, after: seq<Action>, u: UserId)
    requires Valid(cfg, Initial(start), before)
    requires Valid(cfg, Run(cfg, Initial(start), before), after)
    requires VersionRaisedOrGone(Run(cfg, Initial(start), before), Run(cfg, Run(cfg, Initial(start), before), after), u)
    ensures NothingOldAccepted(Run(cfg, Initial(start), before), Run(cfg, Run(cfg, Initial(start), before), after), u)
  {
    var s := Run(cfg, Initial(start), before);
    RunKeeps(cfg, Initial(start), before);
    RunKeeps(cfg, s, after);
    OldTokensRejected(cfg, s, Run(cfg, s, after), u);
  }

  /** All rows of a family carry one user and one version, which never exceeds the user's. */
  lemma FamilyIsUniform(cfg: Settings, start: int, run: seq<Action>, h: TokenHash, k: TokenHash)
    requires Valid(cfg, Initial(start), run)
    requires var rows := Run(cfg, Initial(start), run).store.rows;
             h in rows && k in rows && rows[h].family == rows[k].family
    ensures var st := Run(cfg, Initial(start), run).store;
            && st.rows[h].user == st.rows[k].user
            && st.rows[h].version == st.rows[k].version
            && (st.rows[h].user in st.users ==> st.rows[h].version <= st.users[st.rows[h].user].version)
  {
    RunKeeps(cfg, Initial(start), run);
  }

  // ---------------------------------------------------------------------------------------
  // How long a refresh token is known, and how long it can be used.
  // ---------------------------------------------------------------------------------------

  /** A token that has been used or revoked is recognised as such in every later state, until it has
      expired or its user is gone. */
  lemma UsedTokensStayKnown(cfg: Settings, start: int, before: seq<Action>, after: seq<Action>, h: TokenHash)
    requires Valid(cfg, Initial(start), before)
    requires Valid(cfg, Run(cfg, Initial(start), before), after)
    requires var st := Run(cfg, Initial(start), before).store; h in st.rows && st.rows[h].revoked
    ensures var st := Run(cfg, Initial(start), before).store;
            var st' := Run(cfg, Run(cfg, Initial(start), before), after).store;
            if h in st'.rows then st'.rows[h] == st.rows[h]
            else st.rows[h].expires < st'.now || st.rows[h].user !in st'.users
  {
    RunKeeps(cfg, Initial(start), before);
    RunKeeps(cfg, Run(cfg, Initial(start), before), after);
  }

  /** No row, committed or about to be, outlives the present by more than one lifetime. */
  ghost predicate ExpiryOk(cfg: Settings, s: State) {
    && (forall h | h in s.store.rows :: s.store.rows[h].expires <= s.store.now + cfg.refreshDays * 86400)
    && forall t, h | t in s.txns && h in s.txns[t].writes && s.txns[t].writes[h].Insert? ::
         s.txns[t].writes[h].row.expires <= s.store.now + cfg.refreshDays * 86400
  }

  lemma CommitKeepsExpiry(cfg: Settings, s: State, t: TxnId)
    requires ExpiryOk(cfg, s) && Enabled(s, Commit(t))
    ensures ExpiryOk(cfg, Next(cfg, s, Commit(t)))
  {
    var rows := Next(cfg, s, Commit(t)).store.rows;
    forall h | h in rows ensures rows[h].expires <= s.store.now + cfg.refreshDays * 86400 {
      RowsAfterWrites(s.store.rows, s.txns[t].writes, h);
    }
  }

  lemma RowsAfterWrites(rows: Rows, writes: map<TokenHash, Write>, h: TokenHash)
    requires h in ApplyWrites(rows, writes)
    ensures var row := ApplyWrites(rows, writes)[h];
            || (h in writes && writes[h].Insert? && row == writes[h].row)
            || (h in rows && row.expires == rows[h].expires && row.user == rows[h].user)
  {}

  lemma StepKeepsExpiry(cfg: Settings, s: State, a: Action)
    requires ExpiryOk(cfg, s) && Enabled(s, a)
    ensures ExpiryOk(cfg, Next(cfg, s, a))
  {
    if a.Commit? { CommitKeepsExpiry(cfg, s, a.t); }
  }

  lemma {:induction false} RunKeepsExpiry(cfg: Settings, s: State, run: seq<Action>)
    requires ExpiryOk(cfg, s) && Valid(cfg, s, run)
    ensures ExpiryOk(cfg, Run(cfg, s, run))
    decreases |run|
  {
    if run != [] {
      StepKeepsExpiry(cfg, s, run[0]);
      RunKeepsExpiry(cfg, Next(cfg, s, run[0]), run[1..]);
    }
  }

  /** The token cannot be exchanged once its lifetime has passed since `s`. */
  ghost predicate ExpiredBy(cfg: Settings, s: State, e: State, h: TokenHash) {
    e.store.now > s.store.now + cfg.refreshDays * 86400 ==>
      !Refreshable(e.store.users, e.store.rows, e.store.now, h)
  }

  lemma IssuedTokensExpire(cfg: Settings, s: State, run: seq<Action>, h: TokenHash)
    requires Inv(cfg, s) && ExpiryOk(cfg, s) && Valid(cfg, s, run) && h in s.store.issued
    ensures ExpiredBy(cfg, s, Run(cfg, s, run), h)
  {
    RunKeeps(cfg, s, run);
  }

  lemma ReachableStatesAreSound(cfg: Settings, start: int, run: seq<Action>)
    requires Valid(cfg, Initial(start), run)
    ensures Inv(cfg, Run(cfg, Initial(start), run)) && ExpiryOk(cfg, Run(cfg, Initial(start), run))
  {
    RunKeeps(cfg, Initial(start), run);
    RunKeepsExpiry(cfg, Initial(start), run);
  }

  /** A refresh token that has been issued can no longer be exchanged REFRESH_TOKEN_EXPIRE_DAYS later,
      whatever happened in between. */
  lemma RefreshTokensExpire(cfg: Settings, start: int, before: seq<Action>, after: seq<Action>, h: TokenHash)
    requires Valid(cfg, Initial(start), before)
    requires Valid(cfg, Run(cfg, Initial(start), before), after)
    requires h in Run(cfg, Initial(start), before).store.issued
    ensures ExpiredBy(cfg, Run(cfg, Initial(start), before), Run(cfg, Run(cfg, Initial(start), before), after), h)
  {
    ReachableStatesAreSound(cfg, start, before);
    IssuedTokensExpire(cfg, Run(cfg, Initial(start), before), after, h);
  }

  // ---------------------------------------------------------------------------------------
  // Rows and users.
  // ---------------------------------------------------------------------------------------

  /** Every row, committed or about to be, belongs to a user who exists. */
  ghost predicate OwnersOk(s: State) {
    && (forall h | h in s.store.rows :: s.store.rows[h].user in s.store.users)
    && forall t, h | t in s.txns && h in s.txns[t].writes && s.txns[t].writes[h].Insert? ::
         s.txns[t].writes[h].row.user in s.store.users
  }

  lemma CommitKeepsOwners(cfg: Settings, s: State, t: TxnId)
    requires OwnersOk(s) && Enabled(s, Commit(t))
    ensures OwnersOk(Next(cfg, s, Commit(t)))
  {
    var rows := Next(cfg, s, Commit(t)).store.rows;
    forall h | h in rows ensures rows[h].user in s.store.users {
      RowsAfterWrites(s.store.rows, s.txns[t].writes, h);
    }
  }

  lemma StepKeepsOwners(cfg: Settings, s: State, a: Action)
    requires OwnersOk(s) && Enabled(s, a)
    ensures OwnersOk(Next(cfg, s, a))
  {
    if a.Commit? { CommitKeepsOwners(cfg, s, a.t); }
    else if a.DeleteUser? { DeletionKeepsOwners(cfg, s, a.user); }
    else {
      var s' := Next(cfg, s, a);
      forall t, h | t in s'.txns && h in s'.txns[t].writes && s'.txns[t].writes[h].Insert?
        ensures s'.txns[t].writes[h].row.user in s'.store.users
      {
        if t in s.txns && h in s.txns[t].writes && s.txns[t].writes[h].Insert? {
          assert s.txns[t].writes[h].row.user in s.store.users;
        }
      }
    }
  }

  lemma DeletionKeepsOwners(cfg: Settings, s: State, u: UserId)
    requires OwnersOk(s) && Enabled(s, DeleteUser(u))
    ensures OwnersOk(Next(cfg, s, DeleteUser(u)))
  {
    var s' := Next(cfg, s, DeleteUser(u));
    forall t, h | t in s'.txns && h in s'.txns[t].writes && s'.txns[t].writes[h].Insert?
      ensures s'.txns[t].writes[h].row.user in s'.store.users
    {
      assert s'.txns == s.txns && UntouchedUser(s, u);
      assert Spares(s.store.rows, h, s.txns[t].writes[h], u);
    }
  }

  /** In every reachable state the user of every refresh token exists: deleting a user leaves no token
      behind, whatever else is in flight. */
  lemma {:induction false} RunKeepsOwners(cfg: Settings, s: State, run: seq<Action>)
    requires OwnersOk(s) && Valid(cfg, s, run)
    ensures OwnersOk(Run(cfg, s, run))
    decreases |run|
  {
    if run != [] {
      StepKeepsOwners(cfg, s, run[0]);
      RunKeepsOwners(cfg, Next(cfg, s, run[0]), run[1..]);
    }
  }

  // ---------------------------------------------------------------------------------------
  // When a revocation empties its family.
  // ---------------------------------------------------------------------------------------

  /** A committed family revocation leaves the family empty exactly when no token was minted in
      the family since the revocation read its rows, or the newest one is already out of use. */
  lemma SweepEmptiesFamilyIff(cfg: Settings, s: State, t: TxnId, f: FamilyId, seen: TokenHash)
    requires Inv(cfg, s) && t in s.txns && s.txns[t].phase == Revoking({}, Some(FamilySweep(f, seen)))
    ensures f in s.store.sessions
    ensures var head := s.store.sessions[f].head;
            LiveIn(Next(cfg, s, Commit(t)).store.rows, f) == {} <==> head == seen || !Live(s.store.rows, head)
  {
    var tx := s.txns[t];
    assert TxnOk(cfg, s.store, tx);
    var head := s.store.sessions[f].head;
    var rows, rows' := s.store.rows, Next(cfg, s, Commit(t)).store.rows;
    if Live(rows, head) && head != seen {
      assert head !in tx.writes.Keys && head in LiveIn(rows', f);
    }
    forall h | h in LiveIn(rows', f) ensures h in LiveIn(rows, f) && h == head && h !in tx.writes {
      RowsAfterCommit(cfg, s.store, tx, h);
    }
  }

  /** A committed revocation of a user's tokens leaves the user none exactly when, in every family of
      the user, the newest token had been issued when the revocation read the rows, or is already out
      of use. */
  lemma SweepEmptiesUserIff(cfg: Settings, s: State, t: TxnId, u: UserId, seen: set<TokenHash>)
    requires Inv(cfg, s) && t in s.txns && s.txns[t].phase == Revoking({}, Some(UserSweep(u, seen)))
    ensures LiveOfUser(Next(cfg, s, Commit(t)).store.rows, u) == {}
            <==> forall f | f in s.store.sessions && s.store.sessions[f].user == u ::
                   s.store.sessions[f].head in seen || !Live(s.store.rows, s.store.sessions[f].head)
  {
    var st, tx := s.store, s.txns[t];
    assert TxnOk(cfg, st, tx);
    var rows' := Next(cfg, s, Commit(t)).store.rows;
    forall h | h in LiveOfUser(rows', u)
      ensures h in st.rows && st.rows[h].family in st.sessions
              && h == st.sessions[st.rows[h].family].head && st.sessions[st.rows[h].family].user == u
              && Live(st.rows, h) && h !in seen
    {
      RowsAfterCommit(cfg, st, tx, h);
      assert h in LiveOfUser(st.rows, u);
    }
    forall f | f in st.sessions && st.sessions[f].user == u && st.sessions[f].head !in seen
               && Live(st.rows, st.sessions[f].head)
      ensures st.sessions[f].head in LiveOfUser(rows', u)
    {
      assert st.sessions[f].head !in tx.writes.Keys;
    }
  }
}
