/** What every step of the rotation protocol keeps, and the proof that it does. */
module RotationInvariant {
  import opened Wrappers
  import opened TokenModel
  import opened RotationSteps

  /** A row belongs to its family's session, and an unrevoked row is the family's newest token. */
  ghost predicate RowsOk(st: Store) {
    forall h | h in st.rows ::
      && h in st.issued
      && st.rows[h].family in st.sessions
      && st.rows[h].user == st.sessions[st.rows[h].family].user
      && st.rows[h].version == st.sessions[st.rows[h].family].version
      && (!st.rows[h].revoked ==> st.sessions[st.rows[h].family].head == h)
  }

  ghost predicate SessionsOk(st: Store) {
    && st.users.Keys <= st.known
    && forall f | f in st.sessions ::
         && st.sessions[f].head in st.issued
         && (st.sessions[f].head in st.rows ==> st.rows[st.sessions[f].head].family == f)
         && st.sessions[f].user in st.known
         && (st.sessions[f].user in st.users ==>
               st.sessions[f].version <= st.users[st.sessions[f].user].version)
  }

  /** An access token is signed for its family's user and version and outlives its issue by one TTL. */
  ghost predicate GrantOk(cfg: Settings, st: Store, g: Grant) {
    && g.family in st.sessions
    && g.access.sub == st.sessions[g.family].user
    && g.access.tv == st.sessions[g.family].version
    && g.access.exp <= st.now + AccessTtl(cfg)
  }

  ghost predicate GrantsOk(cfg: Settings, st: Store) {
    forall g | g in st.grants :: GrantOk(cfg, st, g)
  }

  /** The transaction holds the lock on an unrevoked token of family `f`, user `u`, version `v`. */
  ghost predicate Holds(st: Store, tx: Txn, h: TokenHash, f: FamilyId, u: UserId, v: int) {
    && h in tx.writes && tx.writes[h] == Revoke
    && h in st.rows && !st.rows[h].revoked
    && st.rows[h].family == f && st.rows[h].user == u && st.rows[h].version == v
  }

  /** The version a transaction read for a user is one the user has had. */
  ghost predicate VersionSeen(st: Store, u: UserId, v: int) {
    u in st.known && (u in st.users ==> v <= st.users[u].version)
  }

  ghost predicate PhaseOk(cfg: Settings, st: Store, tx: Txn) {
    match tx.phase
    case Lost(_) => tx.writes == map[]
    case Consumed(h, row) => tx.writes.Keys == {h} && Holds(st, tx, h, row.family, row.user, row.version)
    case Unexpired(h, row) => tx.writes.Keys == {h} && Holds(st, tx, h, row.family, row.user, row.version)
    case Condemned(f) =>
      f in st.sessions
      && forall h | h in tx.writes :: Holds(st, tx, h, f, st.sessions[f].user, st.sessions[f].version)
    case Ready(u, v, family, parent) =>
      && VersionSeen(st, u, v)
      && (match parent
          case Some(h) => family.Some? && tx.writes.Keys == {h} && Holds(st, tx, h, family.value, u, v)
          case None => family.None? && tx.writes == map[])
    case Minted(access, token, row, parent) =>
      && VersionSeen(st, row.user, row.version)
      && !row.revoked && token !in st.issued
      && access.sub == row.user && access.tv == row.version && access.exp <= st.now + AccessTtl(cfg)
      && token in tx.writes && tx.writes[token] == Insert(row)
      && (match parent
          case Some(h) =>
            h != token && tx.writes.Keys == {h, token} && Holds(st, tx, h, row.family, row.user, row.version)
          case None => tx.writes.Keys == {token} && row.family !in st.sessions)
    case Revoking(todo, sweep) =>
      && (forall h | h in tx.writes :: tx.writes[h] == Revoke)
      && (sweep.Some? ==> SweepOk(st, tx, todo, sweep.value))
    case Deleting(todo) =>
      && (forall h | h in tx.writes :: tx.writes[h] == Delete)
      && forall h | h in todo + tx.writes.Keys ::
           h in st.issued && (h in st.rows ==> st.rows[h].expires < st.now)
  }

  /** A family revocation covers at most the token that was newest when it read the rows, and until
      the family gets a newer one it covers all the family's unrevoked rows. A user revocation covers
      all the user's unrevoked rows that had been issued when it read them. */
  ghost predicate SweepOk(st: Store, tx: Txn, todo: set<TokenHash>, w: Sweep) {
    match w
    case FamilySweep(f, head) =>
      && f in st.sessions
      && head in st.issued
      && todo + tx.writes.Keys <= {head}
      && (st.sessions[f].head == head ==> LiveIn(st.rows, f) <= todo + tx.writes.Keys)
    case UserSweep(u, seen) =>
      && seen <= st.issued
      && todo + tx.writes.Keys <= seen
      && forall h | h in LiveOfUser(st.rows, u) && h in seen :: h in todo + tx.writes.Keys
  }

  /** Locked rows exist; inserted rows are new and only a transaction that minted them inserts. */
  ghost predicate WritesOk(st: Store, tx: Txn) {
    forall h | h in tx.writes ::
      if tx.writes[h].Insert? then tx.phase.Minted? && tx.phase.token == h && h !in st.issued
      else h in st.rows
  }

  ghost predicate TxnOk(cfg: Settings, st: Store, tx: Txn) {
    PhaseOk(cfg, st, tx) && WritesOk(st, tx)
  }

  ghost predicate StoreOk(cfg: Settings, st: Store) {
    RowsOk(st) && SessionsOk(st) && GrantsOk(cfg, st)
  }

  /** Two open transactions never hold the same row nor mint into the same family. */
  ghost predicate Apart(a: Txn, b: Txn) {
    && a.writes.Keys !! b.writes.Keys
    && (a.phase.Minted? && b.phase.Minted? ==> a.phase.row.family != b.phase.row.family)
  }

  ghost predicate Inv(cfg: Settings, s: State) {
    && StoreOk(cfg, s.store)
    && (forall t | t in s.txns :: TxnOk(cfg, s.store, s.txns[t]))
    && (forall t, o | t in s.txns && o in s.txns && t != o :: Apart(s.txns[t], s.txns[o]))
  }

  // ---------------------------------------------------------------------------------------
  // Steps of one transaction that leave the store alone.
  // ---------------------------------------------------------------------------------------

  /** Replacing one transaction keeps the invariant when the new one is sound and apart from the rest. */
  lemma Replaced(cfg: Settings, s: State, t: TxnId, tx: Txn)
    requires Inv(cfg, s)
    requires TxnOk(cfg, s.store, tx)
    requires forall o | o in s.txns && o != t :: Apart(tx, s.txns[o])
    ensures Inv(cfg, s.(txns := s.txns[t := tx]))
  {
    var s' := s.(txns := s.txns[t := tx]);
    forall a, b | a in s'.txns && b in s'.txns && a != b ensures Apart(s'.txns[a], s'.txns[b]) {
      if a == t { assert Apart(tx, s.txns[b]); }
      else if b == t { assert Apart(tx, s.txns[a]); }
      else { assert Apart(s.txns[a], s.txns[b]); }
    }
  }

  /** The common case: the locks stay as they were, or shrink, and nothing is minted. */
  lemma Relabelled(cfg: Settings, s: State, t: TxnId, phase: Phase)
    requires Inv(cfg, s) && t in s.txns && !phase.Minted?
    requires TxnOk(cfg, s.store, Txn(phase, s.txns[t].writes))
    ensures Inv(cfg, With(s, t, phase, s.txns[t].writes))
  {
    forall o | o in s.txns && o != t ensures Apart(Txn(phase, s.txns[t].writes), s.txns[o]) {
      assert Apart(s.txns[t], s.txns[o]);
    }
    Replaced(cfg, s, t, Txn(phase, s.txns[t].writes));
  }

  lemma LocalStep(cfg: Settings, s: State, a: Action)
    requires Inv(cfg, s) && Enabled(s, a)
    requires a.LookUp? || a.CheckExpiry? || a.CheckUser? || a.SelectFamily?
    ensures Inv(cfg, Next(cfg, s, a))
  {
    var st, tx := s.store, s.txns[a.t];
    assert TxnOk(cfg, st, tx);
    Relabelled(cfg, s, a.t, Next(cfg, s, a).txns[a.t].phase);
  }

  lemma WritingStep(cfg: Settings, s: State, a: Action)
    requires Inv(cfg, s) && Enabled(s, a) && (a.WriteRevoke? || a.WriteDelete?)
    ensures Inv(cfg, Next(cfg, s, a))
  {
    var tx' := Next(cfg, s, a).txns[a.t];
    assert TxnOk(cfg, s.store, s.txns[a.t]);
    assert TxnOk(cfg, s.store, tx');
    forall o | o in s.txns && o != a.t ensures Apart(tx', s.txns[o]) {
      assert Apart(s.txns[a.t], s.txns[o]);
    }
    Replaced(cfg, s, a.t, tx');
  }

  lemma BeginningStep(cfg: Settings, s: State, a: Action)
    requires Inv(cfg, s) && Enabled(s, a)
    requires a.Consume? || a.BeginLogin? || a.BeginLogout? || a.BeginRevokeUser? || a.BeginCleanup?
    ensures Inv(cfg, Next(cfg, s, a))
  {
    var tx' := Next(cfg, s, a).txns[a.t];
    assert TxnOk(cfg, s.store, tx');
    Replaced(cfg, s, a.t, tx');
  }

  lemma MintStep(cfg: Settings, s: State, a: Action)
    requires Inv(cfg, s) && Enabled(s, a) && a.Mint?
    ensures Inv(cfg, Next(cfg, s, a))
  {
    var t := a.t;
    var tx, tx' := s.txns[t], Next(cfg, s, a).txns[t];
    var h := Sha256(a.raw);
    assert TxnOk(cfg, s.store, tx);
    assert TxnOk(cfg, s.store, tx');
    forall o | o in s.txns && o != t ensures Apart(tx', s.txns[o]) {
      assert Apart(tx, s.txns[o]) && TxnOk(cfg, s.store, s.txns[o]);
      if s.txns[o].phase.Minted? { MintsIntoAnotherFamily(cfg, s, t, o, a.family); }
    }
    Replaced(cfg, s, t, tx');
  }

  /** Two lock holders of one family would hold the same newest token. */
  lemma MintsIntoAnotherFamily(cfg: Settings, s: State, t: TxnId, o: TxnId, f: FamilyId)
    requires Inv(cfg, s) && t in s.txns && o in s.txns && t != o
    requires s.txns[t].phase.Ready? && s.txns[o].phase.Minted?
    requires match s.txns[t].phase.lineage case Some(g) => f == g case None => FreshFamily(s, f)
    ensures s.txns[o].phase.row.family != f
  {
    assert TxnOk(cfg, s.store, s.txns[t]) && TxnOk(cfg, s.store, s.txns[o]) && Apart(s.txns[t], s.txns[o]);
    var token := s.txns[o].phase.token;
    assert s.txns[o].writes[token].Insert?;
    if s.txns[t].phase.parent.Some? && s.txns[o].phase.parent.Some? {
      var h, k := s.txns[t].phase.parent.value, s.txns[o].phase.parent.value;
      assert h in s.txns[t].writes && k in s.txns[o].writes;
    }
  }

  // ---------------------------------------------------------------------------------------
  // Steps that change the store.
  // ---------------------------------------------------------------------------------------

  lemma RollbackStep(cfg: Settings, s: State, t: TxnId)
    requires Inv(cfg, s) && t in s.txns
    ensures Inv(cfg, s.(txns := Close(s, t)))
  {}

  /** A commit adds at most the minted row and otherwise only revokes or removes. */
  lemma RowsAfterCommit(cfg: Settings, st: Store, tx: Txn, h: TokenHash)
    requires TxnOk(cfg, st, tx) && h in ApplyWrites(st.rows, tx.writes)
    ensures var rows' := ApplyWrites(st.rows, tx.writes);
            if tx.phase.Minted? && h == tx.phase.token then rows'[h] == tx.phase.row
            else h in st.rows && rows'[h] == st.rows[h].(revoked := h in tx.writes || st.rows[h].revoked)
  {}

  lemma CommitKeepsRows(cfg: Settings, st: Store, tx: Txn)
    requires RowsOk(st) && SessionsOk(st) && TxnOk(cfg, st, tx)
    ensures RowsOk(Publish(st, tx))
  {
    var st' := Publish(st, tx);
    forall h | h in st'.rows
      ensures h in st'.issued && st'.rows[h].family in st'.sessions
              && st'.rows[h].user == st'.sessions[st'.rows[h].family].user
              && st'.rows[h].version == st'.sessions[st'.rows[h].family].version
              && (!st'.rows[h].revoked ==> st'.sessions[st'.rows[h].family].head == h)
    {
      RowsAfterCommit(cfg, st, tx, h);
    }
  }

  lemma CommitKeepsSessions(cfg: Settings, st: Store, tx: Txn)
    requires RowsOk(st) && SessionsOk(st) && TxnOk(cfg, st, tx)
    ensures SessionsOk(Publish(st, tx))
  {
    var st' := Publish(st, tx);
    forall f | f in st'.sessions && st'.sessions[f].head in st'.rows
      ensures st'.rows[st'.sessions[f].head].family == f
    {
      RowsAfterCommit(cfg, st, tx, st'.sessions[f].head);
    }
  }

  lemma CommitKeepsGrants(cfg: Settings, st: Store, tx: Txn)
    requires RowsOk(st) && GrantsOk(cfg, st) && TxnOk(cfg, st, tx)
    ensures GrantsOk(cfg, Publish(st, tx))
  {
    var st' := Publish(st, tx);
    forall g | g in st'.grants ensures GrantOk(cfg, st', g) {
      if g in st.grants { assert GrantOk(cfg, st, g); }
    }
  }

  /** The rows another transaction has locked are as they were. */
  lemma LocksSurviveCommit(cfg: Settings, st: Store, tx: Txn, o: Txn, h: TokenHash)
    requires TxnOk(cfg, st, tx) && Apart(tx, o) && h in o.writes && h in st.rows
    ensures h in Publish(st, tx).rows && Publish(st, tx).rows[h] == st.rows[h]
  {
    assert h in o.writes.Keys;
  }

  lemma CommitKeepsOther(cfg: Settings, st: Store, tx: Txn, o: Txn)
    requires RowsOk(st) && TxnOk(cfg, st, tx) && TxnOk(cfg, st, o) && Apart(tx, o)
    ensures TxnOk(cfg, Publish(st, tx), o)
  {
    CommitKeepsLocks(cfg, st, tx, o);
    if o.phase.Revoking? && o.phase.sweep.Some? {
      CommitKeepsSweep(cfg, st, tx, o, o.phase.todo, o.phase.sweep.value);
    }
    PhaseSurvives(cfg, st, Publish(st, tx), o);
  }

  lemma CommitKeepsLocks(cfg: Settings, st: Store, tx: Txn, o: Txn)
    requires RowsOk(st) && TxnOk(cfg, st, tx) && TxnOk(cfg, st, o) && Apart(tx, o)
    ensures WritesOk(Publish(st, tx), o)
    ensures forall h | h in o.writes && h in st.rows ::
              h in Publish(st, tx).rows && Publish(st, tx).rows[h] == st.rows[h]
    ensures forall f | f in st.sessions ::
              f in Publish(st, tx).sessions && Publish(st, tx).sessions[f].user == st.sessions[f].user
              && Publish(st, tx).sessions[f].version == st.sessions[f].version
    ensures o.phase.Minted? ==>
              o.phase.token !in Publish(st, tx).issued
              && (o.phase.row.family in Publish(st, tx).sessions ==> o.phase.row.family in st.sessions)
  {
    forall h | h in o.writes
      ensures h !in tx.writes
      ensures h in st.rows ==> h in Publish(st, tx).rows && Publish(st, tx).rows[h] == st.rows[h]
    {
      assert h in o.writes.Keys;
      if h in st.rows { LocksSurviveCommit(cfg, st, tx, o, h); }
    }
  }

  /** A transaction is undisturbed by a commit that leaves its locked rows, its users and its
      family's owner alone and does not use up what it is about to insert. */
  lemma PhaseSurvives(cfg: Settings, st: Store, st': Store, o: Txn)
    requires TxnOk(cfg, st, o)
    requires st'.users == st.users && st'.known == st.known && st'.now == st.now
    requires forall f | f in st.sessions ::
               && f in st'.sessions
               && st'.sessions[f].user == st.sessions[f].user
               && st'.sessions[f].version == st.sessions[f].version
    requires forall h | h in o.writes && h in st.rows :: h in st'.rows && st'.rows[h] == st.rows[h]
    requires o.phase.Minted? ==>
               && o.phase.token !in st'.issued
               && (o.phase.row.family in st'.sessions ==> o.phase.row.family in st.sessions)
    requires o.phase.Revoking? && o.phase.sweep.Some? ==> SweepOk(st', o, o.phase.todo, o.phase.sweep.value)
    requires st.issued <= st'.issued
    requires forall h | h in st'.rows && h in st.issued :: h in st.rows && st'.rows[h].expires == st.rows[h].expires
    ensures PhaseOk(cfg, st', o)
  {}

  lemma CommitKeepsSweep(cfg: Settings, st: Store, tx: Txn, o: Txn, todo: set<TokenHash>, w: Sweep)
    requires TxnOk(cfg, st, tx) && SweepOk(st, o, todo, w)
    ensures SweepOk(Publish(st, tx), o, todo, w)
  {
    var st' := Publish(st, tx);
    if w.FamilySweep? && st'.sessions[w.family].head == w.head {
      assert st.sessions[w.family].head == w.head;
      forall h | h in LiveIn(st'.rows, w.family) ensures h in LiveIn(st.rows, w.family) {
        RowsAfterCommit(cfg, st, tx, h);
      }
    }
  }

  lemma CommitStep(cfg: Settings, s: State, t: TxnId)
    requires Inv(cfg, s) && t in s.txns
    ensures Inv(cfg, State(Publish(s.store, s.txns[t]), Close(s, t)))
  {
    var tx := s.txns[t];
    CommitKeepsRows(cfg, s.store, tx);
    CommitKeepsSessions(cfg, s.store, tx);
    CommitKeepsGrants(cfg, s.store, tx);
    forall o | o in s.txns && o != t ensures TxnOk(cfg, Publish(s.store, tx), s.txns[o]) {
      assert Apart(tx, s.txns[o]);
      CommitKeepsOther(cfg, s.store, tx, s.txns[o]);
    }
  }

  lemma DeleteUserKeepsTxn(cfg: Settings, s: State, u: UserId, o: TxnId)
    requires Inv(cfg, s) && u in s.store.users && UntouchedUser(s, u) && o in s.txns
    ensures TxnOk(cfg, Next(cfg, s, DeleteUser(u)).store, s.txns[o])
  {
    var st, st' := s.store, Next(cfg, s, DeleteUser(u)).store;
    var tx := s.txns[o];
    assert TxnOk(cfg, st, tx);
    forall h | h in tx.writes && h in st.rows ensures h in st'.rows && st'.rows[h] == st.rows[h] {}
    match tx.phase
    case Revoking(todo, sweep) =>
      if sweep.Some? && sweep.value.FamilySweep? {
        assert LiveIn(st'.rows, sweep.value.family) <= LiveIn(st.rows, sweep.value.family);
      }
      if sweep.Some? && sweep.value.UserSweep? {
        assert LiveOfUser(st'.rows, sweep.value.user) <= LiveOfUser(st.rows, sweep.value.user);
      }
    case _ =>
  }

  /** Time passing and users changing leave a transaction sound as long as versions only rise. */
  lemma UserChangeKeepsTxn(cfg: Settings, st: Store, st': Store, tx: Txn)
    requires TxnOk(cfg, st, tx) && st.users.Keys <= st.known
    requires st.(users := st'.users, now := st'.now, known := st'.known) == st'
    requires st.now <= st'.now && st.known <= st'.known
    requires forall u | u in st'.users && u in st.known :: u in st.users && st.users[u].version <= st'.users[u].version
    ensures TxnOk(cfg, st', tx)
  {}

  lemma EnvironmentKeepsStore(cfg: Settings, s: State, a: Action)
    requires Inv(cfg, s) && Enabled(s, a)
    requires a.Tick? || a.AddUser? || a.SetActive? || a.BumpVersion? || a.DeleteUser?
    ensures StoreOk(cfg, Next(cfg, s, a).store)
  {
    var s' := Next(cfg, s, a);
    forall g | g in s'.store.grants ensures GrantOk(cfg, s'.store, g) {
      assert GrantOk(cfg, s.store, g);
    }
  }

  lemma EnvironmentStep(cfg: Settings, s: State, a: Action)
    requires Inv(cfg, s) && Enabled(s, a)
    requires a.Tick? || a.AddUser? || a.SetActive? || a.BumpVersion? || a.DeleteUser?
    ensures Inv(cfg, Next(cfg, s, a))
  {
    var s' := Next(cfg, s, a);
    EnvironmentKeepsStore(cfg, s, a);
    forall o | o in s'.txns ensures TxnOk(cfg, s'.store, s'.txns[o]) {
      if a.DeleteUser? { DeleteUserKeepsTxn(cfg, s, a.user, o); }
      else { UserChangeKeepsTxn(cfg, s.store, s'.store, s.txns[o]); }
    }
  }

  /** Every step keeps the invariant. */
  lemma StepKeepsInv(cfg: Settings, s: State, a: Action)
    requires Inv(cfg, s) && Enabled(s, a)
    ensures Inv(cfg, Next(cfg, s, a))
  {
    match a
    case Consume(_, _) => BeginningStep(cfg, s, a);
    case LookUp(_) => LocalStep(cfg, s, a);
    case CheckExpiry(_) => LocalStep(cfg, s, a);
    case CheckUser(_) => LocalStep(cfg, s, a);
    case SelectFamily(_) => LocalStep(cfg, s, a);
    case WriteRevoke(_, _) => WritingStep(cfg, s, a);
    case WriteDelete(_, _) => WritingStep(cfg, s, a);
    case Mint(_, _, _, _) => MintStep(cfg, s, a);
    case Commit(t) => CommitStep(cfg, s, t);
    case Rollback(t) => RollbackStep(cfg, s, t);
    case BeginLogin(_, _) => BeginningStep(cfg, s, a);
    case BeginLogout(_, _) => BeginningStep(cfg, s, a);
    case BeginRevokeUser(_, _) => BeginningStep(cfg, s, a);
    case BeginCleanup(_) => BeginningStep(cfg, s, a);
    case _ => EnvironmentStep(cfg, s, a);
  }
}
