/** A refresh, login or logout taken as one transaction is one run of the interleaved protocol, so the serial
    operations inherit everything that is proved of all runs. */
module RotationRefinement {
  import opened Wrappers
  import opened TokenModel
  import opened RotationSteps
  import opened RotationInvariant
  import opened RotationTheorems
  import RT = RefreshTransactions

  ghost predicate Quiet(cfg: Settings, s: State) {
    Inv(cfg, s) && s.txns == map[]
  }

  lemma InvGivesOneLivePerFamily(cfg: Settings, s: State)
    requires Inv(cfg, s)
    ensures RT.OneLivePerFamily(s.store.rows)
  {}

  /** A token pair handed out: the refresh token as the log has it, and the access token. */
  datatype Issue = Issue(event: Event, access: AccessToken)

  /** The run computes the serial transaction, hands out the pair and no other, and leaves nothing open. */
  ghost predicate Computes(cfg: Settings, s: State, run: seq<Action>, rows: Rows, issue: Option<Issue>) {
    && Valid(cfg, s, run)
    && var e := Run(cfg, s, run);
       && e.txns == map[]
       && e.store.rows == rows
       && e.store.users == s.store.users
       && e.store.now == s.store.now
       && e.store.known == s.store.known
       && e.store.log == s.store.log + (if issue.Some? then [issue.value.event] else [])
       && e.store.issued == s.store.issued + (if issue.Some? then {issue.value.event.minted} else {})
       && e.store.sessions.Keys == s.store.sessions.Keys + (if issue.Some? then {issue.value.event.family} else {})
       && e.store.grants
          == s.store.grants + if issue.Some? then {Grant(issue.value.access, issue.value.event.family)} else {}
  }

  /** Committing the only open transaction. */
  lemma CommitAlone(cfg: Settings, s: State, t: TxnId, tx: Txn)
    requires s.txns == map[t := tx] && Committable(tx.phase)
    ensures Computes(cfg, s, [Commit(t)] + [], ApplyWrites(s.store.rows, tx.writes),
                     if !tx.phase.Minted? then None
                     else Some(Issue(if tx.phase.parent.Some?
                                     then Rotated(tx.phase.row.family, tx.phase.parent.value, tx.phase.token)
                                     else LoggedIn(tx.phase.row.family, tx.phase.token),
                                     tx.phase.access)))
  {
    Prepend(cfg, s, Commit(t), []);
  }

  lemma PrependComputes(cfg: Settings, s: State, a: Action, rest: seq<Action>, rows: Rows, issue: Option<Issue>)
    requires Enabled(s, a)
    requires Computes(cfg, Next(cfg, s, a), rest, rows, issue)
    requires Next(cfg, s, a).store == s.store
    ensures Computes(cfg, s, [a] + rest, rows, issue)
  {
    Prepend(cfg, s, a, rest);
  }

  /** One write for all of the rows. */
  function AllOf(hs: set<TokenHash>, write: Write): map<TokenHash, Write> {
    map h | h in hs :: write
  }

  /** Writing what is left to revoke, row by row, and committing. */
  lemma {:induction false} RevokingRuns(
      cfg: Settings, s: State, todo: set<TokenHash>, w: Option<Sweep>, done: set<TokenHash>)
    returns (run: seq<Action>)
    requires s.txns == map[0 := Txn(Revoking(todo, w), AllOf(done, Revoke))]
    requires todo <= s.store.rows.Keys
    ensures Computes(cfg, s, run, RT.Revoked(s.store.rows, done + todo), None)
    ensures forall a | a in run :: a.WriteRevoke? || a == Commit(0)
    decreases todo
  {
    var writes := AllOf(done, Revoke);
    if todo == {} {
      assert done + todo == done;
      assert ApplyWrites(s.store.rows, writes) == RT.Revoked(s.store.rows, done);
      CommitAlone(cfg, s, 0, s.txns[0]);
      run := [Commit(0)] + [];
    } else {
      var h :| h in todo;
      var s' := Next(cfg, s, WriteRevoke(0, h));
      assert writes[h := Revoke] == AllOf(done + {h}, Revoke);
      assert s'.txns == map[0 := Txn(Revoking(todo - {h}, w), AllOf(done + {h}, Revoke))];
      run := RevokingRuns(cfg, s', todo - {h}, w, done + {h});
      assert done + {h} + (todo - {h}) == done + todo;
      PrependComputes(cfg, s, WriteRevoke(0, h), run, RT.Revoked(s.store.rows, done + todo), None);
      run := [WriteRevoke(0, h)] + run;
    }
  }

  /** A consumed token that has expired: the consume is committed alone. */
  lemma ExpiredRuns(cfg: Settings, s: State, raw: RawToken) returns (run: seq<Action>)
    requires Quiet(cfg, s) && Live(s.store.rows, Sha256(raw)) && s.store.rows[Sha256(raw)].expires < s.store.now
    ensures Computes(cfg, s, run, RT.Revoked(s.store.rows, {Sha256(raw)}), None)
  {
    var rows := RT.Revoked(s.store.rows, {Sha256(raw)});
    var s1 := Next(cfg, s, Consume(0, raw));
    var s2 := Next(cfg, s1, CheckExpiry(0));
    assert s2.txns == map[0 := Txn(Revoking({}, None), map[Sha256(raw) := Revoke])];
    assert ApplyWrites(s.store.rows, map[Sha256(raw) := Revoke]) == rows;
    CommitAlone(cfg, s2, 0, s2.txns[0]);
    PrependComputes(cfg, s1, CheckExpiry(0), [Commit(0)] + [], rows, None);
    run := [CheckExpiry(0)] + ([Commit(0)] + []);
    PrependComputes(cfg, s, Consume(0, raw), run, rows, None);
    run := [Consume(0, raw)] + run;
  }

  /** The state of a request that has consumed an unexpired token. */
  function Spending(s: State, raw: RawToken): State
    requires Live(s.store.rows, Sha256(raw))
  {
    With(s, 0, Unexpired(Sha256(raw), s.store.rows[Sha256(raw)].(revoked := true)), map[Sha256(raw) := Revoke])
  }

  predicate Unspent(s: State, raw: RawToken) {
    Live(s.store.rows, Sha256(raw)) && s.store.rows[Sha256(raw)].expires >= s.store.now
  }

  /** Consuming an unexpired token and checking its expiry come before the rest. */
  lemma PrependConsume(cfg: Settings, s: State, raw: RawToken, rest: seq<Action>, rows: Rows, issue: Option<Issue>)
    requires Quiet(cfg, s) && Unspent(s, raw)
    requires Computes(cfg, Spending(s, raw), rest, rows, issue)
    ensures Computes(cfg, s, [Consume(0, raw)] + ([CheckExpiry(0)] + rest), rows, issue)
  {
    var s1 := Next(cfg, s, Consume(0, raw));
    assert Next(cfg, s1, CheckExpiry(0)).txns == Spending(s, raw).txns;
    assert Next(cfg, s1, CheckExpiry(0)) == Spending(s, raw);
    PrependComputes(cfg, s1, CheckExpiry(0), rest, rows, issue);
    PrependComputes(cfg, s, Consume(0, raw), [CheckExpiry(0)] + rest, rows, issue);
  }

  /** A consumed token whose user is missing or inactive: likewise. */
  lemma NoUserRuns(cfg: Settings, s: State, raw: RawToken) returns (run: seq<Action>)
    requires Quiet(cfg, s) && Unspent(s, raw)
    requires var u := s.store.rows[Sha256(raw)].user; u !in s.store.users || !s.store.users[u].active
    ensures Computes(cfg, s, run, RT.Revoked(s.store.rows, {Sha256(raw)}), None)
  {
    var rows := RT.Revoked(s.store.rows, {Sha256(raw)});
    var s2 := Spending(s, raw);
    var s3 := Next(cfg, s2, CheckUser(0));
    assert s3.txns == map[0 := Txn(Revoking({}, None), map[Sha256(raw) := Revoke])];
    assert ApplyWrites(s.store.rows, map[Sha256(raw) := Revoke]) == rows;
    CommitAlone(cfg, s3, 0, s3.txns[0]);
    run := [CheckUser(0)] + ([Commit(0)] + []);
    PrependComputes(cfg, s2, CheckUser(0), [Commit(0)] + [], rows, None);
    PrependConsume(cfg, s, raw, run, rows, None);
    run := [Consume(0, raw)] + ([CheckExpiry(0)] + run);
  }

  /** A family has nothing left to revoke once its live token is consumed. */
  lemma ConsumedLeavesNoneLive(cfg: Settings, s: State, raw: RawToken)
    requires Inv(cfg, s) && Live(s.store.rows, Sha256(raw))
    ensures var h, rows := Sha256(raw), s.store.rows;
            var f, consumed := rows[h].family, RT.Revoked(rows, {h});
            && Targets(rows, map[h := Revoke], f) == {} && LiveIn(consumed, f) == {}
            && ApplyWrites(rows, map[h := Revoke]) == consumed == RT.Revoked(consumed, {})
  {}

  /** A consumed token of an older version: revoking the family finds nothing more to revoke. */
  lemma OutdatedRuns(cfg: Settings, s: State, raw: RawToken) returns (run: seq<Action>)
    requires Quiet(cfg, s) && Unspent(s, raw)
    requires var row := s.store.rows[Sha256(raw)];
             row.user in s.store.users && s.store.users[row.user].active
             && row.version != s.store.users[row.user].version
    ensures var consumed := RT.Revoked(s.store.rows, {Sha256(raw)});
            Computes(cfg, s, run, RT.Revoked(consumed, LiveIn(consumed, s.store.rows[Sha256(raw)].family)), None)
  {
    var h := Sha256(raw);
    var rows := RT.Revoked(s.store.rows, {h});
    ConsumedLeavesNoneLive(cfg, s, raw);
    var s2 := Spending(s, raw);
    var s3 := Next(cfg, s2, CheckUser(0));
    assert s3.txns == map[0 := Txn(Condemned(s.store.rows[h].family), map[h := Revoke])];
    var s4 := Next(cfg, s3, SelectFamily(0));
    CommitAlone(cfg, s4, 0, s4.txns[0]);
    run := [SelectFamily(0)] + ([Commit(0)] + []);
    PrependComputes(cfg, s3, SelectFamily(0), [Commit(0)] + [], rows, None);
    PrependComputes(cfg, s2, CheckUser(0), run, rows, None);
    run := [CheckUser(0)] + run;
    PrependConsume(cfg, s, raw, run, rows, None);
    run := [Consume(0, raw)] + ([CheckExpiry(0)] + run);
  }

  /** The state in which the replacement is about to be committed. */
  function AboutToRotate(cfg: Settings, s: State, raw: RawToken, next: RawToken): State
    requires Refreshable(s.store.users, s.store.rows, s.store.now, Sha256(raw))
  {
    var h, n := Sha256(raw), Sha256(next);
    var row := s.store.rows[h];
    var anew := RT.NewRow(cfg, s.store.users, s.store.now, row.user, row.family);
    With(s, 0, Minted(RT.Signed(cfg, s.store.users, s.store.now, row.user), n, anew, Some(h)),
         map[h := Revoke, n := Insert(anew)])
  }

  lemma ChecksThenMint(cfg: Settings, s: State, raw: RawToken, next: RawToken)
    requires Quiet(cfg, s) && Refreshable(s.store.users, s.store.rows, s.store.now, Sha256(raw))
    requires Sha256(next) !in s.store.issued
    ensures var s2 := Spending(s, raw);
            && Enabled(s2, CheckUser(0))
            && var s3 := Next(cfg, s2, CheckUser(0));
            var mint := Mint(0, next, s.store.rows[Sha256(raw)].family, s.store.now);
            Enabled(s3, mint) && Next(cfg, s3, mint) == AboutToRotate(cfg, s, raw, next)
  {
    var h := Sha256(raw);
    var row := s.store.rows[h];
    var s3 := Next(cfg, Spending(s, raw), CheckUser(0));
    assert s3.txns == map[0 := Txn(Ready(row.user, row.version, Some(row.family), Some(h)), map[h := Revoke])];
    var s4 := Next(cfg, s3, Mint(0, next, row.family, s.store.now));
    assert s4.txns == AboutToRotate(cfg, s, raw, next).txns;
  }

  /** A consumed token that passes every check is replaced. */
  lemma RotatedRuns(cfg: Settings, s: State, raw: RawToken, next: RawToken) returns (run: seq<Action>)
    requires Quiet(cfg, s) && Refreshable(s.store.users, s.store.rows, s.store.now, Sha256(raw))
    requires Sha256(next) !in s.store.issued
    ensures var row := s.store.rows[Sha256(raw)];
            Computes(cfg, s, run,
              RT.Revoked(s.store.rows, {Sha256(raw)})
                [Sha256(next) := RT.NewRow(cfg, s.store.users, s.store.now, row.user, row.family)],
              Some(Issue(Rotated(row.family, Sha256(raw), Sha256(next)),
                         RT.Signed(cfg, s.store.users, s.store.now, row.user))))
  {
    var h, n := Sha256(raw), Sha256(next);
    var row := s.store.rows[h];
    var s2 := Spending(s, raw);
    var s3 := Next(cfg, s2, CheckUser(0));
    var s4 := AboutToRotate(cfg, s, raw, next);
    var mint := Mint(0, next, row.family, s.store.now);
    ChecksThenMint(cfg, s, raw, next);
    var rows := RT.Revoked(s.store.rows, {h})[n := s4.txns[0].phase.row];
    assert ApplyWrites(s.store.rows, s4.txns[0].writes) == rows;
    var issue := Some(Issue(Rotated(row.family, h, n), s4.txns[0].phase.access));
    assert s4.txns == map[0 := s4.txns[0]];
    CommitAlone(cfg, s4, 0, s4.txns[0]);
    PrependComputes(cfg, s3, mint, [Commit(0)] + [], rows, issue);
    run := [mint] + ([Commit(0)] + []);
    PrependComputes(cfg, s2, CheckUser(0), run, rows, issue);
    run := [CheckUser(0)] + run;
    PrependConsume(cfg, s, raw, run, rows, issue);
    run := [Consume(0, raw)] + ([CheckExpiry(0)] + run);
  }

  /** A token that was consumed before: its family is revoked. */
  lemma ReplayedRuns(cfg: Settings, s: State, raw: RawToken) returns (run: seq<Action>)
    requires Quiet(cfg, s) && Sha256(raw) in s.store.rows && s.store.rows[Sha256(raw)].revoked
    ensures Computes(cfg, s, run,
              RT.Revoked(s.store.rows, LiveIn(s.store.rows, s.store.rows[Sha256(raw)].family)), None)
  {
    var f := s.store.rows[Sha256(raw)].family;
    var live := LiveIn(s.store.rows, f);
    var rows := RT.Revoked(s.store.rows, live);
    var s1 := Next(cfg, s, Consume(0, raw));
    var s2 := Next(cfg, s1, LookUp(0));
    var s3 := Next(cfg, s2, SelectFamily(0));
    assert Targets(s.store.rows, map[], f) == live;
    assert s3.txns == map[0 := Txn(Revoking(live, s3.txns[0].phase.sweep), AllOf({}, Revoke))];
    assert {} + live == live;
    run := RevokingRuns(cfg, s3, live, s3.txns[0].phase.sweep, {});
    PrependComputes(cfg, s2, SelectFamily(0), run, rows, None);
    run := [SelectFamily(0)] + run;
    PrependComputes(cfg, s1, LookUp(0), run, rows, None);
    run := [LookUp(0)] + run;
    PrependComputes(cfg, s, Consume(0, raw), run, rows, None);
    run := [Consume(0, raw)] + run;
  }

  lemma UnknownRuns(cfg: Settings, s: State, raw: RawToken) returns (run: seq<Action>)
    requires Quiet(cfg, s) && Sha256(raw) !in s.store.rows
    ensures Computes(cfg, s, run, s.store.rows, None)
  {
    var s1 := Next(cfg, s, Consume(0, raw));
    var s2 := Next(cfg, s1, LookUp(0));
    assert ApplyWrites(s.store.rows, map[]) == s.store.rows;
    CommitAlone(cfg, s2, 0, s2.txns[0]);
    PrependComputes(cfg, s1, LookUp(0), [Commit(0)] + [], s.store.rows, None);
    PrependComputes(cfg, s, Consume(0, raw), [LookUp(0)] + ([Commit(0)] + []), s.store.rows, None);
    run := [Consume(0, raw)] + ([LookUp(0)] + ([Commit(0)] + []));
  }

  /** The pair a refresh hands out, if any. */
  function RefreshIssue(cfg: Settings, st: Store, raw: RawToken, next: RawToken): (issue: Option<Issue>)
    ensures issue.Some? ==> Sha256(raw) in st.rows
  {
    match RT.RefreshReply(cfg, st.users, st.rows, st.now, raw, next)
    case Some(pair) => Some(Issue(Rotated(st.rows[Sha256(raw)].family, Sha256(raw), Sha256(next)), pair.access))
    case None => None
  }

  /** Every serial refresh, whatever its outcome, is a run of the interleaved steps that leaves the
      same rows, and it logs a rotation and grants the reply's access token exactly when it replies
      with a token pair. */
  lemma SerialRefreshIsARun(cfg: Settings, s: State, raw: RawToken, next: RawToken) returns (run: seq<Action>)
    requires Quiet(cfg, s) && Sha256(next) !in s.store.issued
    ensures var st := s.store;
            Computes(cfg, s, run, RT.RefreshedRows(cfg, st.users, st.rows, st.now, raw, next),
                     RefreshIssue(cfg, st, raw, next))
  {
    var st, h := s.store, Sha256(raw);
    if h !in st.rows { run := UnknownRuns(cfg, s, raw); }
    else if st.rows[h].revoked { run := ReplayedRuns(cfg, s, raw); }
    else if st.rows[h].expires < st.now { run := ExpiredRuns(cfg, s, raw); }
    else if st.rows[h].user !in st.users || !st.users[st.rows[h].user].active { run := NoUserRuns(cfg, s, raw); }
    else if st.rows[h].version != st.users[st.rows[h].user].version { run := OutdatedRuns(cfg, s, raw); }
    else { run := RotatedRuns(cfg, s, raw, next); }
  }

  /** The state in which a login is about to be committed. */
  function AboutToLogIn(cfg: Settings, s: State, u: UserId, raw: RawToken, f: FamilyId): State
    requires u in s.store.users
  {
    var anew := RT.NewRow(cfg, s.store.users, s.store.now, u, f);
    With(s, 0, Minted(RT.Signed(cfg, s.store.users, s.store.now, u), Sha256(raw), anew, None),
         map[Sha256(raw) := Insert(anew)])
  }

  lemma LoginMints(cfg: Settings, s: State, u: UserId, raw: RawToken, f: FamilyId)
    requires Quiet(cfg, s) && u in s.store.users && Sha256(raw) !in s.store.issued && f !in s.store.sessions
    ensures Enabled(s, BeginLogin(0, u))
    ensures var s1, mint := Next(cfg, s, BeginLogin(0, u)), Mint(0, raw, f, s.store.now);
            && Enabled(s1, mint) && Next(cfg, s1, mint) == AboutToLogIn(cfg, s, u, raw, f)
  {
    var s1 := Next(cfg, s, BeginLogin(0, u));
    assert s1.txns == map[0 := Txn(Ready(u, s.store.users[u].version, None, None), map[])];
    assert Next(cfg, s1, Mint(0, raw, f, s.store.now)).txns == AboutToLogIn(cfg, s, u, raw, f).txns;
  }

  lemma LoginCommits(cfg: Settings, s: State, u: UserId, raw: RawToken, f: FamilyId)
    requires s.txns == map[] && u in s.store.users
    ensures var (v, now) := (s.store.users[u].version, s.store.now);
            Computes(cfg, AboutToLogIn(cfg, s, u, raw, f), [Commit(0)] + [],
              s.store.rows[Sha256(raw) := Row(u, f, v, false, now + cfg.refreshDays * 86400)],
              Some(Issue(LoggedIn(f, Sha256(raw)), AccessToken(u, v, now + cfg.accessMinutes * 60))))
  {
    var n, anew := Sha256(raw), RT.NewRow(cfg, s.store.users, s.store.now, u, f);
    var s2 := AboutToLogIn(cfg, s, u, raw, f);
    assert s2.txns == map[0 := s2.txns[0]];
    assert ApplyWrites(s.store.rows, map[n := Insert(anew)]) == s.store.rows[n := anew];
    CommitAlone(cfg, s2, 0, s2.txns[0]);
  }

  /** A serial login is a run: it starts a family with one row and grants one access token. */
  lemma SerialLoginIsARun(cfg: Settings, s: State, u: UserId, raw: RawToken, f: FamilyId) returns (run: seq<Action>)
    requires Quiet(cfg, s) && u in s.store.users && Sha256(raw) !in s.store.issued && f !in s.store.sessions
    ensures var (v, now) := (s.store.users[u].version, s.store.now);
            Computes(cfg, s, run,
              s.store.rows[Sha256(raw) := Row(u, f, v, false, now + cfg.refreshDays * 86400)],
              Some(Issue(LoggedIn(f, Sha256(raw)), AccessToken(u, v, now + cfg.accessMinutes * 60))))
  {
    var (v, now) := (s.store.users[u].version, s.store.now);
    var rows := s.store.rows[Sha256(raw) := Row(u, f, v, false, now + cfg.refreshDays * 86400)];
    var issue := Some(Issue(LoggedIn(f, Sha256(raw)), AccessToken(u, v, now + cfg.accessMinutes * 60)));
    var mint := Mint(0, raw, f, now);
    LoginMints(cfg, s, u, raw, f);
    LoginCommits(cfg, s, u, raw, f);
    PrependComputes(cfg, Next(cfg, s, BeginLogin(0, u)), mint, [Commit(0)] + [], rows, issue);
    PrependComputes(cfg, s, BeginLogin(0, u), [mint] + ([Commit(0)] + []), rows, issue);
    run := [BeginLogin(0, u)] + ([mint] + ([Commit(0)] + []));
  }

  /** A serial logout is a run: it revokes at most the token presented. */
  lemma SerialLogoutIsARun(cfg: Settings, s: State, raw: RawToken) returns (run: seq<Action>)
    requires Quiet(cfg, s)
    ensures Computes(cfg, s, run, RT.Revoked(s.store.rows, {Sha256(raw)}), None)
  {
    var h := Sha256(raw);
    var todo := if Live(s.store.rows, h) then {h} else {};
    var s1 := Next(cfg, s, BeginLogout(0, raw));
    assert s1.txns == map[0 := Txn(Revoking(todo, None), AllOf({}, Revoke))];
    run := RevokingRuns(cfg, s1, todo, None, {});
    assert RT.Revoked(s.store.rows, {} + todo) == RT.Revoked(s.store.rows, {h});
    PrependComputes(cfg, s, BeginLogout(0, raw), run, RT.Revoked(s.store.rows, {h}), None);
    run := [BeginLogout(0, raw)] + run;
  }

  /** Revoking a user's tokens is a run: it revokes exactly the user's unrevoked rows. */
  lemma SerialRevokeUserIsARun(cfg: Settings, s: State, u: UserId) returns (run: seq<Action>)
    requires Quiet(cfg, s)
    ensures Computes(cfg, s, run, RT.Revoked(s.store.rows, LiveOfUser(s.store.rows, u)), None)
  {
    var todo := LiveOfUser(s.store.rows, u);
    var s1 := Next(cfg, s, BeginRevokeUser(0, u));
    var w := Some(UserSweep(u, s.store.issued));
    assert s1.txns == map[0 := Txn(Revoking(todo, w), AllOf({}, Revoke))];
    run := RevokingRuns(cfg, s1, todo, w, {});
    assert {} + todo == todo;
    PrependComputes(cfg, s, BeginRevokeUser(0, u), run, RT.Revoked(s.store.rows, todo), None);
    run := [BeginRevokeUser(0, u)] + run;
  }

  /** Deleting what is left to delete, row by row, and committing. */
  lemma {:induction false} DeletingRuns(cfg: Settings, s: State, todo: set<TokenHash>, done: set<TokenHash>)
    returns (run: seq<Action>)
    requires s.txns == map[0 := Txn(Deleting(todo), AllOf(done, Write.Delete))]
    requires todo <= s.store.rows.Keys
    ensures Computes(cfg, s, run, s.store.rows - (done + todo), None)
    decreases todo
  {
    var writes := AllOf(done, Write.Delete);
    if todo == {} {
      assert done + todo == done;
      assert ApplyWrites(s.store.rows, writes) == s.store.rows - done;
      CommitAlone(cfg, s, 0, s.txns[0]);
      run := [Commit(0)] + [];
    } else {
      var h :| h in todo;
      var s' := Next(cfg, s, WriteDelete(0, h));
      assert writes[h := Write.Delete] == AllOf(done + {h}, Write.Delete);
      assert s'.txns == map[0 := Txn(Deleting(todo - {h}), AllOf(done + {h}, Write.Delete))];
      run := DeletingRuns(cfg, s', todo - {h}, done + {h});
      assert done + {h} + (todo - {h}) == done + todo;
      PrependComputes(cfg, s, WriteDelete(0, h), run, s.store.rows - (done + todo), None);
      run := [WriteDelete(0, h)] + run;
    }
  }

  /** A cleanup is a run: it deletes exactly the expired rows. */
  lemma SerialCleanupIsARun(cfg: Settings, s: State) returns (run: seq<Action>)
    requires Quiet(cfg, s)
    ensures Computes(cfg, s, run, s.store.rows - RT.Expired(s.store.rows, s.store.now), None)
  {
    var todo := RT.Expired(s.store.rows, s.store.now);
    var s1 := Next(cfg, s, BeginCleanup(0));
    assert s1.txns == map[0 := Txn(Deleting(todo), AllOf({}, Write.Delete))];
    run := DeletingRuns(cfg, s1, todo, {});
    assert {} + todo == todo;
    PrependComputes(cfg, s, BeginCleanup(0), run, s.store.rows - todo, None);
    run := [BeginCleanup(0)] + run;
  }

  /** In every reachable state, a refresh taken as one transaction with a known token leaves its
      family's unrevoked rows equal to the new token on success and empty on any 401; an unknown
      token is refused and changes nothing. */
  lemma ReachableRefreshRotatesOrEmpties(cfg: Settings, start: int, run: seq<Action>, raw: RawToken, next: RawToken)
    requires Valid(cfg, Initial(start), run)
    requires Sha256(next) !in Run(cfg, Initial(start), run).store.issued
    ensures var st := Run(cfg, Initial(start), run).store;
            var reply := RT.RefreshReply(cfg, st.users, st.rows, st.now, raw, next);
            var rows' := RT.RefreshedRows(cfg, st.users, st.rows, st.now, raw, next);
            if Sha256(raw) in st.rows
            then LiveIn(rows', st.rows[Sha256(raw)].family) == if reply.Some? then {Sha256(next)} else {}
            else reply == None && rows' == st.rows
  {
    RunKeeps(cfg, Initial(start), run);
    var s := Run(cfg, Initial(start), run);
    var st := s.store;
    InvGivesOneLivePerFamily(cfg, s);
    if Sha256(raw) in st.rows { RT.RefreshRotatesOrEmpties(cfg, st.users, st.rows, st.now, raw, next); }
    else { RT.UnknownTokenIsRefused(cfg, st.users, st.rows, st.now, raw, next); }
  }

  /** A replay is detected however late: a token used or revoked at some point of a run, presented
      again in any later state before it expires and while its user exists, is refused and its family
      is left without an unrevoked row, when that refresh runs as one transaction. */
  lemma ReplaysAreDetected(
      cfg: Settings, start: int, before: seq<Action>, after: seq<Action>, raw: RawToken, next: RawToken)
    requires Valid(cfg, Initial(start), before)
    requires Valid(cfg, Run(cfg, Initial(start), before), after)
    requires var st := Run(cfg, Initial(start), before).store;
             Sha256(raw) in st.rows && st.rows[Sha256(raw)].revoked
    requires Sha256(next) !in Run(cfg, Run(cfg, Initial(start), before), after).store.issued
    ensures var row := Run(cfg, Initial(start), before).store.rows[Sha256(raw)];
            var st := Run(cfg, Run(cfg, Initial(start), before), after).store;
            st.now <= row.expires && row.user in st.users ==>
              && RT.RefreshReply(cfg, st.users, st.rows, st.now, raw, next) == None
              && LiveIn(RT.RefreshedRows(cfg, st.users, st.rows, st.now, raw, next), row.family) == {}
  {
    UsedTokensStayKnown(cfg, start, before, after, Sha256(raw));
    RunAppend(cfg, Initial(start), before, after);
    ReachableRefreshRotatesOrEmpties(cfg, start, before + after, raw, next);
  }
}
