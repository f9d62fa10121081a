/**
 Revocations that race a refresh: a revocation reads the committed rows, a refresh commits a
 successor, and the revocation then writes what it had read.
 */
module RotationRaces {
  import opened Wrappers
  import opened TokenModel
  import opened RotationSteps
  import opened RotationInvariant
  import opened RotationTheorems
  import opened RotationRefinement
  import RT = RefreshTransactions

  // ---------------------------------------------------------------------------------------
  // A refresh in the middle of a revocation.
  // ---------------------------------------------------------------------------------------

  ghost predicate CanRefresh(s: State, current: RawToken, next: RawToken) {
    && s.txns == map[]
    && Refreshable(s.store.users, s.store.rows, s.store.now, Sha256(current))
    && Sha256(next) !in s.store.issued
  }

  /** Both transactions between the halves: a revocation that has read the rows in `todo`, and the
      refresh that has consumed its token. */
  function Midway(s: State, current: RawToken, todo: set<TokenHash>, w: Sweep): State
    requires Sha256(current) in s.store.rows
  {
    var h := Sha256(current);
    var row := s.store.rows[h];
    s.(txns := map[0 := Txn(Revoking(todo, Some(w)), map[]),
                   1 := Txn(Consumed(h, row.(revoked := true)), map[h := Revoke])])
  }

  /** The rest of the refresh, which commits `next`. */
  function RefreshPart(next: RawToken, f: FamilyId, now: int): seq<Action> {
    [CheckExpiry(1)] + ([CheckUser(1)] + ([Mint(1, next, f, now)] + ([Commit(1)] + [])))
  }

  /** The refresh before it commits. */
  function Minting(
      cfg: Settings, s: State, current: RawToken, next: RawToken, todo: set<TokenHash>, w: Sweep): State
    requires Sha256(current) in s.store.rows
  {
    var h, m := Sha256(current), Midway(s, current, todo, w);
    var row := s.store.rows[h];
    var anew := Row(row.user, row.family, row.version, false, s.store.now + RefreshTtl(cfg));
    With(m, 1, Minted(AccessToken(row.user, row.version, s.store.now + AccessTtl(cfg)), Sha256(next), anew, Some(h)),
         map[h := Revoke, Sha256(next) := Insert(anew)])
  }

  lemma MintPartRuns(
      cfg: Settings, s: State, current: RawToken, next: RawToken, todo: set<TokenHash>, w: Sweep)
    requires Inv(cfg, s) && CanRefresh(s, current, next)
    ensures var m, f := Midway(s, current, todo, w), s.store.rows[Sha256(current)].family;
            && Enabled(m, CheckExpiry(1))
            && var s1 := Next(cfg, m, CheckExpiry(1));
            && Enabled(s1, CheckUser(1))
            && var s2 := Next(cfg, s1, CheckUser(1));
            && Enabled(s2, Mint(1, next, f, s.store.now))
            && Next(cfg, s2, Mint(1, next, f, s.store.now)) == Minting(cfg, s, current, next, todo, w)
  {
    var h := Sha256(current);
    var row := s.store.rows[h];
    var m := Midway(s, current, todo, w);
    var s2 := Next(cfg, Next(cfg, m, CheckExpiry(1)), CheckUser(1));
    assert s2.txns[1] == Txn(Ready(row.user, row.version, Some(row.family), Some(h)), map[h := Revoke]);
    var s3 := Next(cfg, s2, Mint(1, next, row.family, s.store.now));
    assert s3.txns == Minting(cfg, s, current, next, todo, w).txns;
  }

  lemma RefreshCommits(
      cfg: Settings, s: State, current: RawToken, next: RawToken, todo: set<TokenHash>, w: Sweep)
    requires Sha256(current) in s.store.rows && current != next
    ensures var e, row := Next(cfg, Minting(cfg, s, current, next, todo, w), Commit(1)), s.store.rows[Sha256(current)];
            var anew := Row(row.user, row.family, row.version, false, s.store.now + RefreshTtl(cfg));
            && e.store.rows == s.store.rows[Sha256(current) := row.(revoked := true)][Sha256(next) := anew]
            && e.txns == map[0 := Midway(s, current, todo, w).txns[0]]
  {}

  lemma RefreshPartRuns(
      cfg: Settings, s: State, current: RawToken, next: RawToken, todo: set<TokenHash>, w: Sweep)
    requires Inv(cfg, s) && CanRefresh(s, current, next)
    ensures var m, row := Midway(s, current, todo, w), s.store.rows[Sha256(current)];
            var run := RefreshPart(next, row.family, s.store.now);
            && Valid(cfg, m, run)
            && Run(cfg, m, run) == Next(cfg, Minting(cfg, s, current, next, todo, w), Commit(1))
  {
    var m := Midway(s, current, todo, w);
    var s1 := Next(cfg, m, CheckExpiry(1));
    var s2 := Next(cfg, s1, CheckUser(1));
    var mint := Mint(1, next, s.store.rows[Sha256(current)].family, s.store.now);
    MintPartRuns(cfg, s, current, next, todo, w);
    Prepend(cfg, Minting(cfg, s, current, next, todo, w), Commit(1), []);
    Prepend(cfg, s2, mint, [Commit(1)] + []);
    Prepend(cfg, s1, CheckUser(1), [mint] + ([Commit(1)] + []));
    Prepend(cfg, m, CheckExpiry(1), [CheckUser(1)] + ([mint] + ([Commit(1)] + [])));
  }

  // ---------------------------------------------------------------------------------------
  // A replay that races a rotation.
  // ---------------------------------------------------------------------------------------

  /** The first half of the race: the replay of `spent` (transaction 0) reads the family while a
      refresh of `current` (transaction 1) has consumed it and not yet committed. */
  function ReadHalf(spent: RawToken, current: RawToken): seq<Action> {
    [Consume(0, spent)] + ([LookUp(0)] + ([Consume(1, current)] + ([SelectFamily(0)] + [])))
  }

  /** Last, the replay revokes what it had read. */
  function RevokePart(h: TokenHash): seq<Action> {
    [WriteRevoke(0, h)] + ([Commit(0)] + [])
  }

  ghost predicate CanRace(s: State, spent: RawToken, current: RawToken, next: RawToken) {
    && CanRefresh(s, current, next)
    && Sha256(spent) in s.store.rows && s.store.rows[Sha256(spent)].revoked
    && s.store.rows[Sha256(spent)].family == s.store.rows[Sha256(current)].family
  }

  lemma ReadHalfRuns(cfg: Settings, s: State, spent: RawToken, current: RawToken, next: RawToken)
    requires Inv(cfg, s) && CanRace(s, spent, current, next)
    ensures Valid(cfg, s, ReadHalf(spent, current))
    ensures var h := Sha256(current);
            Run(cfg, s, ReadHalf(spent, current))
            == Midway(s, current, {h}, FamilySweep(s.store.rows[h].family, h))
  {
    var h := Sha256(current);
    var row := s.store.rows[h];
    var s1 := Next(cfg, s, Consume(0, spent));
    var s2 := Next(cfg, s1, LookUp(0));
    assert s2.txns == map[0 := Txn(Condemned(row.family), map[])];
    var s3 := Next(cfg, s2, Consume(1, current));
    assert LiveIn(s3.store.rows, row.family) == {h};
    assert Targets(s3.store.rows, map[], row.family) == {h};
    var s4 := Next(cfg, s3, SelectFamily(0));
    assert s4.txns == Midway(s, current, {h}, FamilySweep(row.family, h)).txns;
    Prepend(cfg, s3, SelectFamily(0), []);
    Prepend(cfg, s2, Consume(1, current), [SelectFamily(0)] + []);
    Prepend(cfg, s1, LookUp(0), [Consume(1, current)] + ([SelectFamily(0)] + []));
    Prepend(cfg, s, Consume(0, spent), [LookUp(0)] + ([Consume(1, current)] + ([SelectFamily(0)] + [])));
  }

  lemma RevokePartRuns(cfg: Settings, s: State, h: TokenHash, todo: Txn)
    requires s.txns == map[0 := todo]
    requires todo.phase.Revoking? && todo.phase.todo == {h} && todo.writes == map[]
    requires h in s.store.rows
    ensures Valid(cfg, s, RevokePart(h))
    ensures Run(cfg, s, RevokePart(h)).store.rows == s.store.rows[h := s.store.rows[h].(revoked := true)]
  {
    var s1 := Next(cfg, s, WriteRevoke(0, h));
    assert {h} - {h} == {};
    assert s1.txns[0].phase.todo == {} && s1.txns[0].writes == map[h := Revoke];
    Prepend(cfg, s1, Commit(0), []);
    Prepend(cfg, s, WriteRevoke(0, h), [Commit(0)] + []);
  }

  /** A replay need not empty the family: whenever a spent and a refreshable token of one family
      meet, some interleaving rejects the replay and still leaves the newer token live. */
  lemma ReplayCanMissASuccessor(cfg: Settings, s: State, spent: RawToken, current: RawToken, next: RawToken)
    requires Inv(cfg, s) && CanRace(s, spent, current, next)
    ensures var f := s.store.rows[Sha256(current)].family;
            var run := ReadHalf(spent, current) + RefreshPart(next, f, s.store.now) + RevokePart(Sha256(current));
            && Valid(cfg, s, run)
            && run[0] == Consume(0, spent) && run[|run| - 1] == Commit(0)
            && LiveIn(Run(cfg, s, run).store.rows, f) == {Sha256(next)}
  {
    var h, n := Sha256(current), Sha256(next);
    var f := s.store.rows[h].family;
    var todo, w := {h}, FamilySweep(f, h);
    ReadHalfRuns(cfg, s, spent, current, next);
    RefreshPartRuns(cfg, s, current, next, todo, w);
    RefreshCommits(cfg, s, current, next, todo, w);
    var m := Midway(s, current, todo, w);
    var e := Run(cfg, m, RefreshPart(next, f, s.store.now));
    RevokePartRuns(cfg, e, h, m.txns[0]);
    ThreePartRun(cfg, s, ReadHalf(spent, current), RefreshPart(next, f, s.store.now), RevokePart(h));
    var rows := Run(cfg, e, RevokePart(h)).store.rows;
    assert n in LiveIn(rows, f);
    assert h in LiveIn(s.store.rows, f);
    forall k | k in LiveIn(rows, f) ensures k == n {
      assert k == n || (k != h && k in LiveIn(s.store.rows, f));
    }
  }

  // ---------------------------------------------------------------------------------------
  // A revocation of all of a user's tokens that races a rotation.
  // ---------------------------------------------------------------------------------------

  /** The revocation reads the user's rows; a refresh of one of them has consumed its token. */
  function UserReadHalf(u: UserId, current: RawToken): seq<Action> {
    [BeginRevokeUser(0, u)] + ([Consume(1, current)] + [])
  }

  lemma UserReadHalfRuns(cfg: Settings, s: State, current: RawToken, next: RawToken)
    requires Inv(cfg, s) && CanRefresh(s, current, next)
    ensures var u := s.store.rows[Sha256(current)].user;
            && Valid(cfg, s, UserReadHalf(u, current))
            && Run(cfg, s, UserReadHalf(u, current))
               == Midway(s, current, LiveOfUser(s.store.rows, u), UserSweep(u, s.store.issued))
  {
    var u := s.store.rows[Sha256(current)].user;
    var s1 := Next(cfg, s, BeginRevokeUser(0, u));
    var s2 := Next(cfg, s1, Consume(1, current));
    assert s2.txns == Midway(s, current, LiveOfUser(s.store.rows, u), UserSweep(u, s.store.issued)).txns;
    Prepend(cfg, s1, Consume(1, current), []);
    Prepend(cfg, s, BeginRevokeUser(0, u), [Consume(1, current)] + []);
  }

  lemma AfterUserRace(rows: Rows, u: UserId, h: TokenHash, n: TokenHash, anew: Row, rows': Rows)
    requires h in rows && anew.user == u && !anew.revoked && h != n
    requires n !in LiveOfUser(rows, u)
    requires rows' == RT.Revoked(rows[h := rows[h].(revoked := true)][n := anew], LiveOfUser(rows, u))
    ensures LiveOfUser(rows', u) == {n}
  {
    assert n in LiveOfUser(rows', u);
    forall k | k in LiveOfUser(rows', u) ensures k == n {}
  }

  /** The revocation's writes, after the refresh has committed. */
  lemma UserRevokePartRuns(cfg: Settings, s: State, current: RawToken, next: RawToken) returns (run: seq<Action>)
    requires Inv(cfg, s) && CanRefresh(s, current, next)
    ensures var u := s.store.rows[Sha256(current)].user;
            var w := UserSweep(u, s.store.issued);
            var e := Next(cfg, Minting(cfg, s, current, next, LiveOfUser(s.store.rows, u), w), Commit(1));
            && Valid(cfg, e, run)
            && (forall a | a in run :: a.WriteRevoke? || a == Commit(0))
            && Run(cfg, e, run).txns == map[]
            && LiveOfUser(Run(cfg, e, run).store.rows, u) == {Sha256(next)}
  {
    var h, n := Sha256(current), Sha256(next);
    var u := s.store.rows[h].user;
    var todo, w := LiveOfUser(s.store.rows, u), UserSweep(u, s.store.issued);
    var e := Next(cfg, Minting(cfg, s, current, next, todo, w), Commit(1));
    RefreshCommits(cfg, s, current, next, todo, w);
    assert AllOf({}, Revoke) == map[];
    run := RevokingRuns(cfg, e, todo, Some(w), {});
    assert {} + todo == todo;
    AfterUserRace(s.store.rows, u, h, n, e.store.rows[n], Run(cfg, e, run).store.rows);
  }

  lemma ThreePartRun(cfg: Settings, s: State, first: seq<Action>, second: seq<Action>, third: seq<Action>)
    requires Valid(cfg, s, first) && Valid(cfg, Run(cfg, s, first), second)
    requires Valid(cfg, Run(cfg, Run(cfg, s, first), second), third)
    ensures Valid(cfg, s, first + second + third)
    ensures Run(cfg, s, first + second + third) == Run(cfg, Run(cfg, Run(cfg, s, first), second), third)
  {
    RunAppend(cfg, s, first, second);
    RunAppend(cfg, s, first + second, third);
  }

  /** Revoking all of a user's tokens need not leave none: whenever the user has a refreshable token,
      some interleaving commits the revocation and leaves the token's successor live. */
  lemma UserRevocationCanMissASuccessor(cfg: Settings, s: State, current: RawToken, next: RawToken)
    returns (run: seq<Action>)
    requires Inv(cfg, s) && CanRefresh(s, current, next)
    ensures var row := s.store.rows[Sha256(current)];
            && Valid(cfg, s, run)
            && UserReadHalf(row.user, current) + RefreshPart(next, row.family, s.store.now) <= run
            && (forall a | a in run :: !a.Rollback?)
            && Run(cfg, s, run).txns == map[]
            && LiveOfUser(Run(cfg, s, run).store.rows, row.user) == {Sha256(next)}
  {
    var row := s.store.rows[Sha256(current)];
    var todo, w := LiveOfUser(s.store.rows, row.user), UserSweep(row.user, s.store.issued);
    var first, second := UserReadHalf(row.user, current), RefreshPart(next, row.family, s.store.now);
    UserReadHalfRuns(cfg, s, current, next);
    RefreshPartRuns(cfg, s, current, next, todo, w);
    var third := UserRevokePartRuns(cfg, s, current, next);
    ThreePartRun(cfg, s, first, second, third);
    run := first + second + third;
  }
}
