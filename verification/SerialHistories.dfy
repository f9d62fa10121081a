/**
 Histories of whole requests, as `CleanupSimulation` compares them, are runs of the interleaved
 protocol, so all that is proved of runs holds of them.
 */
module SerialHistories {
  import opened Wrappers
  import opened TokenModel
  import opened RotationSteps
  import opened RotationInvariant
  import opened RotationTheorems
  import opened RotationRefinement
  import RT = RefreshTransactions
  import CS = CleanupSimulation

  /** The protocol state holds the tables of the world, with nothing in flight; the world may have
      drawn random values that no row ever carried. */
  ghost predicate Same(cfg: Settings, w: CS.World, s: State) {
    && Quiet(cfg, s)
    && w.users == s.store.users && w.rows == s.store.rows && w.now == s.store.now && w.known == s.store.known
    && s.store.sessions.Keys <= w.families && s.store.issued <= w.issued
  }

  /** The access token of a reply, if it has one, was granted. */
  ghost predicate Granted(st: Store, reply: CS.Reply) {
    reply.Issued? ==> Genuine(st, reply.pair.access)
  }

  /** The run of protocol steps does what the request does, and grants the access token of its reply. */
  ghost predicate Does(cfg: Settings, w: CS.World, s: State, r: CS.Request, run: seq<Action>)
    requires CS.Enabled(w, r)
  {
    && Valid(cfg, s, run)
    && Same(cfg, CS.Serve(cfg, w, r).0, Run(cfg, s, run))
    && Granted(Run(cfg, s, run).store, CS.Serve(cfg, w, r).1)
  }

  lemma ComputesDoes(cfg: Settings, w: CS.World, s: State, r: CS.Request, run: seq<Action>, issue: Option<Issue>)
    requires Same(cfg, w, s) && CS.Enabled(w, r)
    requires r.Login? || r.Refresh? || r.Logout? || r.RevokeUser? || r.Cleanup?
    requires Computes(cfg, s, run, CS.Serve(cfg, w, r).0.rows, issue)
    requires issue.Some? ==>
               && issue.value.event.family in CS.Serve(cfg, w, r).0.families
               && issue.value.event.minted in CS.Serve(cfg, w, r).0.issued
    requires CS.Serve(cfg, w, r).1.Issued? ==> issue.Some? && issue.value.access == CS.Serve(cfg, w, r).1.pair.access
    ensures Does(cfg, w, s, r, run)
  {
    RunKeeps(cfg, s, run);
    if issue.Some? {
      var g := Grant(issue.value.access, issue.value.event.family);
      assert g in Run(cfg, s, run).store.grants && g.access == issue.value.access;
    }
  }

  lemma RefreshIsARun(cfg: Settings, w: CS.World, s: State, r: CS.Request) returns (run: seq<Action>)
    requires Same(cfg, w, s) && CS.Enabled(w, r) && r.Refresh?
    ensures Does(cfg, w, s, r, run)
  {
    run := SerialRefreshIsARun(cfg, s, r.raw, r.next);
    ComputesDoes(cfg, w, s, r, run, RefreshIssue(cfg, s.store, r.raw, r.next));
  }

  /** The environment's requests are single steps. */
  lemma StepDoes(cfg: Settings, w: CS.World, s: State, r: CS.Request, a: Action)
    requires Same(cfg, w, s) && CS.Enabled(w, r) && Enabled(s, a)
    requires var st, w' := Next(cfg, s, a).store, CS.Serve(cfg, w, r).0;
             && Next(cfg, s, a).txns == s.txns
             && st.users == w'.users && st.rows == w'.rows && st.now == w'.now && st.known == w'.known
             && st.sessions == s.store.sessions && st.issued == s.store.issued
             && w'.families == w.families && w'.issued == w.issued
    ensures Does(cfg, w, s, r, [a] + [])
  {
    StepKeepsInv(cfg, s, a);
    Prepend(cfg, s, a, []);
  }

  lemma TokenRequestIsARun(cfg: Settings, w: CS.World, s: State, r: CS.Request) returns (run: seq<Action>)
    requires Same(cfg, w, s) && CS.Enabled(w, r)
    requires r.Login? || r.Refresh? || r.Logout? || r.RevokeUser? || r.Cleanup?
    ensures Does(cfg, w, s, r, run)
  {
    match r
    case Login(u, raw, f) =>
      run := SerialLoginIsARun(cfg, s, u, raw, f);
      var access := AccessToken(u, w.users[u].version, w.now + cfg.accessMinutes * 60);
      ComputesDoes(cfg, w, s, r, run, Some(Issue(LoggedIn(f, Sha256(raw)), access)));
    case Refresh(_, _) =>
      run := RefreshIsARun(cfg, w, s, r);
    case Logout(raw) =>
      run := SerialLogoutIsARun(cfg, s, raw);
      ComputesDoes(cfg, w, s, r, run, None);
    case RevokeUser(u) =>
      run := SerialRevokeUserIsARun(cfg, s, u);
      ComputesDoes(cfg, w, s, r, run, None);
    case Cleanup =>
      run := SerialCleanupIsARun(cfg, s);
      ComputesDoes(cfg, w, s, r, run, None);
  }

  /** The step of the environment that a request stands for; nothing for a deletion that finds no user. */
  function StepOf(w: CS.World, r: CS.Request): seq<Action>
    requires r.Tick? || r.AddUser? || r.SetActive? || r.BumpVersion? || r.DeleteUser?
  {
    match r
    case Tick(d) => [Action.Tick(d)]
    case AddUser(u) => [Action.AddUser(u)]
    case SetActive(u, b) => [Action.SetActive(u, b)]
    case BumpVersion(u, k) => [Action.BumpVersion(u, k)]
    case DeleteUser(u) => if u in w.users then [Action.DeleteUser(u)] else []
  }

  lemma EnvironmentIsARun(cfg: Settings, w: CS.World, s: State, r: CS.Request)
    requires Same(cfg, w, s) && CS.Enabled(w, r)
    requires r.Tick? || r.AddUser? || r.SetActive? || r.BumpVersion? || r.DeleteUser?
    ensures Does(cfg, w, s, r, StepOf(w, r))
  {
    var steps := StepOf(w, r);
    if steps != [] {
      assert steps == [steps[0]] + [];
      StepDoes(cfg, w, s, r, steps[0]);
    }
  }

  /** Each request is a run. */
  lemma RequestIsARun(cfg: Settings, w: CS.World, s: State, r: CS.Request) returns (run: seq<Action>)
    requires Same(cfg, w, s) && CS.Enabled(w, r)
    ensures Does(cfg, w, s, r, run)
  {
    if r.Login? || r.Refresh? || r.Logout? || r.RevokeUser? || r.Cleanup? {
      run := TokenRequestIsARun(cfg, w, s, r);
    } else {
      run := StepOf(w, r);
      EnvironmentIsARun(cfg, w, s, r);
    }
  }

  /** Every history of whole requests is a run of the interleaved protocol with the same tables at
      the end, which grants the access token of every reply. */
  lemma {:induction false} HistoryIsARun(cfg: Settings, w: CS.World, s: State, rs: seq<CS.Request>)
    returns (run: seq<Action>)
    requires Same(cfg, w, s) && CS.AllEnabled(cfg, w, rs)
    ensures Valid(cfg, s, run) && Same(cfg, CS.End(cfg, w, rs), Run(cfg, s, run))
    ensures forall reply | reply in CS.Replies(cfg, w, rs) :: Granted(Run(cfg, s, run).store, reply)
    decreases |rs|
  {
    if rs == [] {
      run := [];
    } else {
      var first := RequestIsARun(cfg, w, s, rs[0]);
      var m := Run(cfg, s, first);
      var (w', reply) := CS.Serve(cfg, w, rs[0]);
      var rest := HistoryIsARun(cfg, w', m, rs[1..]);
      RunAppend(cfg, s, first, rest);
      run := first + rest;
      GrantsStay(cfg, m, rest, reply);
      assert CS.Replies(cfg, w, rs) == [reply] + CS.Replies(cfg, w', rs[1..]);
    }
  }

  lemma GrantsStay(cfg: Settings, m: State, rest: seq<Action>, reply: CS.Reply)
    requires Inv(cfg, m) && Valid(cfg, m, rest) && Granted(m.store, reply)
    ensures Granted(Run(cfg, m, rest).store, reply)
  {
    RunKeeps(cfg, m, rest);
    if reply.Issued? {
      var g :| g in m.store.grants && g.access == reply.pair.access;
      assert g in Run(cfg, m, rest).store.grants;
    }
  }

  function Empty(now: int): CS.World {
    CS.World(map[], map[], now, {}, {}, {})
  }

  lemma HistoriesKeepOneLive(cfg: Settings, start: int, rs: seq<CS.Request>)
    requires CS.AllEnabled(cfg, Empty(start), rs)
    ensures var w := CS.End(cfg, Empty(start), rs);
            RT.OneLivePerFamily(w.rows) && w.rows.Keys <= w.issued
  {
    assert Same(cfg, Empty(start), Initial(start));
    var run := HistoryIsARun(cfg, Empty(start), Initial(start), rs);
    InvGivesOneLivePerFamily(cfg, Run(cfg, Initial(start), run));
  }

  /** From empty tables, every history of whole requests keeps one unrevoked row per family, and after
      it a refresh with a known token leaves its family with the new token alone or with none. */
  lemma HistoriesRotateOrEmpty(cfg: Settings, start: int, rs: seq<CS.Request>, raw: RawToken, next: RawToken)
    requires CS.AllEnabled(cfg, Empty(start), rs)
    requires Sha256(next) !in CS.End(cfg, Empty(start), rs).issued
    ensures var w := CS.End(cfg, Empty(start), rs);
            var (w', reply) := CS.Serve(cfg, w, CS.Refresh(raw, next));
            && RT.OneLivePerFamily(w.rows) && RT.OneLivePerFamily(w'.rows)
            && (Sha256(raw) in w.rows ==>
                  LiveIn(w'.rows, w.rows[Sha256(raw)].family) == if reply.Issued? then {Sha256(next)} else {})
  {
    var w := CS.End(cfg, Empty(start), rs);
    HistoriesKeepOneLive(cfg, start, rs);
    if Sha256(raw) in w.rows { RT.RefreshRotatesOrEmpties(cfg, w.users, w.rows, w.now, raw, next); }
    else { RT.UnknownTokenIsRefused(cfg, w.users, w.rows, w.now, raw, next); }
  }
}
