/**
 `cleanup_expired` (camp44/crud/refresh_token.py) deletes expired rows. Two histories, one with an
 extra cleanup somewhere, are compared request by request, each request a whole transaction.
 */
module CleanupSimulation {
  import opened TokenModel
  import opened RefreshTransactions

  datatype World = World(
    users: Users, rows: Rows, now: int,
    known: set<UserId>, families: set<FamilyId>, issued: set<TokenHash>)

  datatype Request =
    | Login(user: UserId, raw: RawToken, family: FamilyId)
    | Refresh(raw: RawToken, next: RawToken)
    | Logout(raw: RawToken)
    | RevokeUser(user: UserId)
    | Cleanup
    | Tick(seconds: nat)
    | AddUser(user: UserId)
    | SetActive(user: UserId, active: bool)
    | BumpVersion(user: UserId, steps: nat)
    | DeleteUser(user: UserId)

  datatype Reply = Issued(pair: TokenPair) | Unauthorized | Done

  /** Random values are new; the rest needs the user to exist. */
  predicate Enabled(w: World, r: Request) {
    match r
    case Login(u, raw, f) => u in w.users && Sha256(raw) !in w.issued && f !in w.families
    case Refresh(_, next) => Sha256(next) !in w.issued
    case AddUser(u) => u !in w.known
    case SetActive(u, _) => u in w.users
    case BumpVersion(u, _) => u in w.users
    case _ => true
  }

  function Serve(cfg: Settings, w: World, r: Request): (World, Reply)
    requires Enabled(w, r)
  {
    match r
    case Login(u, raw, f) =>
      (w.(rows := w.rows[Sha256(raw) := NewRow(cfg, w.users, w.now, u, f)],
          families := w.families + {f}, issued := w.issued + {Sha256(raw)}),
       Issued(TokenPair(Signed(cfg, w.users, w.now, u), raw, AccessTtl(cfg))))
    case Refresh(raw, next) =>
      var reply := RefreshReply(cfg, w.users, w.rows, w.now, raw, next);
      (w.(rows := RefreshedRows(cfg, w.users, w.rows, w.now, raw, next), issued := w.issued + {Sha256(next)}),
       if reply.Some? then Issued(reply.value) else Unauthorized)
    case Logout(raw) => (w.(rows := Revoked(w.rows, {Sha256(raw)})), Done)
    case RevokeUser(u) => (w.(rows := Revoked(w.rows, LiveOfUser(w.rows, u))), Done)
    case Cleanup => (w.(rows := w.rows - Expired(w.rows, w.now)), Done)
    case Tick(d) => (w.(now := w.now + d), Done)
    case AddUser(u) => (w.(users := w.users[u := User(true, 0)], known := w.known + {u}), Done)
    case SetActive(u, b) => (w.(users := w.users[u := w.users[u].(active := b)]), Done)
    case BumpVersion(u, k) => (w.(users := w.users[u := w.users[u].(version := w.users[u].version + k)]), Done)
    case DeleteUser(u) =>
      if u !in w.users then (w, Done)
      else (w.(users := w.users - {u}, rows := map h | h in w.rows && w.rows[h].user != u :: w.rows[h]), Done)
  }

  /** A login of an active user is answered with a pair that works. */
  lemma LoginWorks(cfg: Settings, w: World, r: Request)
    requires r.Login? && Enabled(w, r) && w.users[r.user].active && cfg.accessMinutes >= 0 && cfg.refreshDays >= 0
    requires w.rows.Keys <= w.issued
    ensures var (w', reply) := Serve(cfg, w, r);
            && reply.Issued? && reply.pair.refresh == r.raw && reply.pair.expiresIn == cfg.accessMinutes * 60
            && Judge(w'.users, w'.now, reply.pair.access, true) == Accepted(r.user)
            && Refreshable(w'.users, w'.rows, w'.now, Sha256(reply.pair.refresh))
            && LiveIn(w'.rows, r.family) == LiveIn(w.rows, r.family) + {Sha256(r.raw)}
  {
    var w' := Serve(cfg, w, r).0;
    forall h ensures h in LiveIn(w'.rows, r.family) <==> h in LiveIn(w.rows, r.family) || h == Sha256(r.raw) {}
  }

  /** The history the cleanup may have forgotten: an expired token that was already consumed. */
  predicate ReplaysForgotten(w: World, r: Request) {
    r.Refresh? && Sha256(r.raw) in w.rows && w.rows[Sha256(r.raw)].revoked && w.rows[Sha256(r.raw)].expires < w.now
  }

  /** All requests can be served, and none replays an expired, already consumed token. */
  ghost predicate Valid(cfg: Settings, w: World, rs: seq<Request>)
    decreases |rs|
  {
    rs == [] || (Enabled(w, rs[0]) && !ReplaysForgotten(w, rs[0]) && Valid(cfg, Serve(cfg, w, rs[0]).0, rs[1..]))
  }

  ghost predicate AllEnabled(cfg: Settings, w: World, rs: seq<Request>)
    decreases |rs|
  {
    rs == [] || (Enabled(w, rs[0]) && AllEnabled(cfg, Serve(cfg, w, rs[0]).0, rs[1..]))
  }

  ghost function End(cfg: Settings, w: World, rs: seq<Request>): World
    requires AllEnabled(cfg, w, rs)
    decreases |rs|
  {
    if rs == [] then w else End(cfg, Serve(cfg, w, rs[0]).0, rs[1..])
  }

  ghost function Replies(cfg: Settings, w: World, rs: seq<Request>): seq<Reply>
    requires AllEnabled(cfg, w, rs)
    decreases |rs|
  {
    if rs == [] then []
    else var (w', reply) := Serve(cfg, w, rs[0]); [reply] + Replies(cfg, w', rs[1..])
  }

  /** `b` is `a` without some expired rows. */
  ghost predicate Trimmed(a: World, b: World) {
    && b.(rows := a.rows) == a
    && a.rows.Keys <= a.issued
    && forall h | h in a.rows.Keys + b.rows.Keys ::
         h in a.rows && if h in b.rows then b.rows[h] == a.rows[h] else a.rows[h].expires < a.now
  }

  lemma RefreshKeepsTrimmed(cfg: Settings, a: World, b: World, r: Request)
    requires Trimmed(a, b) && Enabled(a, r) && r.Refresh? && !ReplaysForgotten(a, r)
    ensures Enabled(b, r)
    ensures Serve(cfg, a, r).1 == Serve(cfg, b, r).1
    ensures Trimmed(Serve(cfg, a, r).0, Serve(cfg, b, r).0)
  {
    var h := Sha256(r.raw);
    var a', b' := Serve(cfg, a, r).0, Serve(cfg, b, r).0;
    if h in a.rows && h !in b.rows {
      // The row is expired and unrevoked: it is consumed alone here, and was deleted there.
      assert a'.rows == Revoked(a.rows, {h}) && b'.rows == b.rows;
    }
  }

  lemma StepKeepsTrimmed(cfg: Settings, a: World, b: World, r: Request)
    requires Trimmed(a, b) && Enabled(a, r) && !ReplaysForgotten(a, r)
    ensures Enabled(b, r)
    ensures Serve(cfg, a, r).1 == Serve(cfg, b, r).1
    ensures Trimmed(Serve(cfg, a, r).0, Serve(cfg, b, r).0)
  {
    if r.Refresh? { RefreshKeepsTrimmed(cfg, a, b, r); }
  }

  lemma {:induction false} RunsKeepTrimmed(cfg: Settings, a: World, b: World, rs: seq<Request>)
    requires Trimmed(a, b) && Valid(cfg, a, rs)
    ensures AllEnabled(cfg, a, rs) && AllEnabled(cfg, b, rs)
    ensures Replies(cfg, a, rs) == Replies(cfg, b, rs)
    ensures Trimmed(End(cfg, a, rs), End(cfg, b, rs))
    decreases |rs|
  {
    if rs != [] {
      StepKeepsTrimmed(cfg, a, b, rs[0]);
      RunsKeepTrimmed(cfg, Serve(cfg, a, rs[0]).0, Serve(cfg, b, rs[0]).0, rs[1..]);
    }
  }

  ghost predicate SameUnexpired(a: World, b: World) {
    && a.users == b.users && a.now == b.now
    && forall h :: (h in a.rows && a.rows[h].expires >= a.now) == (h in b.rows && b.rows[h].expires >= b.now)
                   && (h in a.rows && a.rows[h].expires >= a.now ==> h in b.rows && a.rows[h] == b.rows[h])
  }

  /** Inserting a cleanup before any requests that never replay an expired, already consumed token
      changes no reply, and the two histories end with the same users and unexpired rows. */
  lemma CleanupIsUnobservable(cfg: Settings, w: World, rs: seq<Request>)
    requires w.rows.Keys <= w.issued && Valid(cfg, w, rs)
    ensures AllEnabled(cfg, w, rs) && AllEnabled(cfg, w, [Cleanup] + rs)
    ensures Replies(cfg, w, [Cleanup] + rs) == [Done] + Replies(cfg, w, rs)
    ensures SameUnexpired(End(cfg, w, rs), End(cfg, w, [Cleanup] + rs))
  {
    var c := Serve(cfg, w, Cleanup).0;
    assert Trimmed(w, c);
    RunsKeepTrimmed(cfg, w, c, rs);
    assert ([Cleanup] + rs)[1..] == rs;
  }

  // ---------------------------------------------------------------------------------------
  // The requests the cleanup does change.
  // ---------------------------------------------------------------------------------------

  /** Replaying an expired, consumed token after the cleanup is harmless exactly when its family
      has no unexpired unrevoked row left for the replay to revoke. */
  lemma ForgottenReplayIsHarmlessIff(cfg: Settings, w: World, r: Request)
    requires w.rows.Keys <= w.issued && Enabled(w, r) && ReplaysForgotten(w, r)
    ensures Serve(cfg, w, r).1 == Serve(cfg, Serve(cfg, w, Cleanup).0, r).1 == Unauthorized
    ensures SameUnexpired(Serve(cfg, w, r).0, Serve(cfg, Serve(cfg, w, Cleanup).0, r).0)
            <==> forall k | k in LiveIn(w.rows, w.rows[Sha256(r.raw)].family) :: w.rows[k].expires < w.now
  {
    var c := Serve(cfg, w, Cleanup).0;
    var a, b := Serve(cfg, w, r).0, Serve(cfg, c, r).0;
    var live := LiveIn(w.rows, w.rows[Sha256(r.raw)].family);
    assert b.rows == c.rows && a.rows == Revoked(w.rows, live);
    forall k | k in live && w.rows[k].expires >= w.now ensures !SameUnexpired(a, b) {
      assert k in b.rows && a.rows[k] != b.rows[k];
    }
  }

  /** ... and when there is one, the next refresh tells the two histories apart. */
  lemma ForgottenReplayShows(cfg: Settings, w: World, spent: RawToken, current: RawToken, n1: RawToken, n2: RawToken)
    requires w.rows.Keys <= w.issued
    requires ReplaysForgotten(w, Refresh(spent, n1))
    requires Refreshable(w.users, w.rows, w.now, Sha256(current))
    requires w.rows[Sha256(current)].family == w.rows[Sha256(spent)].family
    requires Sha256(n1) !in w.issued && Sha256(n2) !in w.issued && n1 != n2
    ensures var rs := [Refresh(spent, n1), Refresh(current, n2)];
            && AllEnabled(cfg, w, rs) && AllEnabled(cfg, w, [Cleanup] + rs)
            && Replies(cfg, w, rs) == [Unauthorized, Unauthorized]
            && (var replies := Replies(cfg, w, [Cleanup] + rs);
                |replies| == 3 && replies[0] == Done && replies[1] == Unauthorized && replies[2].Issued?)
  {
    var rs := [Refresh(spent, n1), Refresh(current, n2)];
    var c := Serve(cfg, w, Cleanup).0;
    assert Sha256(current) in LiveIn(w.rows, w.rows[Sha256(spent)].family);
    TwoReplies(cfg, w, rs);
    TwoReplies(cfg, c, rs);
    assert ([Cleanup] + rs)[1..] == rs;
  }

  lemma TwoReplies(cfg: Settings, w: World, rs: seq<Request>)
    requires |rs| == 2 && Enabled(w, rs[0]) && Enabled(Serve(cfg, w, rs[0]).0, rs[1])
    ensures AllEnabled(cfg, w, rs)
    ensures Replies(cfg, w, rs) == [Serve(cfg, w, rs[0]).1, Serve(cfg, Serve(cfg, w, rs[0]).0, rs[1]).1]
  {
    var (w1, r1) := Serve(cfg, w, rs[0]);
    var (w2, r2) := Serve(cfg, w1, rs[1]);
    assert rs[1..][0] == rs[1] && rs[1..][1..] == [];
    assert AllEnabled(cfg, w2, []) && AllEnabled(cfg, w1, rs[1..]);
    assert Replies(cfg, w1, rs[1..]) == [r2] + Replies(cfg, w2, rs[1..][1..]);
  }
}
