/**
 The two views of a user: what account requests do to the user table is, for the token protocol, a
 run of its environment's steps, and what they leave decides whose access tokens are accepted.
 */
module AccountTokens {
  import opened Wrappers
  import opened Accounts
  import opened AccountInvariants
  import opened AccountEffects
  import opened AccountHistory
  import TM = TokenModel
  import RS = RotationSteps
  import RT = RotationTheorems

  /** What the token protocol reads of the user table. */
  function TokenUsers(users: Users): TM.Users {
    map u | u in users :: TM.User(users[u].active, users[u].version)
  }

  /** The protocol state holds this user table, with nothing in flight. */
  ghost predicate Shows(s: RS.State, users: Users, known: set<UserId>) {
    s.txns == map[] && s.store.users == TokenUsers(users) && s.store.known <= known
  }

  /** The environment's step for an effect on the user table, if the protocol can see it. */
  function StepsOf(users: Users, effect: Effect): seq<RS.Action> {
    match effect
    case Keep => []
    case Save(u, a) =>
      if u !in users then [RS.AddUser(u)]
      else if a.active != users[u].active then [RS.SetActive(u, a.active)]
      else []
    case Remove(u) => [RS.DeleteUser(u)]
  }

  lemma SavedIsSeen(users: Users, u: UserId, a: Account)
    ensures TokenUsers(users[u := a]) == TokenUsers(users)[u := TM.User(a.active, a.version)]
    ensures u in users && a.active == users[u].active && a.version == users[u].version ==>
              TokenUsers(users[u := a]) == TokenUsers(users)
  {}

  lemma EffectIsSteps(
      cfg: TM.Settings, s: RS.State, users: Users, known: set<UserId>, r: Request, effect: Effect)
    requires Shows(s, users, known) && Sound(users, r, effect)
    requires users.Keys <= known && Drawn(r) !! known
    ensures var steps := StepsOf(users, effect);
            && RT.Valid(cfg, s, steps)
            && Shows(RT.Run(cfg, s, steps), Apply(users, effect), known + Drawn(r))
  {
    var steps := StepsOf(users, effect);
    if effect.Save? { SavedIsSeen(users, effect.user, effect.account); }
    if steps != [] {
      OneStepShows(cfg, s, users, Apply(users, effect), known, known + Drawn(r), steps[0]);
      assert steps == [steps[0]] + [];
    }
  }

  lemma OneStepShows(
      cfg: TM.Settings, s: RS.State, users: Users, users': Users, known: set<UserId>, known': set<UserId>, a: RS.Action)
    requires Shows(s, users, known) && known <= known'
    requires match a
             case AddUser(u) => u in known' - known && u in users' && users'[u].active && users'[u].version == 0
                                && TokenUsers(users') == TokenUsers(users)[u := TM.User(true, 0)]
             case SetActive(u, active) =>
               u in users && TokenUsers(users') == TokenUsers(users)[u := TM.User(active, users[u].version)]
             case DeleteUser(u) => u in users && users' == users - {u}
             case _ => false
    ensures RT.Valid(cfg, s, [a] + []) && Shows(RT.Run(cfg, s, [a] + []), users', known')
  {
    RT.Prepend(cfg, s, a, []);
    assert RS.Next(cfg, s, a).store.users == TokenUsers(users');
  }

  /** Every account request is at most one step of the token protocol's environment, and no request
      raises a version. */
  lemma RequestIsSteps(
      cfg: TM.Settings, s: RS.State, setting: Setting, users: Users, known: set<UserId>, r: Request)
    requires Inv(users, known) && Enabled(users, known, r) && Shows(s, users, known)
    ensures var steps := StepsOf(users, Respond(setting, users, r).0);
            && |steps| <= 1
            && (forall a | a in steps :: !a.BumpVersion?)
            && RT.Valid(cfg, s, steps)
            && Shows(RT.Run(cfg, s, steps), Serve(setting, users, r), known + Drawn(r))
  {
    EveryRequestIsSound(setting, users, known, r);
    EffectIsSteps(cfg, s, users, known, r, Respond(setting, users, r).0);
  }

  /** Every run of account requests is a run of the token protocol, in which no version is raised. */
  lemma {:induction false} AccountRunIsATokenRun(
      cfg: TM.Settings, s: RS.State, setting: Setting, users: Users, known: set<UserId>, run: seq<Request>)
    returns (steps: seq<RS.Action>)
    requires Inv(users, known) && Valid(setting, users, known, run) && Shows(s, users, known)
    ensures RT.Valid(cfg, s, steps)
    ensures forall a | a in steps :: !a.BumpVersion?
    ensures Shows(RT.Run(cfg, s, steps), Run(setting, users, run), AllDrawn(known, run))
    decreases |run|
  {
    steps := [];
    if run != [] {
      var first := StepsOf(users, Respond(setting, users, run[0]).0);
      var users' := Serve(setting, users, run[0]);
      RequestIsSteps(cfg, s, setting, users, known, run[0]);
      StepKeepsInv(setting, users, known, run[0]);
      var rest :=
        AccountRunIsATokenRun(cfg, RT.Run(cfg, s, first), setting, users', known + Drawn(run[0]), run[1..]);
      RT.RunAppend(cfg, s, first, rest);
      steps := first + rest;
    }
  }

  /** No run of account requests changes a user's token version. */
  lemma {:induction false} VersionsStay(
      setting: Setting, users: Users, known: set<UserId>, run: seq<Request>, u: UserId)
    requires Inv(users, known) && Valid(setting, users, known, run)
    requires u in users && u in Run(setting, users, run)
    ensures Run(setting, users, run)[u].version == users[u].version
    decreases |run|
  {
    if run != [] {
      var users' := Serve(setting, users, run[0]);
      EveryRequestIsSound(setting, users, known, run[0]);
      StepKeepsInv(setting, users, known, run[0]);
      if u in users' { VersionsStay(setting, users', known + Drawn(run[0]), run[1..], u); }
      else { GoneStaysGone(setting, users', known + Drawn(run[0]), run[1..], u); }
    }
  }

  /** The user gets in: with an access token, or by exchanging a refresh token. */
  predicate GetsIn(users: TM.Users, rows: TM.Rows, now: int, u: UserId, access: TM.AccessToken, h: TM.TokenHash) {
    || TM.Judge(users, now, access, true) == TM.Accepted(u)
    || (TM.Refreshable(users, rows, now, h) && rows[h].user == u)
  }

  /** A deactivated user stays locked out: over every run, whatever the token rows, the user gets in
      at the end only if an active admin reactivated the user in it, or a reset token that was
      outstanding at the deactivation was used. */
  lemma DeactivatedUsersStayOut(
      setting: Setting, users: Users, known: set<UserId>, run: seq<Request>, u: UserId,
      rows: TM.Rows, now: int, access: TM.AccessToken, h: TM.TokenHash)
    requires Inv(users, known) && Valid(setting, users, known, run)
    requires u in users && !users[u].active
    requires GetsIn(TokenUsers(Run(setting, users, run)), rows, now, u, access, h)
    ensures exists i: nat :: Reactivates(setting, users, run, i, u)
  {
    OnlyActivationsAndOldTokensReactivate(setting, users, known, run, u);
  }

  /** A deleted user stays locked out, whatever happens afterwards. */
  lemma DeletedUsersStayOut(
      setting: Setting, users: Users, known: set<UserId>, run: seq<Request>, u: UserId,
      rows: TM.Rows, now: int, access: TM.AccessToken, h: TM.TokenHash)
    requires Inv(users, known) && Valid(setting, users, known, run)
    requires u in known && u !in users
    ensures !GetsIn(TokenUsers(Run(setting, users, run)), rows, now, u, access, h)
  {
    GoneStaysGone(setting, users, known, run, u);
  }

  /** A cancelled customer stays locked out: over every run after the cancellation, the user who had the
      customer id gets in only after being reactivated in one of the two ways. */
  lemma CancelledCustomersStayOut(
      setting: Setting, users: Users, known: set<UserId>, customer: Option<string>, run: seq<Request>, u: UserId,
      rows: TM.Rows, now: int, access: TM.AccessToken, h: TM.TokenHash)
    requires Inv(users, known) && u in users && Pays(users[u], customer)
    requires var users' := Serve(setting, users, Cancel(customer));
             && Valid(setting, users', known, run)
             && GetsIn(TokenUsers(Run(setting, users', run)), rows, now, u, access, h)
    ensures var users' := Serve(setting, users, Cancel(customer));
            && u in users' && users'[u].subscription == None
            && exists i: nat :: Reactivates(setting, users', run, i, u)
  {
    var users' := Serve(setting, users, Cancel(customer));
    CancelIff(setting, users, known, customer);
    StepKeepsInv(setting, users, known, Cancel(customer));
    assert known + Drawn(Cancel(customer)) == known;
    DeactivatedUsersStayOut(setting, users', known, run, u, rows, now, access, h);
  }
}
