/** What every run of account requests keeps. */
module AccountInvariants {
  import opened Wrappers
  import opened Password
  import opened Accounts

  ghost predicate Unique(users: Users) {
    forall u, v | u in users && v in users && u != v :: Apart(users[u], users[v])
  }

  /** Two accounts share no address, subject, customer or reset token. */
  predicate Apart(a: Account, b: Account) {
    && a.email != b.email
    && (a.oidcSub.Some? ==> a.oidcSub != b.oidcSub)
    && (a.customer.Some? ==> a.customer != b.customer)
    && (a.resetToken.Some? ==> a.resetToken != b.resetToken)
  }

  /** A demoted user is not an admin, and no user is one twice. */
  predicate RolesOk(a: Account) {
    (a.adminRemoved ==> !IsAdmin(a)) && multiset(a.roles)[ADMIN] <= 1
  }

  ghost predicate Inv(users: Users, known: set<UserId>) {
    Unique(users) && (forall u {:trigger RolesOk(users[u])} | u in users :: RolesOk(users[u])) && users.Keys <= known
  }

  /** Only an explicit grant can make this user an admin: it was demoted, or its account was not
      created by the identity provider. */
  predicate NeedsGrant(a: Account) {
    !IsAdmin(a) && (a.adminRemoved || !a.oidcVerified)
  }

  /** How one request may change an account. */
  predicate Evolves(users: Users, r: Request, u: UserId, before: Account, after: Account) {
    && after.oidcVerified == before.oidcVerified
    && after.version == before.version
    && (NeedsGrant(before) && !NeedsGrant(after) ==>
          r.MakeAdmin? && r.user == u && ActiveAdmin(users, r.admin))
    && (before.active && IsAdmin(before) && !(after.active && IsAdmin(after)) ==>
          && (r.Deactivate? || r.RemoveAdmin? || r.Cancel?)
          && (!r.Cancel? ==> u != r.admin && ActiveAdmin(users, r.admin)))
  }

  /** What a request may do to the table. */
  ghost predicate Sound(users: Users, r: Request, effect: Effect) {
    match effect
    case Keep => true
    case Save(u, a) =>
      && RolesOk(a)
      && (forall v | v in users && v != u :: Apart(a, users[v]))
      && (if u in users then Evolves(users, r, u, users[u], a)
          else u in Drawn(r) && a.active && a.version == 0 && (!a.oidcVerified ==> NeedsGrant(a)))
    case Remove(u) => r.Delete? && u == r.user && u in users && u != r.admin && ActiveAdmin(users, r.admin)
  }

  lemma AppendedRoleCount(roles: seq<string>)
    requires ADMIN !in roles
    ensures multiset(roles + [ADMIN])[ADMIN] == 1
  {}

  lemma PromotionIsSound(setting: Setting, a: Account)
    requires RolesOk(a)
    ensures var p := Promoted(setting, a);
            RolesOk(p) && p == a.(roles := p.roles) && (NeedsGrant(a) ==> p == a) && (IsAdmin(a) ==> IsAdmin(p))
  {
    if ADMIN !in a.roles { AppendedRoleCount(a.roles); }
  }

  lemma SavedPromotionIsSound(setting: Setting, users: Users, known: set<UserId>, r: Request, u: UserId)
    requires Inv(users, known) && u in users
    ensures Sound(users, r, Save(u, Promoted(setting, users[u])))
  {
    assert RolesOk(users[u]);
    PromotionIsSound(setting, users[u]);
    SameIdentifiersStayApart(users, known, u, Promoted(setting, users[u]));
  }

  lemma LoginsAreSound(setting: Setting, users: Users, known: set<UserId>, r: Request)
    requires Inv(users, known) && (r.Login? || r.PasskeyLogin?)
    ensures Sound(users, r, Respond(setting, users, r).0)
  {
    var effect := Respond(setting, users, r).0;
    if effect.Save? { SavedPromotionIsSound(setting, users, known, r, effect.user); }
  }

  /** Signing in with the identity provider keeps an account apart from the others, before promotion. */
  lemma LinkedIsSound(setting: Setting, users: Users, known: set<UserId>, r: Request)
    requires Inv(users, known) && Enabled(users, known, r) && r.OidcCallback? && Given(r.sub) && Given(r.address)
    ensures var (u, a) := Linked(setting, users, r.id, r.sub.value, r.address.value);
            RolesOk(a) && Sound(users, r, Save(u, a))
  {
    var (u, a) := Linked(setting, users, r.id, r.sub.value, r.address.value);
    assert u in users ==> RolesOk(users[u]);
  }

  lemma OidcIsSound(setting: Setting, users: Users, known: set<UserId>, r: Request)
    requires Inv(users, known) && Enabled(users, known, r) && r.OidcCallback?
    ensures Sound(users, r, Respond(setting, users, r).0)
  {
    if Given(r.sub) && Given(r.address) {
      var (u, a) := Linked(setting, users, r.id, r.sub.value, r.address.value);
      LinkedIsSound(setting, users, known, r);
      PromotionIsSound(setting, a);
      forall v | v in users && v != u ensures Apart(Promoted(setting, a), users[v]) {
        assert Apart(a, users[v]);
      }
    }
  }

  lemma GrantIsSound(a: Account)
    requires RolesOk(a)
    ensures RolesOk(a.(roles := if IsAdmin(a) then a.roles else a.roles + [ADMIN], adminRemoved := false))
    ensures RolesOk(a.(roles := WithoutAdmin(a.roles), adminRemoved := true))
    ensures IsAdmin(a.(roles := if IsAdmin(a) then a.roles else a.roles + [ADMIN], adminRemoved := false))
    ensures NeedsGrant(a.(roles := WithoutAdmin(a.roles), adminRemoved := true))
  {
    if !IsAdmin(a) { AppendedRoleCount(a.roles); }
  }

  /** Rewriting an account without touching its identifiers keeps it apart from the others. */
  lemma SameIdentifiersStayApart(users: Users, known: set<UserId>, u: UserId, a: Account)
    requires Inv(users, known) && u in users
    requires a == users[u].(active := a.active, roles := a.roles, adminRemoved := a.adminRemoved)
    ensures forall v | v in users && v != u :: Apart(a, users[v])
  {
    forall v | v in users && v != u ensures Apart(a, users[v]) {
      assert Apart(users[u], users[v]);
    }
  }

  lemma ActivationsAreSound(users: Users, known: set<UserId>, r: Request)
    requires Inv(users, known) && (r.Activate? || r.Deactivate?)
    ensures Sound(users, r, AdminEffect(users, r).0)
  {
    if r.user in users {
      assert RolesOk(users[r.user]);
      SameIdentifiersStayApart(users, known, r.user, users[r.user].(active := r.Activate?));
    }
  }

  lemma GrantsAreSound(users: Users, known: set<UserId>, r: Request)
    requires Inv(users, known) && (r.MakeAdmin? || r.RemoveAdmin?)
    ensures Sound(users, r, AdminEffect(users, r).0)
  {
    var effect := AdminEffect(users, r).0;
    if effect.Save? {
      assert RolesOk(users[r.user]);
      GrantIsSound(users[r.user]);
      SameIdentifiersStayApart(users, known, r.user, effect.account);
    }
  }

  lemma AdminRequestsAreSound(setting: Setting, users: Users, known: set<UserId>, r: Request)
    requires Inv(users, known) && ByAdmin(r)
    ensures Sound(users, r, Respond(setting, users, r).0)
  {
    if r.Activate? || r.Deactivate? { ActivationsAreSound(users, known, r); }
    else if r.MakeAdmin? || r.RemoveAdmin? { GrantsAreSound(users, known, r); }
  }

  lemma RegisterAndUpdateAreSound(setting: Setting, users: Users, known: set<UserId>, r: Request)
    requires Inv(users, known) && Enabled(users, known, r) && (r.Register? || r.Update?)
    ensures Sound(users, r, Respond(setting, users, r).0)
  {
    var effect := Respond(setting, users, r).0;
    assert effect.Save? && effect.user in users ==> RolesOk(users[effect.user]);
  }

  lemma PasswordRequestsAreSound(setting: Setting, users: Users, known: set<UserId>, r: Request)
    requires Inv(users, known) && Enabled(users, known, r) && (r.SetPassword? || r.ForgotPassword?)
    ensures Sound(users, r, Respond(setting, users, r).0)
  {
    var effect := Respond(setting, users, r).0;
    assert effect.Save? && effect.user in users ==> RolesOk(users[effect.user]);
  }

  lemma CancelIsSound(setting: Setting, users: Users, known: set<UserId>, r: Request)
    requires Inv(users, known) && r.Cancel?
    ensures Sound(users, r, Respond(setting, users, r).0)
  {
    var effect := Respond(setting, users, r).0;
    assert effect.Save? && effect.user in users ==> RolesOk(users[effect.user]);
  }

  lemma CheckoutIsSound(setting: Setting, users: Users, known: set<UserId>, r: Request)
    requires Inv(users, known) && Enabled(users, known, r) && r.Checkout?
    ensures Sound(users, r, Respond(setting, users, r).0)
  {
    var effect := Respond(setting, users, r).0;
    assert effect.Save? && effect.user in users ==> RolesOk(users[effect.user]);
  }

  lemma EveryRequestIsSound(setting: Setting, users: Users, known: set<UserId>, r: Request)
    requires Inv(users, known) && Enabled(users, known, r)
    ensures Sound(users, r, Respond(setting, users, r).0)
  {
    if r.Login? || r.PasskeyLogin? { LoginsAreSound(setting, users, known, r); }
    else if r.OidcCallback? { OidcIsSound(setting, users, known, r); }
    else if ByAdmin(r) { AdminRequestsAreSound(setting, users, known, r); }
    else if r.Checkout? { CheckoutIsSound(setting, users, known, r); }
    else if r.Register? || r.Update? { RegisterAndUpdateAreSound(setting, users, known, r); }
    else if r.Cancel? { CancelIsSound(setting, users, known, r); }
    else { PasswordRequestsAreSound(setting, users, known, r); }
  }

  lemma SoundKeepsInv(users: Users, known: set<UserId>, r: Request, effect: Effect)
    requires Inv(users, known) && Sound(users, r, effect)
    ensures Inv(Apply(users, effect), known + Drawn(r))
  {
    if effect.Save? {
      forall v | v in users && v != effect.user ensures Apart(users[v], effect.account) {
        assert Apart(effect.account, users[v]);
      }
    }
  }

  // ---------------------------------------------------------------------------------------
  // Runs.
  // ---------------------------------------------------------------------------------------

  ghost predicate Valid(setting: Setting, users: Users, known: set<UserId>, run: seq<Request>)
    decreases |run|
  {
    run == []
    || (Enabled(users, known, run[0]) && Valid(setting, Serve(setting, users, run[0]), known + Drawn(run[0]), run[1..]))
  }

  ghost function Run(setting: Setting, users: Users, run: seq<Request>): Users
    decreases |run|
  {
    if run == [] then users else Run(setting, Serve(setting, users, run[0]), run[1..])
  }

  function AllDrawn(known: set<UserId>, run: seq<Request>): set<UserId>
    decreases |run|
  {
    if run == [] then known else AllDrawn(known + Drawn(run[0]), run[1..])
  }

  ghost predicate SomeActiveAdmin(users: Users) {
    exists u :: ActiveAdmin(users, u)
  }

  /** A run with one more request. */
  lemma {:induction false} RunWithLast(
      setting: Setting, users: Users, known: set<UserId>, run: seq<Request>, last: Request)
    requires Valid(setting, users, known, run + [last])
    ensures Valid(setting, users, known, run)
    ensures Enabled(Run(setting, users, run), AllDrawn(known, run), last)
    ensures Run(setting, users, run + [last]) == Serve(setting, Run(setting, users, run), last)
    decreases |run|
  {
    if run == [] {
      assert (run + [last])[1..] == [];
    } else {
      assert (run + [last])[1..] == run[1..] + [last];
      RunWithLast(setting, Serve(setting, users, run[0]), known + Drawn(run[0]), run[1..], last);
    }
  }

  lemma StepKeepsInv(setting: Setting, users: Users, known: set<UserId>, r: Request)
    requires Inv(users, known) && Enabled(users, known, r)
    ensures Inv(Serve(setting, users, r), known + Drawn(r))
  {
    EveryRequestIsSound(setting, users, known, r);
    SoundKeepsInv(users, known, r, Respond(setting, users, r).0);
  }

  /** In every reachable state a demoted user is not an admin, "admin" occurs at most once among a
      user's roles, and addresses, subjects, customers and reset tokens identify users. */
  lemma {:induction false} RunKeepsInv(setting: Setting, users: Users, known: set<UserId>, run: seq<Request>)
    requires Inv(users, known) && Valid(setting, users, known, run)
    ensures Inv(Run(setting, users, run), AllDrawn(known, run))
    decreases |run|
  {
    if run != [] {
      StepKeepsInv(setting, users, known, run[0]);
      RunKeepsInv(setting, Serve(setting, users, run[0]), known + Drawn(run[0]), run[1..]);
    }
  }

  /** Whatever the effect, the acting admin stays, or another account loses nothing. */
  lemma SoundKeepsSomeAdmin(users: Users, r: Request, effect: Effect)
    requires Sound(users, r, effect) && SomeActiveAdmin(users) && !r.Cancel?
    ensures SomeActiveAdmin(Apply(users, effect))
  {
    var u :| ActiveAdmin(users, u);
    var keeper := if ByAdmin(r) && ActiveAdmin(users, r.admin) then r.admin else u;
    assert ActiveAdmin(Apply(users, effect), keeper);
  }

  lemma StepKeepsSomeAdmin(setting: Setting, users: Users, known: set<UserId>, r: Request)
    requires Inv(users, known) && Enabled(users, known, r) && SomeActiveAdmin(users)
    requires !r.Cancel?
    ensures SomeActiveAdmin(Serve(setting, users, r))
  {
    EveryRequestIsSound(setting, users, known, r);
    SoundKeepsSomeAdmin(users, r, Respond(setting, users, r).0);
  }

  /** Once an active admin exists, every run without a subscription cancellation keeps one. */
  lemma {:induction false} AnActiveAdminRemains(setting: Setting, users: Users, known: set<UserId>, run: seq<Request>)
    requires Inv(users, known) && Valid(setting, users, known, run) && SomeActiveAdmin(users)
    requires forall i | 0 <= i < |run| :: !run[i].Cancel?
    ensures SomeActiveAdmin(Run(setting, users, run))
    decreases |run|
  {
    if run != [] {
      StepKeepsInv(setting, users, known, run[0]);
      StepKeepsSomeAdmin(setting, users, known, run[0]);
      AnActiveAdminRemains(setting, Serve(setting, users, run[0]), known + Drawn(run[0]), run[1..]);
    }
  }

  /** A cancellation keeps an active admin exactly when there is one with another customer id. */
  lemma CancelKeepsAdminIff(setting: Setting, users: Users, known: set<UserId>, r: Request)
    requires Inv(users, known) && r.Cancel?
    ensures SomeActiveAdmin(Serve(setting, users, r))
            <==> exists u :: ActiveAdmin(users, u) && !(Given(r.customer) && users[u].customer == r.customer)
  {
    var users' := Serve(setting, users, r);
    forall u | ActiveAdmin(users, u) && !(Given(r.customer) && users[u].customer == r.customer)
      ensures ActiveAdmin(users', u)
    {}
    forall u | ActiveAdmin(users', u)
      ensures ActiveAdmin(users, u) && !(Given(r.customer) && users[u].customer == r.customer)
    {
      assert u in users;
    }
  }

  /** A table of one account finds it by its address and its customer id. */
  lemma OnlyAccountIsFound(u: UserId, a: Account)
    ensures ByEmail(map[u := a], a.email) == Some(u)
    ensures a.customer.Some? ==> ByCustomer(map[u := a], a.customer.value) == Some(u)
  {
    var users := map[u := a];
    assert u in users && users[u].email == a.email && users[u].customer == a.customer;
  }

  lemma SignInThenPay(setting: Setting, admin: UserId, sub: string, email: string, pay: Request)
    requires sub != "" && email != ""
    requires pay.Checkout? && Given(pay.customer) && pay.address == Some(email) && pay.fault.NoFault?
    ensures var a := OidcAccount(setting, email, sub);
            var users := Serve(setting, map[], OidcCallback(admin, Some(sub), Some(email)));
            && users == map[admin := a]
            && Serve(setting, users, pay)
               == map[admin := a.(customer := pay.customer, subscription := pay.subscription)]
  {
    OnlyAccountIsFound(admin, OidcAccount(setting, email, sub));
  }

  /** From an empty table: an admin of the identity provider pays for a subscription, and the only
      active admin is gone when it is cancelled. */
  lemma CancellationRemovesTheLastAdmin(
      setting: Setting, admin: UserId, sub: string, email: string, pay: Request, customer: string)
    requires sub != "" && email != "" && customer != "" && IsAdminDomain(setting, email)
    requires pay.Checkout? && pay.id != admin && pay.customer == Some(customer) && pay.address == Some(email)
    requires pay.fault.NoFault?
    ensures var before := [OidcCallback(admin, Some(sub), Some(email)), pay];
            var after := before + [Cancel(Some(customer))];
            && Valid(setting, map[], {}, after)
            && SomeActiveAdmin(Run(setting, map[], before)) && !SomeActiveAdmin(Run(setting, map[], after))
  {
    var signIn, cancel := OidcCallback(admin, Some(sub), Some(email)), Cancel(Some(customer));
    var a := OidcAccount(setting, email, sub);
    var paid := a.(customer := Some(customer), subscription := pay.subscription);
    var users2 := map[admin := paid];
    SignInThenPay(setting, admin, sub, email, pay);
    OnlyAccountIsFound(admin, paid);
    assert Serve(setting, users2, cancel) == map[admin := paid.(active := false, subscription := None)];
    assert ActiveAdmin(users2, admin);
    ThreeRequests(setting, map[], {}, signIn, pay, cancel);
    assert [signIn, pay] + [cancel] == [signIn, pay, cancel];
  }

  lemma ThreeRequests(setting: Setting, users: Users, known: set<UserId>, a: Request, b: Request, c: Request)
    requires Enabled(users, known, a)
    requires Enabled(Serve(setting, users, a), known + Drawn(a), b)
    requires Enabled(Serve(setting, Serve(setting, users, a), b), known + Drawn(a) + Drawn(b), c)
    ensures Valid(setting, users, known, [a, b, c])
    ensures Run(setting, users, [a, b]) == Serve(setting, Serve(setting, users, a), b)
    ensures Run(setting, users, [a, b, c]) == Serve(setting, Serve(setting, Serve(setting, users, a), b), c)
  {
    var users1 := Serve(setting, users, a);
    var users2 := Serve(setting, users1, b);
    assert [a, b, c][1..] == [b, c] && [b, c][1..] == [c] && [c][1..] == [] && [a, b][1..] == [b] && [b][1..] == [];
    assert Valid(setting, users2, known + Drawn(a) + Drawn(b), [c]);
    assert Valid(setting, users1, known + Drawn(a), [b, c]);
    assert Run(setting, users1, [b]) == users2;
    assert Run(setting, users2, [c]) == Serve(setting, users2, c);
    assert Run(setting, users1, [b, c]) == Serve(setting, users2, c);
  }

  /** The grant of the admin role to `u` by an active admin. */
  ghost predicate Grants(setting: Setting, users: Users, run: seq<Request>, i: nat, u: UserId) {
    i < |run| && run[i].MakeAdmin? && run[i].user == u && ActiveAdmin(Run(setting, users, run[..i]), run[i].admin)
  }

  /** A demoted user, and a user whose account was not created by the identity provider, becomes an
      admin in a run only through a `make-admin` request of an active admin for that user. */
  lemma {:induction false} OnlyGrantsMakeAdmins(
      setting: Setting, users: Users, known: set<UserId>, run: seq<Request>, u: UserId)
    requires Inv(users, known) && Valid(setting, users, known, run)
    requires u in users && NeedsGrant(users[u])
    requires u in Run(setting, users, run) && IsAdmin(Run(setting, users, run)[u])
    ensures exists i: nat :: Grants(setting, users, run, i, u)
    decreases |run|
  {
    var r := run[0];
    var users' := Serve(setting, users, r);
    EveryRequestIsSound(setting, users, known, r);
    StepKeepsInv(setting, users, known, r);
    if u in users' && NeedsGrant(users'[u]) {
      OnlyGrantsMakeAdmins(setting, users', known + Drawn(r), run[1..], u);
      var i: nat :| Grants(setting, users', run[1..], i, u);
      assert run[..i + 1][1..] == run[1..][..i];
      assert Grants(setting, users, run, i + 1, u);
    } else if u in users' {
      assert run[..0] == [];
      assert Grants(setting, users, run, 0, u);
    } else {
      GoneStaysGone(setting, users', known + Drawn(r), run[1..], u);
    }
  }

  /** A deleted user's id is never used again. */
  lemma {:induction false} GoneStaysGone(
      setting: Setting, users: Users, known: set<UserId>, run: seq<Request>, u: UserId)
    requires Inv(users, known) && Valid(setting, users, known, run)
    requires u in known && u !in users
    ensures u !in Run(setting, users, run)
    decreases |run|
  {
    if run != [] {
      EveryRequestIsSound(setting, users, known, run[0]);
      StepKeepsInv(setting, users, known, run[0]);
      GoneStaysGone(setting, Serve(setting, users, run[0]), known + Drawn(run[0]), run[1..], u);
    }
  }

  /** A user who registered with a password needs such a grant, whatever the address. */
  lemma RegisteredUsersNeedAGrant(setting: Setting, users: Users, known: set<UserId>, r: Request, run: seq<Request>)
    requires Inv(users, known) && r.Register? && Enabled(users, known, r)
    requires Respond(setting, users, r).1 == Done
    requires Valid(setting, Serve(setting, users, r), known + Drawn(r), run)
    requires var e := Run(setting, Serve(setting, users, r), run); r.id in e && IsAdmin(e[r.id])
    ensures exists i: nat :: Grants(setting, Serve(setting, users, r), run, i, r.id)
  {
    StepKeepsInv(setting, users, known, r);
    OnlyGrantsMakeAdmins(setting, Serve(setting, users, r), known + Drawn(r), run, r.id);
  }
}
