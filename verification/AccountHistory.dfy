/** How a user becomes an admin, and how a deactivated user becomes active, over whole runs. */
module AccountHistory {
  import opened Wrappers
  import Utf8
  import opened Password
  import opened Accounts
  import opened AccountInvariants
  import opened AccountEffects

  // ---------------------------------------------------------------------------------------
  // Becoming an admin.
  // ---------------------------------------------------------------------------------------

  /** An admin, or a user whom the next login makes one. */
  predicate Promotable(setting: Setting, a: Account) {
    IsAdmin(a) || (a.oidcVerified && !a.adminRemoved && IsAdminDomain(setting, a.email))
  }

  predicate GrantedNow(users: Users, r: Request, u: UserId) {
    r.MakeAdmin? && r.user == u && ActiveAdmin(users, r.admin)
  }

  /** A profile update that gives an account of the identity provider an address in an admin domain. */
  ghost predicate MovedNow(setting: Setting, users: Users, r: Request, u: UserId) {
    && r.Update? && r.user == u && u in users
    && r.address.Some? && IsAdminDomain(setting, r.address.value)
    && users[u].oidcVerified && !users[u].adminRemoved
    && (r.newPassword.Some? ==> HashPassword(r.newPassword.value, r.salt).Some?)
    && forall v | v in users && v != u :: users[v].email != r.address.value
  }

  lemma LoginsDoNotOpenTheWay(setting: Setting, users: Users, known: set<UserId>, r: Request, u: UserId)
    requires Inv(users, known) && Enabled(users, known, r) && (r.Login? || r.PasskeyLogin? || r.OidcCallback?)
    requires u in users && !Promotable(setting, users[u]) && u in Serve(setting, users, r)
    ensures !Promotable(setting, Serve(setting, users, r)[u])
  {}

  lemma AdminRequestOpensTheWay(setting: Setting, users: Users, r: Request, u: UserId)
    requires ByAdmin(r)
    requires u in users && !Promotable(setting, users[u]) && u in Serve(setting, users, r)
    ensures Promotable(setting, Serve(setting, users, r)[u]) <==> GrantedNow(users, r, u)
  {}

  lemma UpdateOpensTheWay(setting: Setting, users: Users, r: Request, u: UserId)
    requires r.Update?
    requires u in users && !Promotable(setting, users[u]) && u in Serve(setting, users, r)
    ensures Promotable(setting, Serve(setting, users, r)[u]) <==> MovedNow(setting, users, r, u)
  {}

  /** A user whom no login promotes stays so in every request but two: a grant by an active admin,
      and a profile update that moves an account of the identity provider into an admin domain. */
  lemma BecomesPromotableIff(setting: Setting, users: Users, known: set<UserId>, r: Request, u: UserId)
    requires Inv(users, known) && Enabled(users, known, r)
    requires u in users && !Promotable(setting, users[u]) && u in Serve(setting, users, r)
    ensures Promotable(setting, Serve(setting, users, r)[u])
            <==> GrantedNow(users, r, u) || MovedNow(setting, users, r, u)
  {
    if ByAdmin(r) { AdminRequestOpensTheWay(setting, users, r, u); }
    else if r.Update? { UpdateOpensTheWay(setting, users, r, u); }
    else if r.Login? || r.PasskeyLogin? || r.OidcCallback? { LoginsDoNotOpenTheWay(setting, users, known, r, u); }
  }

  /** The request at `i` of the run is one of the two. */
  ghost predicate OpensTheWay(setting: Setting, users: Users, run: seq<Request>, i: nat, u: UserId) {
    && i < |run|
    && var now := Run(setting, users, run[..i]);
       GrantedNow(now, run[i], u) || MovedNow(setting, now, run[i], u)
  }

  /** Over every run, a user who is not an admin and whom no login would promote is an admin at the
      end only through a grant, or through a profile update into an admin domain. */
  lemma {:induction false} OnlyGrantsAndMovesMakeAdmins(
      setting: Setting, users: Users, known: set<UserId>, run: seq<Request>, u: UserId)
    requires Inv(users, known) && Valid(setting, users, known, run)
    requires u in users && !Promotable(setting, users[u])
    requires u in Run(setting, users, run) && Promotable(setting, Run(setting, users, run)[u])
    ensures exists i: nat :: OpensTheWay(setting, users, run, i, u)
    decreases |run|
  {
    var r := run[0];
    var users' := Serve(setting, users, r);
    StepKeepsInv(setting, users, known, r);
    if u !in users' {
      EveryRequestIsSound(setting, users, known, r);
      GoneStaysGone(setting, users', known + Drawn(r), run[1..], u);
    } else if Promotable(setting, users'[u]) {
      BecomesPromotableIff(setting, users, known, r, u);
      assert run[..0] == [];
      assert OpensTheWay(setting, users, run, 0, u);
    } else {
      OnlyGrantsAndMovesMakeAdmins(setting, users', known + Drawn(r), run[1..], u);
      var i: nat :| OpensTheWay(setting, users', run[1..], i, u);
      assert run[..i + 1][1..] == run[1..][..i];
      assert OpensTheWay(setting, users, run, i + 1, u);
    }
  }

  /** A user created by the identity provider with an address outside the admin domains is an admin
      later only through a grant or such an update. */
  lemma ProviderUsersNeedAGrantOrAMove(
      setting: Setting, users: Users, known: set<UserId>, r: Request, run: seq<Request>)
    requires Inv(users, known) && r.OidcCallback? && Enabled(users, known, r)
    requires r.id in Serve(setting, users, r) && !IsAdminDomain(setting, r.address.value)
    requires Valid(setting, Serve(setting, users, r), known + Drawn(r), run)
    requires var e := Run(setting, Serve(setting, users, r), run); r.id in e && IsAdmin(e[r.id])
    ensures exists i: nat :: OpensTheWay(setting, Serve(setting, users, r), run, i, r.id)
  {
    StepKeepsInv(setting, users, known, r);
    assert r.id !in users;
    OnlyGrantsAndMovesMakeAdmins(setting, Serve(setting, users, r), known + Drawn(r), run, r.id);
  }

  /** After such an update the next login makes the user an admin, although no identity provider has
      verified the address. */
  lemma AMoveMakesAnAdmin(setting: Setting, users: Users, known: set<UserId>, r: Request, u: UserId)
    requires Inv(users, known) && MovedNow(setting, users, r, u)
    ensures var run := [r, PasskeyLogin(u)];
            && Valid(setting, users, known, run)
            && u in Run(setting, users, run) && IsAdmin(Run(setting, users, run)[u])
            && Run(setting, users, run)[u].email == r.address.value
  {
    var login := PasskeyLogin(u);
    var users' := Serve(setting, users, r);
    assert u in users' && Promotable(setting, users'[u]);
    assert [r, login][1..] == [login] && [login][1..] == [];
    assert Valid(setting, Serve(setting, users', login), known + Drawn(r) + Drawn(login), []);
    assert Valid(setting, users', known + Drawn(r), [login]);
    assert Run(setting, users', [login]) == Run(setting, Serve(setting, users', login), []);
  }

  /** From an empty table, without any admin: sign in with the identity provider, change the address,
      sign in again. */
  lemma AnUnverifiedAddressIsPromoted(setting: Setting, u: UserId, sub: string, verified: string, address: string)
    requires sub != "" && verified != "" && address != verified
    requires !IsAdminDomain(setting, verified) && IsAdminDomain(setting, address)
    ensures var run := [OidcCallback(u, Some(sub), Some(verified)), Update(u, Some(address), None, 0), PasskeyLogin(u)];
            && Valid(setting, map[], {}, run)
            && var e := Run(setting, map[], run);
               u in e && IsAdmin(e[u]) && e[u].email == address
  {
    var first, second := OidcCallback(u, Some(sub), Some(verified)), Update(u, Some(address), None, 0);
    var run := [first, second, PasskeyLogin(u)];
    var users := Serve(setting, map[], first);
    StepKeepsInv(setting, map[], {}, first);
    assert users == map[u := OidcAccount(setting, verified, sub)];
    AMoveMakesAnAdmin(setting, users, {u}, second, u);
    assert run[1..] == [second, PasskeyLogin(u)];
    assert {} + Drawn(first) == {u};
  }

  // ---------------------------------------------------------------------------------------
  // Becoming active again.
  // ---------------------------------------------------------------------------------------

  predicate ActivatedNow(users: Users, r: Request, u: UserId) {
    r.Activate? && r.user == u && ActiveAdmin(users, r.admin)
  }

  /** The user is active after the request exactly when it reactivates it, and otherwise keeps its
      reset token. */
  ghost predicate ReactivationDecides(setting: Setting, users: Users, r: Request, u: UserId)
    requires u in users && u in Serve(setting, users, r)
  {
    var a := Serve(setting, users, r)[u];
    && (a.active <==> ActivatedNow(users, r, u) || Redeems(users[u], r))
    && (!a.active ==> a.resetToken == users[u].resetToken && a.resetExpires == users[u].resetExpires)
  }

  lemma SetPasswordReactivates(setting: Setting, users: Users, known: set<UserId>, r: Request, u: UserId)
    requires Inv(users, known) && r.SetPassword?
    requires u in users && !users[u].active && u in Serve(setting, users, r)
    ensures ReactivationDecides(setting, users, r, u)
  {}

  lemma AdminRequestReactivates(setting: Setting, users: Users, r: Request, u: UserId)
    requires ByAdmin(r)
    requires u in users && !users[u].active && u in Serve(setting, users, r)
    ensures ReactivationDecides(setting, users, r, u)
  {}

  lemma LoginsDoNotReactivate(setting: Setting, users: Users, known: set<UserId>, r: Request, u: UserId)
    requires Inv(users, known) && Enabled(users, known, r) && (r.Login? || r.PasskeyLogin? || r.OidcCallback?)
    requires u in users && !users[u].active && u in Serve(setting, users, r)
    ensures ReactivationDecides(setting, users, r, u)
  {}

  lemma OtherRequestsDoNotReactivate(setting: Setting, users: Users, known: set<UserId>, r: Request, u: UserId)
    requires Inv(users, known) && Enabled(users, known, r)
    requires r.Register? || r.ForgotPassword? || r.Update? || r.Checkout? || r.Cancel?
    requires u in users && !users[u].active && u in Serve(setting, users, r)
    ensures ReactivationDecides(setting, users, r, u)
  {}

  /** An inactive user becomes active in exactly two requests, and no other changes its reset token. */
  lemma BecomesActiveIff(setting: Setting, users: Users, known: set<UserId>, r: Request, u: UserId)
    requires Inv(users, known) && Enabled(users, known, r)
    requires u in users && !users[u].active && u in Serve(setting, users, r)
    ensures ReactivationDecides(setting, users, r, u)
  {
    if r.SetPassword? { SetPasswordReactivates(setting, users, known, r, u); }
    else if ByAdmin(r) { AdminRequestReactivates(setting, users, r, u); }
    else if r.Login? || r.PasskeyLogin? || r.OidcCallback? { LoginsDoNotReactivate(setting, users, known, r, u); }
    else { OtherRequestsDoNotReactivate(setting, users, known, r, u); }
  }

  ghost predicate Reactivates(setting: Setting, users: Users, run: seq<Request>, i: nat, u: UserId) {
    && i < |run|
    && (ActivatedNow(Run(setting, users, run[..i]), run[i], u) || (u in users && Redeems(users[u], run[i])))
  }

  /** Over every run, a deactivated user is active at the end only through an `activate` request of
      an active admin, or through a reset token that was outstanding when the user was deactivated. */
  lemma {:induction false} OnlyActivationsAndOldTokensReactivate(
      setting: Setting, users: Users, known: set<UserId>, run: seq<Request>, u: UserId)
    requires Inv(users, known) && Valid(setting, users, known, run)
    requires u in users && !users[u].active
    requires u in Run(setting, users, run) && Run(setting, users, run)[u].active
    ensures exists i: nat :: Reactivates(setting, users, run, i, u)
    decreases |run|
  {
    var r := run[0];
    var users' := Serve(setting, users, r);
    StepKeepsInv(setting, users, known, r);
    if u !in users' {
      EveryRequestIsSound(setting, users, known, r);
      GoneStaysGone(setting, users', known + Drawn(r), run[1..], u);
    } else {
      BecomesActiveIff(setting, users, known, r, u);
      if users'[u].active {
        assert run[..0] == [];
        assert Reactivates(setting, users, run, 0, u);
      } else {
        OnlyActivationsAndOldTokensReactivate(setting, users', known + Drawn(r), run[1..], u);
        var i: nat :| Reactivates(setting, users', run[1..], i, u);
        assert run[..i + 1][1..] == run[1..][..i];
        assert Reactivates(setting, users, run, i + 1, u);
      }
    }
  }

  // ---------------------------------------------------------------------------------------
  // Which password logs in.
  // ---------------------------------------------------------------------------------------

  /** The request gives the user a new password: a reset with the user's token, or a profile update. */
  ghost predicate NewPasswordNow(setting: Setting, users: Users, r: Request, u: UserId) {
    && u in users && Respond(setting, users, r).1 == Done
    && ((r.SetPassword? && users[u].resetToken == Some(r.token)) || (r.Update? && r.user == u && r.newPassword.Some?))
  }

  lemma LoginsKeepDigest(setting: Setting, users: Users, known: set<UserId>, r: Request, u: UserId)
    requires Inv(users, known) && Enabled(users, known, r) && (r.Login? || r.PasskeyLogin? || r.OidcCallback?)
    requires u in users && u in Serve(setting, users, r)
    ensures Serve(setting, users, r)[u].digest == users[u].digest
  {}

  /** No other request touches the digest of an existing user. */
  lemma DigestStays(setting: Setting, users: Users, known: set<UserId>, r: Request, u: UserId)
    requires Inv(users, known) && Enabled(users, known, r) && !NewPasswordNow(setting, users, r, u)
    requires u in users && u in Serve(setting, users, r)
    ensures Serve(setting, users, r)[u].digest == users[u].digest
  {
    if r.Login? || r.PasskeyLogin? || r.OidcCallback? { LoginsKeepDigest(setting, users, known, r, u); }
    else if ByAdmin(r) && Permitted(users, r) { AdminRequestChanges(setting, users, r); }
    else if r.SetPassword? { SetPasswordIff(setting, users, known, r); }
    else if r.Update? { UpdateIff(setting, users, r); }
  }

  ghost predicate NewPasswordAt(setting: Setting, users: Users, run: seq<Request>, i: nat, u: UserId) {
    i < |run| && NewPasswordNow(setting, Run(setting, users, run[..i]), run[i], u)
  }

  lemma {:induction false} DigestStaysOverRuns(
      setting: Setting, users: Users, known: set<UserId>, run: seq<Request>, u: UserId)
    requires Inv(users, known) && Valid(setting, users, known, run)
    requires u in users && u in Run(setting, users, run)
    requires forall i: nat :: !NewPasswordAt(setting, users, run, i, u)
    ensures Run(setting, users, run)[u].digest == users[u].digest
    decreases |run|
  {
    if run != [] {
      var r := run[0];
      var users' := Serve(setting, users, r);
      StepKeepsInv(setting, users, known, r);
      assert run[..0] == [] && !NewPasswordAt(setting, users, run, 0, u);
      if u in users' {
        DigestStays(setting, users, known, r, u);
        forall i: nat ensures !NewPasswordAt(setting, users', run[1..], i, u) {
          if i + 1 < |run| {
            assert run[..i + 1][1..] == run[1..][..i];
            assert !NewPasswordAt(setting, users, run, i + 1, u);
          }
        }
        DigestStaysOverRuns(setting, users', known + Drawn(r), run[1..], u);
      } else {
        EveryRequestIsSound(setting, users, known, r);
        GoneStaysGone(setting, users', known + Drawn(r), run[1..], u);
      }
    }
  }

  /** Over every run that gives the user no other password, a login with the user's address succeeds
      exactly when the user is active and the password has the same 72-byte truncation as the one
      that was set. */
  lemma OnlyThePasswordSetLogsIn(
      setting: Setting, users: Users, known: set<UserId>, run: seq<Request>, u: UserId,
      chosen: Text, salt: nat, presented: Text)
    requires Inv(users, known) && Valid(setting, users, known, run)
    requires u in users && u in Run(setting, users, run)
    requires users[u].digest == HashPassword(chosen, salt) && Utf8.Encodable(chosen)
    requires forall i: nat :: !NewPasswordAt(setting, users, run, i, u)
    ensures var e := Run(setting, users, run);
            Respond(setting, e, Login(e[u].email, presented)).1 == Done
            <==> e[u].active && Utf8.Encodable(presented) && Truncate(presented) == Truncate(chosen)
  {
    var e := Run(setting, users, run);
    RunKeepsInv(setting, users, known, run);
    DigestStaysOverRuns(setting, users, known, run, u);
    LoginIff(setting, e, AllDrawn(known, run), e[u].email, presented);
    AddressIsUnique(e, AllDrawn(known, run), u);
  }

  lemma AddressIsUnique(users: Users, known: set<UserId>, u: UserId)
    requires Inv(users, known) && u in users
    ensures forall v | v in users && users[v].email == users[u].email :: v == u
  {}
}
