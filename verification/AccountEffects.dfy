/** What the answer of a single account request means for its caller. */
module AccountEffects {
  import opened Wrappers
  import Utf8
  import opened Password
  import opened Accounts
  import opened AccountInvariants

  // ---------------------------------------------------------------------------------------
  // Admin requests.
  // ---------------------------------------------------------------------------------------

  /** Whether the request may be served: the acting user is an active admin, the other user exists,
      and nobody deactivates, demotes or deletes themselves. */
  predicate Permitted(users: Users, r: Request)
    requires ByAdmin(r)
  {
    r.admin in ActiveAdmins(users) && r.user in users && (r.Activate? || r.MakeAdmin? || r.user != r.admin)
  }

  /** The active admins after a permitted request. */
  function AdminsAfter(users: Users, r: Request): set<UserId>
    requires ByAdmin(r) && Permitted(users, r)
  {
    match r
    case Activate(_, u) => ActiveAdmins(users) + if IsAdmin(users[u]) then {u} else {}
    case MakeAdmin(_, u) => ActiveAdmins(users) + if users[u].active then {u} else {}
    case _ => ActiveAdmins(users) - {r.user}
  }

  ghost predicate OthersKept(users: Users, users': Users, u: UserId) {
    forall v | v != u :: (v in users <==> v in users') && (v in users ==> users'[v] == users[v])
  }

  /** The request is served exactly when it is permitted; then the set of active admins changes by
      at most the one user, the acting admin stays in it, and no other account is touched. */
  ghost predicate MovesOneUser(setting: Setting, users: Users, r: Request)
    requires ByAdmin(r)
  {
    var (users', reply) := (Serve(setting, users, r), Respond(setting, users, r).1);
    && (reply == Done <==> Permitted(users, r))
    && (reply != Done ==> users' == users)
    && (reply == Done ==>
          && ActiveAdmins(users') == AdminsAfter(users, r)
          && r.admin in ActiveAdmins(users')
          && OthersKept(users, users', r.user))
  }

  lemma GrantMovesOneUser(setting: Setting, users: Users, r: Request)
    requires r.MakeAdmin? || r.RemoveAdmin?
    ensures MovesOneUser(setting, users, r)
  {}

  lemma AdminRequestMovesOneUser(setting: Setting, users: Users, r: Request)
    requires ByAdmin(r)
    ensures MovesOneUser(setting, users, r)
  {
    if r.MakeAdmin? || r.RemoveAdmin? { GrantMovesOneUser(setting, users, r); }
  }

  /** A demoted user loses the role, keeps its other roles, and only a grant gives the role back. */
  lemma DemotionSticks(setting: Setting, users: Users, r: Request)
    requires r.RemoveAdmin? && Respond(setting, users, r).1 == Done
    ensures r.user in Serve(setting, users, r) && r.user in users
    ensures var a := Serve(setting, users, r)[r.user];
            NeedsGrant(a) && multiset(a.roles) == multiset(users[r.user].roles)[ADMIN := 0]
  {}

  /** A granted role is held once, and later logins leave it alone. */
  lemma GrantSticks(setting: Setting, users: Users, known: set<UserId>, r: Request)
    requires Inv(users, known) && r.MakeAdmin? && Respond(setting, users, r).1 == Done
    ensures r.user in Serve(setting, users, r)
    ensures var a := Serve(setting, users, r)[r.user];
            multiset(a.roles)[ADMIN] == 1 && Promoted(setting, a) == a
  {
    assert RolesOk(users[r.user]);
    if !IsAdmin(users[r.user]) { AppendedRoleCount(users[r.user].roles); }
  }

  /** A deleted user's address is free again. */
  lemma DeletionFreesTheAddress(setting: Setting, users: Users, known: set<UserId>, r: Request)
    requires Inv(users, known) && r.Delete? && Respond(setting, users, r).1 == Done
    ensures r.user in users && r.user !in Serve(setting, users, r)
    ensures ByEmail(Serve(setting, users, r), users[r.user].email) == None
  {
    var users' := Serve(setting, users, r);
    forall v | v in users' ensures users'[v].email != users[r.user].email {
      assert Apart(users[v], users[r.user]);
    }
  }

  // ---------------------------------------------------------------------------------------
  // Passwords and addresses.
  // ---------------------------------------------------------------------------------------

  /** The request gives the user the password. */
  ghost predicate SetsPassword(users: Users, r: Request, u: UserId, password: Text) {
    || (r.Register? && r.id == u && r.password == password)
    || (r.SetPassword? && ByResetToken(users, r.token) == Some(u) && r.password == password)
    || (r.Update? && r.user == u && r.newPassword == Some(password))
  }

  lemma AddressFindsItsUser(users: Users, known: set<UserId>, u: UserId)
    requires Inv(users, known) && u in users
    ensures ByEmail(users, users[u].email) == Some(u)
  {
    assert ByEmail(users, users[u].email).Some?;
  }

  lemma DigestOfNewPassword(setting: Setting, users: Users, r: Request, u: UserId, password: Text)
    requires SetsPassword(users, r, u, password) && Respond(setting, users, r).1 == Done
    ensures u in Serve(setting, users, r)
    ensures var a := Serve(setting, users, r)[u];
            && a.digest.Some? && VerifyPassword(password, a.digest.value) == Some(true)
            && (r.Register? || r.SetPassword? ==> a.active)
  {}

  /** Once a request that sets a password has succeeded, an active user logs in with it, and a user
      who has just registered or used a reset token is active. */
  lemma NewPasswordLogsIn(setting: Setting, users: Users, known: set<UserId>, r: Request, u: UserId, password: Text)
    requires Inv(users, known) && Enabled(users, known, r)
    requires SetsPassword(users, r, u, password) && Respond(setting, users, r).1 == Done
    ensures u in Serve(setting, users, r)
    ensures var users' := Serve(setting, users, r);
            && (r.Register? || r.SetPassword? ==> users'[u].active)
            && Respond(setting, users', Login(users'[u].email, password)).1
               == if users'[u].active then Done else Refused
  {
    var users' := Serve(setting, users, r);
    StepKeepsInv(setting, users, known, r);
    DigestOfNewPassword(setting, users, r, u, password);
    AddressFindsItsUser(users', known + Drawn(r), u);
  }

  /** A reset token works once. */
  lemma ResetTokenIsSpent(setting: Setting, users: Users, known: set<UserId>, r: Request)
    requires Inv(users, known) && r.SetPassword? && Respond(setting, users, r).1 == Done
    ensures ByResetToken(Serve(setting, users, r), r.token) == None
  {
    var users', u := Serve(setting, users, r), ByResetToken(users, r.token).value;
    forall v | v in users' ensures users'[v].resetToken != Some(r.token) {
      if v != u { assert Apart(users[v], users[u]); }
    }
  }

  /** A profile update changes the address and the password only, and the user is found under its
      address afterwards; the active admins stay the same. */
  lemma UpdateChangesTheProfileOnly(setting: Setting, users: Users, known: set<UserId>, r: Request)
    requires Inv(users, known) && Enabled(users, known, r) && r.Update?
    ensures var (users', reply) := (Serve(setting, users, r), Respond(setting, users, r).1);
            && (reply != Done ==> users' == users)
            && (reply == Done ==>
                  && r.user in users && r.user in users'
                  && var a := users'[r.user];
                     users' == users[r.user := users[r.user].(email := a.email, digest := a.digest)]
                     && (r.address.Some? ==> a.email == r.address.value)
                     && ByEmail(users', a.email) == Some(r.user))
            && ActiveAdmins(users') == ActiveAdmins(users)
  {
    var users' := Serve(setting, users, r);
    if Respond(setting, users, r).1 == Done {
      StepKeepsInv(setting, users, known, r);
      AddressFindsItsUser(users', known + Drawn(r), r.user);
    }
  }

  /** A successful checkout delivery leaves someone with the customer id. */
  lemma CheckoutFindsItsCustomer(setting: Setting, users: Users, r: Request)
    requires r.Checkout? && Respond(setting, users, r).1 == Done
    ensures r.customer.Some? && ByCustomer(Serve(setting, users, r), r.customer.value).Some?
  {
    var effect := Respond(setting, users, r).0;
    if effect.Save? { assert Serve(setting, users, r)[effect.user].customer == r.customer; }
  }

  /** Signing in with the identity provider leaves the promoted account under the subject. */
  lemma SignInWritesTheLinkedAccount(setting: Setting, users: Users, r: Request)
    requires r.OidcCallback? && Given(r.sub) && Given(r.address)
    ensures var (u, a) := Linked(setting, users, r.id, r.sub.value, r.address.value);
            && Serve(setting, users, r) == users[u := Promoted(setting, a)]
            && Respond(setting, users, r).1 == Done
    ensures BySub(Serve(setting, users, r), r.sub.value).Some?
  {
    var (u, a) := Linked(setting, users, r.id, r.sub.value, r.address.value);
    assert Serve(setting, users, r)[u].oidcSub == r.sub;
  }

  /** Promotion gives the role under three conditions, once, and changes nothing else. */
  predicate Promotes(setting: Setting, a: Account, b: Account) {
    && b == a.(roles := b.roles)
    && (IsAdmin(b) <==> IsAdmin(a) || (a.oidcVerified && !a.adminRemoved && IsAdminDomain(setting, a.email)))
    && b.roles == a.roles + if IsAdmin(b) && !IsAdmin(a) then [ADMIN] else []
  }

  lemma PromotesIff(setting: Setting, a: Account, b: Account)
    ensures Promotes(setting, a, b) <==> b == Promoted(setting, a)
  {
    assert a.roles + [] == a.roles;
  }

  // ---------------------------------------------------------------------------------------
  // Exactly when each request succeeds, and the table it leaves.
  // ---------------------------------------------------------------------------------------

  /** The account has the address and a digest against which the password verifies. */
  predicate Authenticates(a: Account, email: string, password: Text) {
    a.email == email && a.digest.Some? && VerifyPassword(password, a.digest.value) == Some(true)
  }

  /** A login succeeds exactly for an active account with the address whose digest the password
      verifies against. When no account does, nothing changes; else only promotion can happen. */
  ghost predicate LoginMeans(
      setting: Setting, users: Users, email: string, password: Text, users': Users, reply: Reply)
  {
    && (reply == Done <==> exists u :: u in users && users[u].active && Authenticates(users[u], email, password))
    && (forall u | u in users && Authenticates(users[u], email, password) ::
          users' == users[u := Promoted(setting, users[u])])
    && ((forall u | u in users :: !Authenticates(users[u], email, password)) ==> users' == users)
  }

  lemma LoginIff(setting: Setting, users: Users, known: set<UserId>, email: string, password: Text)
    requires Inv(users, known)
    ensures var r := Login(email, password);
            LoginMeans(setting, users, email, password, Serve(setting, users, r), Respond(setting, users, r).1)
  {
    forall u | u in users && users[u].email == email ensures ByEmail(users, email) == Some(u) {
      AddressFindsItsUser(users, known, u);
    }
  }

  /** A passkey login of an existing user can only promote it. */
  lemma PasskeyLoginIff(setting: Setting, users: Users, u: UserId)
    ensures Respond(setting, users, PasskeyLogin(u)).1 == Done <==> u in users
    ensures Serve(setting, users, PasskeyLogin(u))
            == if u in users then users[u := Promoted(setting, users[u])] else users
  {}

  /** An account with nothing but an address and perhaps a password. */
  function Plain(email: string, digest: Option<Digest>): Account {
    Account(email, digest, [], true, 0, None, false, false, None, None, None, None)
  }

  /** A registration succeeds exactly for a free address and a password that can be encoded, and adds
      a plain account. */
  ghost predicate RegisterMeans(users: Users, r: Request, users': Users, reply: Reply)
    requires r.Register?
  {
    && (reply == Done <==> (forall u | u in users :: users[u].email != r.email) && Utf8.Encodable(r.password))
    && (reply != Done ==> users' == users)
    && (reply == Done ==> users' == users[r.id := Plain(r.email, HashPassword(r.password, r.salt))])
  }

  lemma RegisterIff(setting: Setting, users: Users, r: Request)
    requires r.Register?
    ensures RegisterMeans(users, r, Serve(setting, users, r), Respond(setting, users, r).1)
  {}

  /** The account's reset token is presented in time with an acceptable password. */
  predicate Redeems(a: Account, r: Request) {
    && r.SetPassword? && a.resetToken == Some(r.token)
    && (a.resetExpires.Some? ==> r.now <= a.resetExpires.value)
    && |r.password| >= 8 && Utf8.Encodable(r.password)
  }

  /** A reset succeeds exactly for an account whose unexpired token is presented with an encodable
      password of at least eight characters; it sets the password, spends the token and activates. */
  ghost predicate SetPasswordMeans(users: Users, r: Request, users': Users, reply: Reply)
    requires r.SetPassword?
  {
    && (reply == Done <==> exists u :: u in users && Redeems(users[u], r))
    && (reply != Done ==> users' == users)
    && (forall u | u in users && Redeems(users[u], r) ::
          users' == users[u := users[u].(digest := HashPassword(r.password, r.salt),
                                         resetToken := None, resetExpires := None, active := true)])
  }

  lemma SetPasswordIff(setting: Setting, users: Users, known: set<UserId>, r: Request)
    requires Inv(users, known) && r.SetPassword?
    ensures SetPasswordMeans(users, r, Serve(setting, users, r), Respond(setting, users, r).1)
  {
    forall u | u in users && users[u].resetToken == Some(r.token) ensures ByResetToken(users, r.token) == Some(u) {
      TokenFindsItsUser(users, known, u);
    }
  }

  lemma TokenFindsItsUser(users: Users, known: set<UserId>, u: UserId)
    requires Inv(users, known) && u in users && users[u].resetToken.Some?
    ensures ByResetToken(users, users[u].resetToken.value) == Some(u)
  {
    assert ByResetToken(users, users[u].resetToken.value).Some?;
  }

  /** An active account with the address gets the drawn token for a day; otherwise nothing changes. */
  ghost predicate ForgotPasswordMeans(users: Users, r: Request, users': Users, reply: Reply)
    requires r.ForgotPassword?
  {
    && reply == Done
    && (forall u | u in users && users[u].email == r.email && users[u].active ::
          users' == users[u := users[u].(resetToken := Some(r.token), resetExpires := Some(r.now + 86400))])
    && ((forall u | u in users && users[u].email == r.email :: !users[u].active) ==> users' == users)
  }

  lemma ForgotPasswordIff(setting: Setting, users: Users, known: set<UserId>, r: Request)
    requires Inv(users, known) && r.ForgotPassword?
    ensures ForgotPasswordMeans(users, r, Serve(setting, users, r), Respond(setting, users, r).1)
  {
    forall u | u in users && users[u].email == r.email ensures ByEmail(users, r.email) == Some(u) {
      AddressFindsItsUser(users, known, u);
    }
  }

  /** A profile update succeeds exactly for an existing user, a password that can be encoded and an
      address that no other user has; what is not given stays as it was. */
  ghost predicate UpdateMeans(users: Users, r: Request, users': Users, reply: Reply)
    requires r.Update?
  {
    && (reply == Done <==>
          && r.user in users
          && (r.newPassword.Some? ==> Utf8.Encodable(r.newPassword.value))
          && forall u | u in users && u != r.user ::
               users[u].email != if r.address.Some? then r.address.value else users[r.user].email)
    && (reply != Done ==> users' == users)
    && (reply == Done ==>
          && r.user in users'
          && var a, b := users[r.user], users'[r.user];
             && users' == users[r.user := a.(email := b.email, digest := b.digest)]
             && b.email == (if r.address.Some? then r.address.value else a.email)
             && b.digest == (if r.newPassword.Some? then HashPassword(r.newPassword.value, r.salt) else a.digest))
  }

  lemma UpdateIff(setting: Setting, users: Users, r: Request)
    requires r.Update?
    ensures UpdateMeans(users, r, Serve(setting, users, r), Respond(setting, users, r).1)
  {}

  ghost predicate Unlinked(users: Users, sub: Option<string>) {
    forall u | u in users :: users[u].oidcSub != sub
  }

  /** A callback signs in the account with the subject, else the account with the address, which it
      links, else a new account verified by the provider; then that account may be promoted. */
  ghost predicate OidcMeans(setting: Setting, users: Users, r: Request, users': Users, reply: Reply)
    requires r.OidcCallback?
  {
    && (reply == Done <==> Given(r.sub) && Given(r.address))
    && (reply != Done ==> users' == users)
    && (reply == Done ==>
          && (forall u | u in users && users[u].oidcSub == r.sub ::
                users' == users[u := Promoted(setting, users[u])])
          && (Unlinked(users, r.sub) ==>
                && (forall u | u in users && users[u].email == r.address.value ::
                      users' == users[u := Promoted(setting, users[u].(oidcSub := r.sub))])
                && ((forall u | u in users :: users[u].email != r.address.value) ==>
                      var roles := if IsAdminDomain(setting, r.address.value) then [ADMIN] else [];
                      users' == users[r.id := Plain(r.address.value, None).(
                                        oidcSub := r.sub, oidcVerified := true, roles := roles)])))
  }

  lemma OidcIff(setting: Setting, users: Users, known: set<UserId>, r: Request)
    requires Inv(users, known) && r.OidcCallback?
    ensures OidcMeans(setting, users, r, Serve(setting, users, r), Respond(setting, users, r).1)
  {
    if Given(r.sub) && Given(r.address) {
      forall u | u in users && users[u].oidcSub == r.sub ensures BySub(users, r.sub.value) == Some(u) {
        SubjectFindsItsUser(users, known, u);
      }
      forall u | u in users && users[u].email == r.address.value ensures ByEmail(users, r.address.value) == Some(u) {
        AddressFindsItsUser(users, known, u);
      }
    }
  }

  lemma SubjectFindsItsUser(users: Users, known: set<UserId>, u: UserId)
    requires Inv(users, known) && u in users && users[u].oidcSub.Some?
    ensures BySub(users, users[u].oidcSub.value) == Some(u)
  {
    assert BySub(users, users[u].oidcSub.value).Some?;
  }

  lemma CustomerFindsItsUser(users: Users, known: set<UserId>, u: UserId)
    requires Inv(users, known) && u in users && users[u].customer.Some?
    ensures ByCustomer(users, users[u].customer.value) == Some(u)
  {
    assert ByCustomer(users, users[u].customer.value).Some?;
  }

  predicate Pays(a: Account, customer: Option<string>) {
    Given(customer) && a.customer == customer
  }

  /** A cancellation deactivates the user with the customer id and takes the subscription, whoever it
      is and whatever its roles; without such a user nothing changes. */
  ghost predicate CancelMeans(users: Users, customer: Option<string>, users': Users, reply: Reply) {
    && reply == Done
    && (forall u | u in users && Pays(users[u], customer) ::
          users' == users[u := users[u].(active := false, subscription := None)])
    && ((forall u | u in users :: !Pays(users[u], customer)) ==> users' == users)
  }

  lemma CancelIff(setting: Setting, users: Users, known: set<UserId>, customer: Option<string>)
    requires Inv(users, known)
    ensures var r := Cancel(customer);
            CancelMeans(users, customer, Serve(setting, users, r), Respond(setting, users, r).1)
  {
    forall u | u in users && Pays(users[u], customer) ensures ByCustomer(users, customer.value) == Some(u) {
      CustomerFindsItsUser(users, known, u);
    }
  }

  ghost predicate Recorded(users: Users, customer: Option<string>) {
    exists u :: u in users && users[u].customer == customer
  }

  /** A delivery for an address no one has: nothing when the password cannot be encoded, a plain account
      when it breaks off before its second commit, else a paying one with the drawn token for a week. */
  predicate NewCustomer(users: Users, r: Request, users': Users)
    requires r.Checkout? && r.address.Some?
  {
    var plain := Plain(r.address.value, HashPassword(r.password, r.salt));
    if !Utf8.Encodable(r.password) then users' == users
    else if r.fault.SecondCommitFault? then users' == users[r.id := plain]
    else users' == users[r.id := plain.(customer := r.customer, subscription := r.subscription,
                                        resetToken := Some(r.token), resetExpires := Some(r.now + 604800))]
  }

  /** A delivery that is not recorded yet and gets past its first commit gives the customer id and the
      subscription to the account with the address, or to a new one; any other changes nothing. It is
      answered with success when it is recorded already or reaches its end. */
  ghost predicate CheckoutMeans(users: Users, r: Request, users': Users, reply: Reply)
    requires r.Checkout?
  {
    var commits := Given(r.customer) && !Recorded(users, r.customer) && Given(r.address)
                   && !r.fault.StripeFault? && !r.fault.FirstCommitFault?;
    && (!commits ==> users' == users)
    && (!commits ==> (reply == Done <==> Given(r.customer) && Recorded(users, r.customer)))
    && (commits ==>
          && (forall u | u in users && users[u].email == r.address.value ::
                && users' == users[u := users[u].(customer := r.customer, subscription := r.subscription)]
                && (reply == Done <==> !r.fault.ReplyFault?))
          && ((forall u | u in users :: users[u].email != r.address.value) ==>
                && NewCustomer(users, r, users')
                && (reply == Done <==>
                      Utf8.Encodable(r.password) && !r.fault.SecondCommitFault? && !r.fault.ReplyFault?)))
  }

  lemma CheckoutIff(setting: Setting, users: Users, known: set<UserId>, r: Request)
    requires Inv(users, known) && r.Checkout?
    ensures CheckoutMeans(users, r, Serve(setting, users, r), Respond(setting, users, r).1)
  {
    if Given(r.address) {
      forall u | u in users && users[u].email == r.address.value ensures ByEmail(users, r.address.value) == Some(u) {
        AddressFindsItsUser(users, known, u);
      }
    }
  }

  /** What each permitted admin request changes of the one account, and nothing more. */
  lemma AdminRequestChanges(setting: Setting, users: Users, r: Request)
    requires ByAdmin(r) && Permitted(users, r)
    ensures var users', u := Serve(setting, users, r), r.user;
            match r
            case Activate(_, _) => users' == users[u := users[u].(active := true)]
            case Deactivate(_, _) => users' == users[u := users[u].(active := false)]
            case MakeAdmin(_, _) =>
              && u in users' && users' == users[u := users[u].(roles := users'[u].roles, adminRemoved := false)]
              && users'[u].roles == users[u].roles + if IsAdmin(users[u]) then [] else [ADMIN]
            case RemoveAdmin(_, _) =>
              && u in users' && users' == users[u := users[u].(roles := users'[u].roles, adminRemoved := true)]
              && multiset(users'[u].roles) == multiset(users[u].roles)[ADMIN := 0]
            case Delete(_, _) => users' == users - {u}
  {
    assert users[r.user].roles + [] == users[r.user].roles;
  }
}
