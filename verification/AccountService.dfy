/**
 The user table as the handlers update it: camp44/crud/user.py, camp44/api/v1/oidc.py,
 camp44/api/v1/endpoints/admin.py and the account branches of auth.py, one request at a time.
 Drawn ids and tokens, clock readings and faults are parameters.
 */
module AccountService {
  import opened Wrappers
  import opened Password
  import opened Accounts
  import opened AccountInvariants
  import opened AccountEffects

  class AccountService {
    /** ADMIN_EMAIL_DOMAINS. */
    const setting: Setting
    var users: Users
    /** Every id ever drawn. */
    ghost var known: set<UserId>

    ghost predicate Valid()
      reads this
    {
      Inv(users, known)
    }

    constructor (setting: Setting)
      ensures this.setting == setting && users == map[] && known == {} && Valid()
    {
      this.setting := setting;
      users := map[];
      known := {};
    }

    // Queries: `.first()` of the rows with a value that identifies at most one.

    method GetByEmail(email: string) returns (found: Option<UserId>)
      requires Unique(users)
      ensures found == ByEmail(users, email)
    {
      found := None;
      if u :| u in users && users[u].email == email { found := Some(u); }
    }

    method GetBySub(sub: string) returns (found: Option<UserId>)
      requires Unique(users)
      ensures found == BySub(users, sub)
    {
      found := None;
      if u :| u in users && users[u].oidcSub == Some(sub) { found := Some(u); }
    }

    method GetByCustomer(customer: string) returns (found: Option<UserId>)
      requires Unique(users)
      ensures found == ByCustomer(users, customer)
    {
      found := None;
      if u :| u in users && users[u].customer == Some(customer) { found := Some(u); }
    }

    method GetByResetToken(token: string) returns (found: Option<UserId>)
      requires Unique(users)
      ensures found == ByResetToken(users, token)
    {
      found := None;
      if u :| u in users && users[u].resetToken == Some(token) { found := Some(u); }
    }

    /** Gives the role to an account of the identity provider that was never demoted and has an
        address in an admin domain, unless it has the role; nothing else changes. */
    method EnsureAdminRole(u: UserId)
      requires u in users
      modifies this`users
      ensures old(Valid()) ==> Valid()
      ensures u in users && users == old(users)[u := users[u]] && Promotes(setting, old(users)[u], users[u])
    {
      ghost var before := users;
      PromotesIff(setting, users[u], Promoted(setting, users[u]));
      var user := users[u];
      if user.adminRemoved {
        assert users == users[u := user];
        return;
      }
      if !user.oidcVerified {
        assert users == users[u := user];
        return;
      }
      if IsAdminDomain(setting, user.email) && ADMIN !in user.roles {
        user := user.(roles := user.roles + [ADMIN]);
      }
      users := users[u := user];
      if Inv(before, known) {
        SavedPromotionIsSound(setting, before, known, PasskeyLogin(u), u);
        SoundKeepsInv(before, known, PasskeyLogin(u), Save(u, user));
        assert known + Drawn(PasskeyLogin(u)) == known;
      }
    }

    /** A new account is an ordinary one that only a grant can make an admin, and its owner can log in. */
    method Register(id: UserId, email: string, password: Text, salt: nat) returns (reply: Reply)
      requires Valid() && id !in known
      modifies this`users, this`known
      ensures Valid() && known == old(known) + {id}
      ensures users == Serve(setting, old(users), Request.Register(id, email, password, salt))
      ensures reply == Respond(setting, old(users), Request.Register(id, email, password, salt)).1
      ensures reply != Done ==> users == old(users)
      ensures reply == Done ==> id in users && NeedsGrant(users[id]) && ByEmail(users, email) == Some(id)
      ensures reply == Done ==> Respond(setting, users, Request.Login(email, password)).1 == Done
      ensures RegisterMeans(old(users), Request.Register(id, email, password, salt), users, reply)
    {
      ghost var r := Request.Register(id, email, password, salt);
      StepKeepsInv(setting, users, known, r);
      RegisterIff(setting, users, r);
      var existing := GetByEmail(email);
      known := known + {id};
      if existing.Some? {
        return Refused;
      }
      var digest := HashPassword(password, salt);
      if digest == None {
        return Failed;
      }
      NewPasswordLogsIn(setting, users, old(known), r, id, password);
      AddressFindsItsUser(users[id := NewAccount(email, digest)], known, id);
      users := users[id := NewAccount(email, digest)];
      reply := Done;
    }

    /** Promotion comes before the check that the user is active. */
    method Login(email: string, password: Text) returns (reply: Reply)
      requires Valid()
      modifies this`users
      ensures Valid()
      ensures users == Serve(setting, old(users), Request.Login(email, password))
      ensures reply == Respond(setting, old(users), Request.Login(email, password)).1
      ensures LoginMeans(setting, old(users), email, password, users, reply)
    {
      LoginIff(setting, users, known, email, password);
      var existing := GetByEmail(email);
      if existing == None {
        return Refused;
      }
      var u := existing.value;
      if users[u].digest == None {
        return Refused;
      }
      var verified := VerifyPassword(password, users[u].digest.value);
      if verified == None {
        return Failed;
      }
      if !verified.value {
        return Refused;
      }
      ghost var before := users;
      EnsureAdminRole(u);
      PromotesIff(setting, before[u], users[u]);
      reply := if users[u].active then Done else Refused;
    }

    /** The token is spent, and the user can log in with the new password. */
    method SetPassword(token: string, password: Text, salt: nat, now: int) returns (reply: Reply)
      requires Valid()
      modifies this`users
      ensures Valid()
      ensures users == Serve(setting, old(users), Request.SetPassword(token, password, salt, now))
      ensures reply == Respond(setting, old(users), Request.SetPassword(token, password, salt, now)).1
      ensures reply != Done ==> users == old(users)
      ensures reply == Done ==> ByResetToken(users, token) == None
      ensures reply == Done ==>
                var u := ByResetToken(old(users), token);
                u.Some? && Respond(setting, users, Request.Login(users[u.value].email, password)).1 == Done
      ensures SetPasswordMeans(old(users), Request.SetPassword(token, password, salt, now), users, reply)
    {
      ghost var r := Request.SetPassword(token, password, salt, now);
      StepKeepsInv(setting, users, known, r);
      SetPasswordIff(setting, users, known, r);
      assert known + Drawn(r) == known;
      var found := GetByResetToken(token);
      if |password| < 8 || found == None {
        return Refused;
      }
      var user := users[found.value];
      if user.resetExpires.Some? && user.resetExpires.value < now {
        return Refused;
      }
      var digest := HashPassword(password, salt);
      if digest == None {
        return Failed;
      }
      NewPasswordLogsIn(setting, users, known, r, found.value, password);
      ResetTokenIsSpent(setting, users, known, r);
      user := user.(digest := digest);
      user := user.(resetToken := None);
      user := user.(resetExpires := None);
      user := user.(active := true);
      users := users[found.value := user];
      reply := Done;
    }

    method ForgotPassword(email: string, token: string, now: int) returns (reply: Reply)
      requires Valid() && forall u | u in users :: users[u].resetToken != Some(token)
      modifies this`users
      ensures Valid()
      ensures users == Serve(setting, old(users), Request.ForgotPassword(email, token, now))
      ensures reply == Done
      ensures ForgotPasswordMeans(old(users), Request.ForgotPassword(email, token, now), users, reply)
    {
      ghost var r := Request.ForgotPassword(email, token, now);
      StepKeepsInv(setting, users, known, r);
      ForgotPasswordIff(setting, users, known, r);
      assert known + Drawn(r) == known;
      var found := GetByEmail(email);
      if found.Some? && users[found.value].active {
        users := users[found.value := users[found.value].(resetToken := Some(token), resetExpires := Some(now + DAY))];
      }
      reply := Done;
    }

    method OidcCallback(id: UserId, sub: Option<string>, address: Option<string>) returns (reply: Reply)
      requires Valid() && id !in known
      modifies this`users, this`known
      ensures Valid() && known == old(known) + {id}
      ensures users == Serve(setting, old(users), Request.OidcCallback(id, sub, address))
      ensures reply == Respond(setting, old(users), Request.OidcCallback(id, sub, address)).1
      ensures reply != Done ==> users == old(users)
      ensures reply == Done ==> BySub(users, sub.value).Some?
      ensures OidcMeans(setting, old(users), Request.OidcCallback(id, sub, address), users, reply)
    {
      ghost var r := Request.OidcCallback(id, sub, address);
      ghost var before := users;
      StepKeepsInv(setting, before, known, r);
      OidcIff(setting, before, known, r);
      known := known + {id};
      if !Given(sub) || !Given(address) {
        return Refused;
      }
      reply := SignIn(id, sub.value, address.value);
      SignInWritesTheLinkedAccount(setting, before, r);
    }

    /** Find, link or create, and then promote. */
    method SignIn(id: UserId, sub: string, email: string) returns (reply: Reply)
      requires Unique(users)
      modifies this`users
      ensures reply == Done
      ensures var (u, a) := Linked(setting, old(users), id, sub, email);
              users == old(users)[u := Promoted(setting, a)]
    {
      ghost var before := users;
      var u := FindOrCreate(id, sub, email);
      ghost var linked := users[u];
      EnsureAdminRole(u);
      PromotesIff(setting, linked, users[u]);
      assert users == before[u := users[u]];
      reply := Done;
    }

    method FindOrCreate(id: UserId, sub: string, email: string) returns (u: UserId)
      requires Unique(users)
      modifies this`users
      ensures u == Linked(setting, old(users), id, sub, email).0
      ensures users == old(users)[u := Linked(setting, old(users), id, sub, email).1]
    {
      var found := GetBySub(sub);
      if found.Some? {
        return found.value;
      }
      found := GetByEmail(email);
      if found.Some? {
        users := users[found.value := users[found.value].(oidcSub := Some(sub))];
        return found.value;
      }
      users := users[id := OidcAccount(setting, email, sub)];
      u := id;
    }

    /** Only the address and the password change; an address that is taken makes the update fail. */
    method Update(u: UserId, address: Option<string>, newPassword: Option<Text>, salt: nat) returns (reply: Reply)
      requires Valid()
      modifies this`users
      ensures Valid()
      ensures users == Serve(setting, old(users), Request.Update(u, address, newPassword, salt))
      ensures reply == Respond(setting, old(users), Request.Update(u, address, newPassword, salt)).1
      ensures reply != Done ==> users == old(users)
      ensures reply == Done ==>
                && u in old(users)
                && users == old(users)[u := old(users)[u].(email := users[u].email, digest := users[u].digest)]
                && ByEmail(users, users[u].email) == Some(u)
                && (address.Some? ==> users[u].email == address.value)
                && (newPassword.Some? && users[u].active ==>
                      Respond(setting, users, Request.Login(users[u].email, newPassword.value)).1 == Done)
      ensures ActiveAdmins(users) == ActiveAdmins(old(users))
      ensures UpdateMeans(old(users), Request.Update(u, address, newPassword, salt), users, reply)
    {
      ghost var r := Request.Update(u, address, newPassword, salt);
      UpdateChangesTheProfileOnly(setting, users, known, r);
      StepKeepsInv(setting, users, known, r);
      UpdateIff(setting, users, r);
      assert known + Drawn(r) == known;
      if u !in users {
        return Refused;
      }
      var user := users[u];
      if newPassword.Some? {
        user := user.(digest := HashPassword(newPassword.value, salt));
        if user.digest == None {
          return Failed;
        }
      }
      if address.Some? {
        user := user.(email := address.value);
      }
      if exists v :: v in users && v != u && users[v].email == user.email {
        return Failed;
      }
      if newPassword.Some? {
        NewPasswordLogsIn(setting, users, known, r, u, newPassword.value);
      }
      users := users[u := user];
      reply := Done;
    }

    /** The user joins the active admins if it has the role; nobody leaves them. */
    method Activate(admin: UserId, u: UserId) returns (reply: Reply)
      requires Valid()
      modifies this`users
      ensures Valid()
      ensures users == Serve(setting, old(users), Request.Activate(admin, u))
      ensures reply == Done <==> admin in ActiveAdmins(old(users)) && u in old(users)
      ensures reply != Done ==> users == old(users)
      ensures reply == Done ==> users[u].active && (IsAdmin(users[u]) <==> IsAdmin(old(users)[u]))
      ensures ActiveAdmins(users) ==
                ActiveAdmins(old(users)) + if reply == Done && IsAdmin(users[u]) then {u} else {}
    {
      ghost var r := Request.Activate(admin, u);
      AdminRequestMovesOneUser(setting, users, r);
      StepKeepsInv(setting, users, known, r);
      assert known + Drawn(r) == known;
      if !ActiveAdmin(users, admin) || u !in users {
        return Refused;
      }
      users := users[u := users[u].(active := true)];
      reply := Done;
    }

    /** The user leaves the active admins and nobody else does; the acting admin stays. */
    method Deactivate(admin: UserId, u: UserId) returns (reply: Reply)
      requires Valid()
      modifies this`users
      ensures Valid()
      ensures users == Serve(setting, old(users), Request.Deactivate(admin, u))
      ensures reply == Done <==> admin in ActiveAdmins(old(users)) && u in old(users) && u != admin
      ensures reply != Done ==> users == old(users)
      ensures reply == Done ==> u in users && !users[u].active && admin in ActiveAdmins(users)
      ensures ActiveAdmins(users) == ActiveAdmins(old(users)) - if reply == Done then {u} else {}
    {
      ghost var r := Request.Deactivate(admin, u);
      AdminRequestMovesOneUser(setting, users, r);
      StepKeepsInv(setting, users, known, r);
      assert known + Drawn(r) == known;
      if !ActiveAdmin(users, admin) || u !in users || u == admin {
        return Refused;
      }
      users := users[u := users[u].(active := false)];
      reply := Done;
    }

    /** The user has the role, once, and joins the active admins if it is active; its demotion is
        forgotten, so later logins leave it alone. */
    method MakeAdmin(admin: UserId, u: UserId) returns (reply: Reply)
      requires Valid()
      modifies this`users
      ensures Valid()
      ensures users == Serve(setting, old(users), Request.MakeAdmin(admin, u))
      ensures reply == Done <==> admin in ActiveAdmins(old(users)) && u in old(users)
      ensures reply != Done ==> users == old(users)
      ensures reply == Done ==>
                IsAdmin(users[u]) && multiset(users[u].roles)[ADMIN] == 1 && Promoted(setting, users[u]) == users[u]
      ensures ActiveAdmins(users) ==
                ActiveAdmins(old(users)) + if reply == Done && users[u].active then {u} else {}
    {
      ghost var r := Request.MakeAdmin(admin, u);
      AdminRequestMovesOneUser(setting, users, r);
      StepKeepsInv(setting, users, known, r);
      assert known + Drawn(r) == known;
      if !ActiveAdmin(users, admin) || u !in users {
        return Refused;
      }
      var user := users[u];
      if ADMIN !in user.roles {
        user := user.(roles := user.roles + [ADMIN]);
      }
      user := user.(adminRemoved := false);
      GrantSticks(setting, users, known, r);
      users := users[u := user];
      reply := Done;
    }

    /** The user loses the role and keeps its other roles, and only a grant gives the role back. */
    method RemoveAdmin(admin: UserId, u: UserId) returns (reply: Reply)
      requires Valid()
      modifies this`users
      ensures Valid()
      ensures users == Serve(setting, old(users), Request.RemoveAdmin(admin, u))
      ensures reply == Done <==> admin in ActiveAdmins(old(users)) && u in old(users) && u != admin
      ensures reply != Done ==> users == old(users)
      ensures reply == Done ==>
                && u in users && NeedsGrant(users[u])
                && multiset(users[u].roles) == multiset(old(users)[u].roles)[ADMIN := 0]
                && admin in ActiveAdmins(users)
      ensures ActiveAdmins(users) == ActiveAdmins(old(users)) - if reply == Done then {u} else {}
    {
      ghost var r := Request.RemoveAdmin(admin, u);
      AdminRequestMovesOneUser(setting, users, r);
      StepKeepsInv(setting, users, known, r);
      assert known + Drawn(r) == known;
      if !ActiveAdmin(users, admin) || u !in users || u == admin {
        return Refused;
      }
      var user := users[u];
      if ADMIN in user.roles {
        user := user.(roles := WithoutAdmin(user.roles));
      } else {
        WithoutNothing(user.roles);
      }
      user := user.(adminRemoved := true);
      DemotionSticks(setting, users, r);
      users := users[u := user];
      reply := Done;
    }

    /** The user is gone, everyone else is as before, and the acting admin stays. */
    method Delete(admin: UserId, u: UserId) returns (reply: Reply)
      requires Valid()
      modifies this`users
      ensures Valid()
      ensures users == Serve(setting, old(users), Request.Delete(admin, u))
      ensures reply == Done <==> admin in ActiveAdmins(old(users)) && u in old(users) && u != admin
      ensures reply != Done ==> users == old(users)
      ensures reply == Done ==>
                && u !in users && ByEmail(users, old(users)[u].email) == None
                && (forall v | v in old(users) && v != u :: v in users && users[v] == old(users)[v])
                && admin in ActiveAdmins(users)
      ensures ActiveAdmins(users) == ActiveAdmins(old(users)) - if reply == Done then {u} else {}
    {
      ghost var r := Request.Delete(admin, u);
      AdminRequestMovesOneUser(setting, users, r);
      StepKeepsInv(setting, users, known, r);
      assert known + Drawn(r) == known;
      if !ActiveAdmin(users, admin) || u !in users || u == admin {
        return Refused;
      }
      DeletionFreesTheAddress(setting, users, known, r);
      users := users - {u};
      reply := Done;
    }

    /** `checkout.session.completed`; each assignment to `users` is a commit. */
    method Checkout(id: UserId, customer: Option<string>, subscription: Option<string>, address: Option<string>,
                    password: Text, salt: nat, token: string, now: int, fault: Fault)
      returns (reply: Reply)
      requires Valid() && id !in known && forall u | u in users :: users[u].resetToken != Some(token)
      modifies this`users, this`known
      ensures Valid() && known == old(known) + {id}
      ensures var r := Request.Checkout(id, customer, subscription, address, password, salt, token, now, fault);
              users == Serve(setting, old(users), r) && reply == Respond(setting, old(users), r).1
      ensures reply == Done ==> customer.Some? && ByCustomer(users, customer.value).Some?
      ensures var r := Request.Checkout(id, customer, subscription, address, password, salt, token, now, fault);
              CheckoutMeans(old(users), r, users, reply)
    {
      ghost var r := Request.Checkout(id, customer, subscription, address, password, salt, token, now, fault);
      StepKeepsInv(setting, users, known, r);
      CheckoutIff(setting, users, known, r);
      if Respond(setting, users, r).1 == Done { CheckoutFindsItsCustomer(setting, users, r); }
      reply := Settle(id, customer, subscription, address, password, salt, token, now, fault);
      known := known + {id};
    }

    /** The body of the webhook branch. */
    method Settle(id: UserId, customer: Option<string>, subscription: Option<string>, address: Option<string>,
                  password: Text, salt: nat, token: string, now: int, fault: Fault)
      returns (reply: Reply)
      requires Unique(users)
      modifies this`users
      ensures var r := Request.Checkout(id, customer, subscription, address, password, salt, token, now, fault);
              users == Serve(setting, old(users), r) && reply == Respond(setting, old(users), r).1
    {
      if !Given(customer) {
        return Refused;
      }
      var existing := GetByCustomer(customer.value);
      if existing.Some? {
        return Done;
      }
      if fault.StripeFault? {
        return Failed;
      }
      if !Given(address) {
        return Refused;
      }
      existing := GetByEmail(address.value);
      if existing.Some? {
        reply := AddSubscription(existing.value, customer, subscription, fault);
      } else {
        reply := CreateCustomer(id, customer, subscription, address.value, password, salt, token, now, fault);
      }
    }

    /** The single commit that makes an existing user a paying one. */
    method AddSubscription(u: UserId, customer: Option<string>, subscription: Option<string>, fault: Fault)
      returns (reply: Reply)
      requires u in users
      modifies this`users
      ensures reply == if fault.FirstCommitFault? then Failed else Answered(fault)
      ensures users == if fault.FirstCommitFault? then old(users)
                       else old(users)[u := old(users)[u].(customer := customer, subscription := subscription)]
    {
      if fault.FirstCommitFault? {
        return Failed;
      }
      users := users[u := users[u].(customer := customer, subscription := subscription)];
      reply := Answered(fault);
    }

    /** The two commits that create a paying user; a fault between them leaves the plain user. */
    method CreateCustomer(id: UserId, customer: Option<string>, subscription: Option<string>, email: string,
                          password: Text, salt: nat, token: string, now: int, fault: Fault)
      returns (reply: Reply)
      modifies this`users
      ensures reply == (if HashPassword(password, salt) == None || fault.FirstCommitFault? || fault.SecondCommitFault?
                        then Failed else Answered(fault))
      ensures users ==
                if HashPassword(password, salt) == None || fault.FirstCommitFault? then old(users)
                else if fault.SecondCommitFault? then old(users)[id := NewAccount(email, HashPassword(password, salt))]
                else old(users)[id := NewAccount(email, HashPassword(password, salt)).(
                       customer := customer, subscription := subscription,
                       resetToken := Some(token), resetExpires := Some(now + WEEK))]
    {
      var digest := HashPassword(password, salt);
      if digest == None || fault.FirstCommitFault? {
        return Failed;
      }
      ghost var before := users;
      var user := NewAccount(email, digest);
      users := users[id := user];
      if fault.SecondCommitFault? {
        return Failed;
      }
      user := user.(customer := customer, subscription := subscription);
      user := user.(resetToken := Some(token), resetExpires := Some(now + WEEK));
      users := users[id := user];
      assert users == before[id := user];
      reply := Answered(fault);
    }

    /** `customer.subscription.deleted`. */
    method Cancel(customer: Option<string>) returns (reply: Reply)
      requires Valid()
      modifies this`users
      ensures Valid()
      ensures users == Serve(setting, old(users), Request.Cancel(customer)) && reply == Done
      ensures CancelMeans(old(users), customer, users, reply)
    {
      ghost var r := Request.Cancel(customer);
      StepKeepsInv(setting, users, known, r);
      CancelIff(setting, users, known, customer);
      assert known + Drawn(r) == known;
      reply := Done;
      if !Given(customer) {
        return;
      }
      var found := GetByCustomer(customer.value);
      if found.Some? {
        users := users[found.value := users[found.value].(active := false, subscription := None)];
      }
    }
  }

  lemma {:induction false} WithoutNothing(roles: seq<string>)
    requires ADMIN !in roles
    ensures WithoutAdmin(roles) == roles
    decreases |roles|
  {
    if roles != [] { WithoutNothing(roles[1..]); }
  }
}
