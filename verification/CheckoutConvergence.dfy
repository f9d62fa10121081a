/** Retried deliveries of one checkout event (camp44/api/v1/endpoints/auth.py) converge. */
module CheckoutConvergence {
  import opened Wrappers
  import opened Password
  import opened Accounts
  import opened AccountInvariants

  /** A delivery of the event: the attempt's own random values, clock and fault are free. */
  predicate Delivers(r: Request, customer: string, email: string) {
    r.Checkout? && r.customer == Some(customer) && customer != "" && r.address == Some(email) && email != ""
  }

  predicate LosesReply(r: Request) {
    r.Checkout? && r.fault.ReplyFault?
  }

  predicate NoReplyIsLost(run: seq<Request>) {
    forall i | 0 <= i < |run| :: !LosesReply(run[i])
  }

  ghost predicate Unclaimed(users: Users, customer: string) {
    forall u | u in users :: users[u].customer != Some(customer)
  }

  /** Exactly one user has the address, exactly one has the customer id, and they are the same. */
  ghost predicate Settled(users: Users, customer: string, email: string, u: UserId) {
    && u in users && users[u].email == email && users[u].customer == Some(customer)
    && forall v | v in users && (users[v].email == email || users[v].customer == Some(customer)) :: v == u
  }

  ghost predicate SettledBySomeone(users: Users, customer: string, email: string) {
    exists u :: Settled(users, customer, email, u)
  }

  ghost predicate OthersUntouched(before: Users, after: Users, email: string) {
    && (forall v | v in before && before[v].email != email :: v in after && after[v] == before[v])
    && (forall v | v in after && (v in before ==> before[v].email == email) :: after[v].email == email)
  }

  /** A delivery writes at most the account with the event's address, with the customer id on
      success and, unless only the reply was lost, without it on failure. */
  lemma DeliveryEffect(setting: Setting, users: Users, known: set<UserId>, r: Request, customer: string, email: string)
    requires Inv(users, known) && Enabled(users, known, r) && Delivers(r, customer, email)
    requires Unclaimed(users, customer)
    ensures var (effect, reply) := Respond(setting, users, r);
            && (reply == Done || reply == Failed)
            && !effect.Remove?
            && (reply == Done ==> effect.Save? && effect.account.customer == Some(customer))
            && (effect.Save? && effect.account.customer != None ==>
                  effect.account.customer == Some(customer) && (reply == Done || r.fault.ReplyFault?))
            && (effect.Save? ==>
                  && effect.account.email == email
                  && (effect.user in users ==> users[effect.user].email == email))
  {}

  /** A success settles the event; a failure leaves the customer unclaimed, unless only the reply
      was lost. */
  lemma DeliveryStep(setting: Setting, users: Users, known: set<UserId>, r: Request, customer: string, email: string)
    requires Inv(users, known) && Enabled(users, known, r) && Delivers(r, customer, email)
    requires Unclaimed(users, customer)
    ensures var users', reply := Serve(setting, users, r), Respond(setting, users, r).1;
            && (reply == Done ==> SettledBySomeone(users', customer, email))
            && (reply != Done ==> reply == Failed)
            && (SettledBySomeone(users', customer, email) || Unclaimed(users', customer))
            && (reply != Done && !r.fault.ReplyFault? ==> Unclaimed(users', customer))
            && OthersUntouched(users, users', email)
  {
    StepKeepsInv(setting, users, known, r);
    DeliveryEffect(setting, users, known, r, customer, email);
    var (effect, reply) := Respond(setting, users, r);
    var users' := Apply(users, effect);
    if effect.Save? && effect.account.customer != None {
      var u := effect.user;
      assert forall v | v in users' && v != u :: Apart(users'[u], users'[v]);
      assert Settled(users', customer, email, u);
    }
  }

  /** Once settled, further deliveries report success and change nothing. */
  lemma SettledIsFinal(setting: Setting, users: Users, r: Request, customer: string, email: string, u: UserId)
    requires Delivers(r, customer, email) && Settled(users, customer, email, u)
    ensures Serve(setting, users, r) == users && Respond(setting, users, r).1 == Done
  {
    assert ByCustomer(users, customer).Some?;
  }

  /** A delivery without a fault succeeds, whatever earlier attempts left behind. */
  lemma CleanDeliverySucceeds(setting: Setting, users: Users, r: Request, customer: string, email: string)
    requires Delivers(r, customer, email) && r.fault.NoFault? && HashPassword(r.password, r.salt).Some?
    ensures Respond(setting, users, r).1 == Done
  {}

  /** Some delivery of the run was answered with success. */
  ghost predicate Succeeded(setting: Setting, users: Users, run: seq<Request>)
    decreases |run|
  {
    run != []
    && (Respond(setting, users, run[0]).1 == Done || Succeeded(setting, Serve(setting, users, run[0]), run[1..]))
  }

  lemma {:induction false} StaysSettled(
      setting: Setting, users: Users, run: seq<Request>, customer: string, email: string, u: UserId)
    requires Settled(users, customer, email, u)
    requires forall i | 0 <= i < |run| :: Delivers(run[i], customer, email)
    ensures Run(setting, users, run) == users
    decreases |run|
  {
    if run != [] {
      SettledIsFinal(setting, users, run[0], customer, email, u);
      StaysSettled(setting, users, run[1..], customer, email, u);
    }
  }

  lemma UntouchedIsTransitive(a: Users, b: Users, c: Users, email: string)
    requires OthersUntouched(a, b, email) && OthersUntouched(b, c, email)
    ensures OthersUntouched(a, c, email)
  {}

  /** Any number of deliveries of one event, each failing anywhere: once one has succeeded there is
      exactly one user with the address and it carries the customer id, for good. At every other
      time the event is settled the same way or no user carries the id, and only a lost reply can
      settle it without a success. Accounts with other addresses are never touched. */
  lemma {:induction false} DeliveriesConverge(
      setting: Setting, users: Users, known: set<UserId>, run: seq<Request>, customer: string, email: string)
    requires Inv(users, known) && Valid(setting, users, known, run) && Unclaimed(users, customer)
    requires forall i | 0 <= i < |run| :: Delivers(run[i], customer, email)
    ensures var e := Run(setting, users, run);
            && (Succeeded(setting, users, run) ==> SettledBySomeone(e, customer, email))
            && (SettledBySomeone(e, customer, email) || Unclaimed(e, customer))
            && (!Succeeded(setting, users, run) && NoReplyIsLost(run) ==> Unclaimed(e, customer))
            && OthersUntouched(users, e, email)
            && Unique(e)
    decreases |run|
  {
    if run != [] {
      var r, rest := run[0], run[1..];
      var users' := Serve(setting, users, r);
      assert Delivers(r, customer, email) && forall i | 0 <= i < |rest| :: Delivers(rest[i], customer, email);
      DeliveryStep(setting, users, known, r, customer, email);
      StepKeepsInv(setting, users, known, r);
      if SettledBySomeone(users', customer, email) {
        var u :| Settled(users', customer, email, u);
        StaysSettled(setting, users', rest, customer, email, u);
      } else {
        DeliveriesConverge(setting, users', known + Drawn(r), rest, customer, email);
        UntouchedIsTransitive(users, users', Run(setting, users', rest), email);
      }
    }
  }

  /** A delivery without a fault settles the event, whether or not it is settled already. */
  lemma CleanDeliverySettles(
      setting: Setting, users: Users, known: set<UserId>, last: Request, customer: string, email: string)
    requires Inv(users, known) && Enabled(users, known, last)
    requires Delivers(last, customer, email) && last.fault.NoFault? && HashPassword(last.password, last.salt).Some?
    requires SettledBySomeone(users, customer, email) || Unclaimed(users, customer)
    ensures SettledBySomeone(Serve(setting, users, last), customer, email)
  {
    CleanDeliverySucceeds(setting, users, last, customer, email);
    if Unclaimed(users, customer) {
      DeliveryStep(setting, users, known, last, customer, email);
    } else {
      var u :| Settled(users, customer, email, u);
      SettledIsFinal(setting, users, last, customer, email, u);
    }
  }

  /** Retrying succeeds: however many deliveries of the event failed, wherever they broke off, one
      more without a fault leaves exactly one user with the address, carrying the customer id. */
  lemma RetryingSettles(
      setting: Setting, users: Users, known: set<UserId>, run: seq<Request>, last: Request,
      customer: string, email: string)
    requires Inv(users, known) && Valid(setting, users, known, run + [last]) && Unclaimed(users, customer)
    requires forall i | 0 <= i < |run| :: Delivers(run[i], customer, email)
    requires Delivers(last, customer, email) && last.fault.NoFault? && HashPassword(last.password, last.salt).Some?
    ensures SettledBySomeone(Run(setting, users, run + [last]), customer, email)
  {
    RunWithLast(setting, users, known, run, last);
    DeliveriesConverge(setting, users, known, run, customer, email);
    RunKeepsInv(setting, users, known, run);
    CleanDeliverySettles(setting, Run(setting, users, run), AllDrawn(known, run), last, customer, email);
  }

  // ---------------------------------------------------------------------------------------
  // The token with which a new paying user sets a password.
  // ---------------------------------------------------------------------------------------

  /** The delivery gets past its first commit. */
  predicate Commits(r: Request) {
    r.Checkout? && !r.fault.StripeFault? && !r.fault.FirstCommitFault? && HashPassword(r.password, r.salt).Some?
  }

  /** The token that a delivery which creates the account leaves in it. */
  function TokenOf(r: Request): Option<string>
    requires Commits(r)
  {
    if r.fault.SecondCommitFault? then None else Some(r.token)
  }

  /** The first delivery to get past its first commit. */
  function FirstCommit(run: seq<Request>): (first: Option<Request>)
    ensures first.Some? ==> first.value in run && Commits(first.value)
    decreases |run|
  {
    if run == [] then None else if Commits(run[0]) then Some(run[0]) else FirstCommit(run[1..])
  }

  /** The only account with the address is this user's, and its reset token is as given. */
  ghost predicate Holds(users: Users, email: string, u: UserId, token: Option<string>) {
    && u in users && users[u].email == email && users[u].resetToken == token
    && forall v | v in users && users[v].email == email :: v == u
  }

  ghost predicate Unknown(users: Users, email: string) {
    forall u | u in users :: users[u].email != email
  }

  lemma {:induction false} DeliveriesKeepToken(
      setting: Setting, users: Users, run: seq<Request>, customer: string, email: string,
      u: UserId, token: Option<string>)
    requires Holds(users, email, u, token)
    requires forall i | 0 <= i < |run| :: Delivers(run[i], customer, email)
    ensures Holds(Run(setting, users, run), email, u, token)
    decreases |run|
  {
    if run != [] {
      assert ByEmail(users, email) == Some(u);
      DeliveriesKeepToken(setting, Serve(setting, users, run[0]), run[1..], customer, email, u, token);
    }
  }

  lemma FirstDeliveryToken(
      setting: Setting, users: Users, known: set<UserId>, r: Request, customer: string, email: string)
    requires Inv(users, known) && Enabled(users, known, r) && Delivers(r, customer, email)
    requires Unclaimed(users, customer) && Unknown(users, email)
    ensures if Commits(r)
            then Holds(Serve(setting, users, r), email, r.id, TokenOf(r))
            else Serve(setting, users, r) == users
  {
    assert ByEmail(users, email) == None && ByCustomer(users, customer) == None;
  }

  /** A new paying user's account carries the token of the first delivery that got past its first
      commit, exactly when that delivery did not break off before its second: a retry that finds the
      half-made account issues none. */
  lemma {:induction false} NewCustomerHasTokenIff(
      setting: Setting, users: Users, known: set<UserId>, run: seq<Request>, customer: string, email: string)
    requires Inv(users, known) && Valid(setting, users, known, run)
    requires Unclaimed(users, customer) && Unknown(users, email)
    requires forall i | 0 <= i < |run| :: Delivers(run[i], customer, email)
    ensures var e := Run(setting, users, run);
            match FirstCommit(run)
            case None => e == users
            case Some(r) => Holds(e, email, r.id, TokenOf(r))
    decreases |run|
  {
    if run != [] {
      var r, rest := run[0], run[1..];
      assert Delivers(r, customer, email) && forall i | 0 <= i < |rest| :: Delivers(rest[i], customer, email);
      FirstDeliveryToken(setting, users, known, r, customer, email);
      if Commits(r) {
        DeliveriesKeepToken(setting, Serve(setting, users, r), rest, customer, email, r.id, TokenOf(r));
      } else {
        StepKeepsInv(setting, users, known, r);
        NewCustomerHasTokenIff(setting, users, known + Drawn(r), rest, customer, email);
      }
    }
  }

  /** The failing deliveries: the first breaks off between its commits, the retry is answered with
      success, and the new user has no token. */
  lemma ARetryIssuesNoToken(
      setting: Setting, users: Users, known: set<UserId>, broken: Request, retry: Request,
      customer: string, email: string)
    requires Inv(users, known) && Valid(setting, users, known, [broken, retry])
    requires Unclaimed(users, customer) && Unknown(users, email)
    requires Delivers(broken, customer, email) && Delivers(retry, customer, email)
    requires Commits(broken) && broken.fault.SecondCommitFault? && Commits(retry) && retry.fault.NoFault?
    ensures var users' := Serve(setting, users, broken);
            && Respond(setting, users', retry).1 == Done
            && Run(setting, users, [broken, retry]) == Serve(setting, users', retry)
            && Settled(Serve(setting, users', retry), customer, email, broken.id)
            && Holds(Serve(setting, users', retry), email, broken.id, None)
  {
    var users' := Serve(setting, users, broken);
    var run := [broken, retry];
    assert run[1..] == [retry] && [retry][1..] == [];
    assert Run(setting, users', [retry]) == Run(setting, Serve(setting, users', retry), []);
    NewCustomerHasTokenIff(setting, users, known, run, customer, email);
    CleanDeliverySucceeds(setting, users', retry, customer, email);
    StepKeepsInv(setting, users, known, broken);
    DeliveryStep(setting, users, known, broken, customer, email);
    assert Enabled(users', known + Drawn(broken), retry);
    if SettledBySomeone(users', customer, email) {
      var u :| Settled(users', customer, email, u);
      SettledIsFinal(setting, users', retry, customer, email, u);
    } else {
      DeliveryStep(setting, users', known + Drawn(broken), retry, customer, email);
    }
  }

  // ---------------------------------------------------------------------------------------
  // Deliveries among all other requests.
  // ---------------------------------------------------------------------------------------

  /** The request deletes the user, changes its address, or gives it another customer id. */
  ghost predicate TakesAway(users: Users, r: Request, u: UserId)
    requires u in users
  {
    match r
    case Delete(admin, v) => ActiveAdmin(users, admin) && v == u != admin
    case Update(v, address, password, salt) =>
      && v == u && address.Some? && address.value != users[u].email
      && (password.Some? ==> HashPassword(password.value, salt).Some?)
      && forall w | w in users && w != u :: users[w].email != address.value
    case Checkout(_, customer, _, address, _, _, _, _, fault) =>
      && Given(customer) && Given(address) && address.value == users[u].email
      && (forall w | w in users :: users[w].customer != customer)
      && !fault.StripeFault? && !fault.FirstCommitFault?
    case _ => false
  }

  /** The effect leaves the user its address and its customer id. */
  predicate KeepsIdentity(users: Users, effect: Effect, u: UserId)
    requires u in users
  {
    match effect
    case Keep => true
    case Save(v, a) => v == u ==> a.email == users[u].email && a.customer == users[u].customer
    case Remove(v) => v != u
  }

  lemma AdminRequestKeepsIdentityIff(setting: Setting, users: Users, r: Request, u: UserId)
    requires ByAdmin(r) && u in users
    ensures KeepsIdentity(users, Respond(setting, users, r).0, u) <==> !TakesAway(users, r, u)
  {}

  lemma LoginKeepsIdentity(setting: Setting, users: Users, known: set<UserId>, r: Request, u: UserId)
    requires Inv(users, known) && Enabled(users, known, r) && u in users
    requires r.Login? || r.PasskeyLogin? || r.OidcCallback?
    ensures KeepsIdentity(users, Respond(setting, users, r).0, u)
  {}

  lemma CheckoutKeepsIdentityIff(setting: Setting, users: Users, known: set<UserId>, r: Request, u: UserId)
    requires Inv(users, known) && Enabled(users, known, r) && u in users && r.Checkout?
    ensures KeepsIdentity(users, Respond(setting, users, r).0, u) <==> !TakesAway(users, r, u)
  {
    if Given(r.address) && users[u].email == r.address.value {
      assert ByEmail(users, r.address.value) == Some(u);
    }
  }

  lemma OtherRequestKeepsIdentityIff(setting: Setting, users: Users, known: set<UserId>, r: Request, u: UserId)
    requires Inv(users, known) && Enabled(users, known, r) && u in users
    requires r.Register? || r.SetPassword? || r.ForgotPassword? || r.Update? || r.Cancel?
    ensures KeepsIdentity(users, Respond(setting, users, r).0, u) <==> !TakesAway(users, r, u)
  {}

  lemma KeepsIdentityIff(setting: Setting, users: Users, known: set<UserId>, r: Request, u: UserId)
    requires Inv(users, known) && Enabled(users, known, r) && u in users
    ensures KeepsIdentity(users, Respond(setting, users, r).0, u) <==> !TakesAway(users, r, u)
  {
    if ByAdmin(r) { AdminRequestKeepsIdentityIff(setting, users, r, u); }
    else if r.Checkout? { CheckoutKeepsIdentityIff(setting, users, known, r, u); }
    else if r.Login? || r.PasskeyLogin? || r.OidcCallback? { LoginKeepsIdentity(setting, users, known, r, u); }
    else { OtherRequestKeepsIdentityIff(setting, users, known, r, u); }
  }

  lemma EffectKeepsSettledIff(
      users: Users, known: set<UserId>, r: Request, effect: Effect, customer: string, email: string, u: UserId)
    requires Inv(users, known) && Sound(users, r, effect) && Settled(users, customer, email, u)
    ensures Settled(Apply(users, effect), customer, email, u) <==> KeepsIdentity(users, effect, u)
  {}

  /** A settled event survives a request, whatever it is, if and only if the request does not delete
      the user, change its address, or give it another customer id. */
  lemma SettledSurvivesIff(
      setting: Setting, users: Users, known: set<UserId>, r: Request, customer: string, email: string, u: UserId)
    requires Inv(users, known) && Enabled(users, known, r) && Settled(users, customer, email, u)
    ensures Settled(Serve(setting, users, r), customer, email, u) <==> !TakesAway(users, r, u)
  {
    EveryRequestIsSound(setting, users, known, r);
    KeepsIdentityIff(setting, users, known, r, u);
    EffectKeepsSettledIff(users, known, r, Respond(setting, users, r).0, customer, email, u);
  }

  /** A checkout of the same customer under another address. */
  predicate ClaimsElsewhere(r: Request, customer: string, email: string) {
    r.Checkout? && r.customer == Some(customer) && Given(r.address) && r.address.value != email
  }

  lemma CheckoutStaysUnclaimed(setting: Setting, users: Users, r: Request, customer: string, email: string)
    requires r.Checkout? && Unclaimed(users, customer) && customer != "" && email != ""
    requires !Delivers(r, customer, email) && !ClaimsElsewhere(r, customer, email)
    ensures Unclaimed(Serve(setting, users, r), customer)
  {}

  lemma UpdateStaysUnclaimed(setting: Setting, users: Users, r: Request, customer: string)
    requires r.Update? && Unclaimed(users, customer)
    ensures Unclaimed(Serve(setting, users, r), customer)
  {}

  /** Requests other than a checkout of this customer cannot give the customer id to anyone. */
  lemma StaysUnclaimed(setting: Setting, users: Users, known: set<UserId>, r: Request, customer: string, email: string)
    requires Inv(users, known) && Enabled(users, known, r) && Unclaimed(users, customer)
    requires customer != "" && email != "" && !Delivers(r, customer, email) && !ClaimsElsewhere(r, customer, email)
    ensures Unclaimed(Serve(setting, users, r), customer)
  {
    if r.Checkout? { CheckoutStaysUnclaimed(setting, users, r, customer, email); }
    else if r.Update? { UpdateStaysUnclaimed(setting, users, r, customer); }
    else {
      var effect := Respond(setting, users, r).0;
      if effect.Save? && effect.user in users { KeepsIdentityIff(setting, users, known, r, effect.user); }
      if effect.Save? && effect.user !in users { NewAccountsHaveNoCustomer(setting, users, r); }
    }
  }

  lemma NewAccountsHaveNoCustomer(setting: Setting, users: Users, r: Request)
    requires !r.Checkout? && Respond(setting, users, r).0.Save? && Respond(setting, users, r).0.user !in users
    ensures Respond(setting, users, r).0.account.customer == None
  {}

  ghost predicate Disturbs(users: Users, r: Request, customer: string, email: string) {
    if SettledBySomeone(users, customer, email)
    then exists u :: Settled(users, customer, email, u) && TakesAway(users, r, u)
    else ClaimsElsewhere(r, customer, email)
  }

  ghost predicate Undisturbed(setting: Setting, users: Users, run: seq<Request>, customer: string, email: string)
    decreases |run|
  {
    run == []
    || (!Disturbs(users, run[0], customer, email)
        && Undisturbed(setting, Serve(setting, users, run[0]), run[1..], customer, email))
  }

  /** Some delivery of the event in the run was answered with success. */
  ghost predicate Accepted(setting: Setting, users: Users, run: seq<Request>, customer: string, email: string)
    decreases |run|
  {
    run != []
    && ((Delivers(run[0], customer, email) && Respond(setting, users, run[0]).1 == Done)
        || Accepted(setting, Serve(setting, users, run[0]), run[1..], customer, email))
  }

  lemma {:induction false} StaysSettledAmongOthers(
      setting: Setting, users: Users, known: set<UserId>, run: seq<Request>, customer: string, email: string, u: UserId)
    requires Inv(users, known) && Valid(setting, users, known, run)
    requires Settled(users, customer, email, u) && Undisturbed(setting, users, run, customer, email)
    ensures Settled(Run(setting, users, run), customer, email, u)
    decreases |run|
  {
    if run != [] {
      StepKeepsInv(setting, users, known, run[0]);
      SettledSurvivesIff(setting, users, known, run[0], customer, email, u);
      var users' := Serve(setting, users, run[0]);
      StaysSettledAmongOthers(setting, users', known + Drawn(run[0]), run[1..], customer, email, u);
    }
  }

  /** Deliveries converge among all other requests too, as long as none takes the event's account
      away: once a delivery has been answered with success exactly one user has the address and it
      carries the customer id; at every other time the event is settled the same way or no user
      carries the id, and without a lost reply only a success settles it. */
  lemma {:induction false} DeliveriesConvergeAmongOthers(
      setting: Setting, users: Users, known: set<UserId>, run: seq<Request>, customer: string, email: string)
    requires Inv(users, known) && Valid(setting, users, known, run)
    requires customer != "" && email != "" && Unclaimed(users, customer)
    requires Undisturbed(setting, users, run, customer, email)
    ensures var e := Run(setting, users, run);
            && (Accepted(setting, users, run, customer, email) ==> SettledBySomeone(e, customer, email))
            && (SettledBySomeone(e, customer, email) || Unclaimed(e, customer))
            && (!Accepted(setting, users, run, customer, email) && NoReplyIsLost(run) ==> Unclaimed(e, customer))
    decreases |run|
  {
    if run != [] {
      var r, rest := run[0], run[1..];
      var users' := Serve(setting, users, r);
      StepKeepsInv(setting, users, known, r);
      if Delivers(r, customer, email) { DeliveryStep(setting, users, known, r, customer, email); }
      else { StaysUnclaimed(setting, users, known, r, customer, email); }
      if SettledBySomeone(users', customer, email) {
        var u :| Settled(users', customer, email, u);
        StaysSettledAmongOthers(setting, users', known + Drawn(r), rest, customer, email, u);
      } else {
        DeliveriesConvergeAmongOthers(setting, users', known + Drawn(r), rest, customer, email);
      }
    }
  }

  /** Retrying succeeds among all other requests too. */
  lemma RetryingSettlesAmongOthers(
      setting: Setting, users: Users, known: set<UserId>, run: seq<Request>, last: Request,
      customer: string, email: string)
    requires Inv(users, known) && Valid(setting, users, known, run + [last]) && Unclaimed(users, customer)
    requires Undisturbed(setting, users, run, customer, email)
    requires Delivers(last, customer, email) && last.fault.NoFault? && HashPassword(last.password, last.salt).Some?
    ensures SettledBySomeone(Run(setting, users, run + [last]), customer, email)
  {
    RunWithLast(setting, users, known, run, last);
    DeliveriesConvergeAmongOthers(setting, users, known, run, customer, email);
    RunKeepsInv(setting, users, known, run);
    CleanDeliverySettles(setting, Run(setting, users, run), AllDrawn(known, run), last, customer, email);
  }
}
