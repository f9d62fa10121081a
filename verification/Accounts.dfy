/**
 User accounts and the admin role: the effects of registration, logins, OIDC, password reset,
 profile updates, the admin endpoints and the Stripe webhook on the user table, one request at a
 time (camp44/crud/user.py, camp44/api/v1/endpoints/admin.py and auth.py, camp44/api/v1/oidc.py).
 */
module Accounts {
  import opened Wrappers
  import Utf8
  import TokenModel
  import opened Password

  type UserId = TokenModel.UserId
  type Text = seq<Utf8.CodePoint>

  const ADMIN := "admin"

  datatype Account = Account(
    email: string,
    digest: Option<Digest>,
    roles: seq<string>,
    active: bool,
    version: int,
    oidcSub: Option<string>,
    oidcVerified: bool,
    adminRemoved: bool,
    customer: Option<string>,
    subscription: Option<string>,
    resetToken: Option<string>,
    resetExpires: Option<int>)

  type Users = map<UserId, Account>

  predicate IsAdmin(a: Account) {
    ADMIN in a.roles
  }

  predicate ActiveAdmin(users: Users, u: UserId) {
    u in users && users[u].active && IsAdmin(users[u])
  }

  function ActiveAdmins(users: Users): set<UserId> {
    set u | u in users && users[u].active && IsAdmin(users[u])
  }

  // ---------------------------------------------------------------------------------------
  // Admin domains.
  // ---------------------------------------------------------------------------------------

  /** ADMIN_EMAIL_DOMAINS, and Python's `str.lower`, about which nothing is assumed. */
  datatype Setting = Setting(domains: string, lower: string -> string)

  /** What `str.strip` removes. */
  predicate Blank(c: char) {
    || '\t' <= c <= '\r' || '\U{1C}' <= c <= ' ' || c == '\U{85}' || c == '\U{A0}' || c == '\U{1680}'
    || '\U{2000}' <= c <= '\U{200A}' || c == '\U{2028}' || c == '\U{2029}' || c == '\U{202F}'
    || c == '\U{205F}' || c == '\U{3000}'
  }

  function Strip(s: string): string {
    if s != "" && Blank(s[0]) then Strip(s[1..])
    else if s != "" && Blank(s[|s| - 1]) then Strip(s[..|s| - 1])
    else s
  }

  /** Stripping takes away blanks at both ends, all of them, and nothing else. */
  lemma {:induction false} StripTakesOuterBlanks(s: string) returns (i: nat, j: nat)
    ensures i <= j <= |s| && Strip(s) == s[i..j]
    ensures forall k | 0 <= k < |s| && !(i <= k < j) :: Blank(s[k])
    ensures i < j ==> !Blank(s[i]) && !Blank(s[j - 1])
    decreases |s|
  {
    if s != "" && Blank(s[0]) {
      var rest := s[1..];
      var m, n := StripTakesOuterBlanks(rest);
      assert rest[m..n] == s[m + 1..n + 1];
      i, j := m + 1, n + 1;
      forall k | 0 <= k < |s| && !(i <= k < j) ensures Blank(s[k]) {
        if k > 0 { assert s[k] == rest[k - 1]; }
      }
    } else if s != "" && Blank(s[|s| - 1]) {
      var init := s[..|s| - 1];
      i, j := StripTakesOuterBlanks(init);
      assert init[i..j] == s[i..j];
      forall k | 0 <= k < |s| && !(i <= k < j) ensures Blank(s[k]) {
        if k < |init| { assert s[k] == init[k]; }
      }
    } else {
      i, j := 0, |s|;
      assert s[0..|s|] == s;
    }
  }

  /** The comma-separated entries, blank ones dropped. */
  function AdminDomains(setting: Setting): seq<string> {
    SplitDomains(setting, setting.domains, "")
  }

  function SplitDomains(setting: Setting, rest: string, entry: string): seq<string> {
    if rest == "" then Listed(setting, entry)
    else if rest[0] == ',' then Listed(setting, entry) + SplitDomains(setting, rest[1..], "")
    else SplitDomains(setting, rest[1..], entry + [rest[0]])
  }

  function Listed(setting: Setting, entry: string): seq<string> {
    if Strip(entry) == "" then [] else [setting.lower(Strip(entry))]
  }

  /** The part after the last "@", or everything. */
  function Domain(email: string): string {
    if '@' !in email then email
    else if email[0] == '@' && '@' !in email[1..] then email[1..]
    else Domain(email[1..])
  }

  predicate IsAdminDomain(setting: Setting, email: string) {
    setting.lower(Domain(email)) in AdminDomains(setting)
  }

  /** The setting that lists the entries, separated by commas. */
  function Commas(entries: seq<string>): string
    requires entries != []
  {
    if |entries| == 1 then entries[0] else entries[0] + ("," + Commas(entries[1..]))
  }

  /** The entry names the domain, up to case and surrounding blanks. */
  predicate Names(setting: Setting, entry: string, domain: string) {
    Strip(entry) != "" && setting.lower(Strip(entry)) == setting.lower(domain)
  }

  lemma {:induction false} SplitFirstEntry(setting: Setting, first: string, rest: string, entry: string)
    requires ',' !in first
    ensures SplitDomains(setting, first, entry) == Listed(setting, entry + first)
    ensures SplitDomains(setting, first + ("," + rest), entry)
            == Listed(setting, entry + first) + SplitDomains(setting, rest, "")
    decreases |first|
  {
    var all := first + ("," + rest);
    if first == "" {
      assert entry + first == entry;
      assert all[0] == ',' && all[1..] == rest;
    } else {
      SplitFirstEntry(setting, first[1..], rest, entry + [first[0]]);
      assert entry + [first[0]] + first[1..] == entry + first;
      assert all[0] == first[0] && all[1..] == first[1..] + ("," + rest);
    }
  }

  lemma {:induction false} ListedDomains(setting: Setting, entries: seq<string>, domain: string)
    requires entries != [] && forall i | 0 <= i < |entries| :: ',' !in entries[i]
    ensures setting.lower(domain) in SplitDomains(setting, Commas(entries), "")
            <==> exists i :: 0 <= i < |entries| && Names(setting, entries[i], domain)
    decreases |entries|
  {
    var first, rest := entries[0], entries[1..];
    assert "" + first == first;
    assert setting.lower(domain) in Listed(setting, first) <==> Names(setting, first, domain);
    if rest == [] {
      SplitFirstEntry(setting, first, "", "");
    } else {
      SplitFirstEntry(setting, first, Commas(rest), "");
      ListedDomains(setting, rest, domain);
      if setting.lower(domain) in SplitDomains(setting, Commas(rest), "") {
        var i :| 0 <= i < |rest| && Names(setting, rest[i], domain);
        assert entries[i + 1] == rest[i];
      }
      forall i | 1 <= i < |entries| && Names(setting, entries[i], domain)
        ensures Names(setting, rest[i - 1], domain)
      {}
    }
  }

  /** An address is of an admin domain exactly when what follows its last "@" is named by an entry of
      the setting, up to case and surrounding blanks; blank entries name nothing. */
  lemma AdminDomainIff(setting: Setting, entries: seq<string>, local: string, domain: string)
    requires entries != [] && (forall i | 0 <= i < |entries| :: ',' !in entries[i]) && '@' !in domain
    requires setting.domains == Commas(entries)
    ensures IsAdminDomain(setting, local + "@" + domain)
            <==> exists i :: 0 <= i < |entries| && Names(setting, entries[i], domain)
    ensures IsAdminDomain(setting, domain) <==> IsAdminDomain(setting, local + "@" + domain)
  {
    DomainIsAfterLastAt(local, domain);
    ListedDomains(setting, entries, domain);
  }

  /** Only the text after the last "@" decides. */
  lemma {:induction false} DomainIsAfterLastAt(local: string, domain: string)
    requires '@' !in domain
    ensures Domain(local + "@" + domain) == domain
    decreases |local|
  {
    var email := local + "@" + domain;
    assert email[|local|] == '@';
    if local == "" {
      assert email[1..] == domain;
    } else {
      DomainIsAfterLastAt(local[1..], domain);
      assert email[1..] == local[1..] + "@" + domain;
      assert email[1..][|local| - 1] == '@';
    }
  }

  // ---------------------------------------------------------------------------------------
  // Lookups: the first row of a query; the invariant makes it the only one.
  // ---------------------------------------------------------------------------------------

  ghost function ByEmail(users: Users, email: string): (r: Option<UserId>)
    ensures r.Some? ==> r.value in users && users[r.value].email == email
    ensures r == None ==> forall u | u in users :: users[u].email != email
  {
    if exists u :: u in users && users[u].email == email
    then var u :| u in users && users[u].email == email; Some(u)
    else None
  }

  ghost function BySub(users: Users, sub: string): (r: Option<UserId>)
    ensures r.Some? ==> r.value in users && users[r.value].oidcSub == Some(sub)
    ensures r == None ==> forall u | u in users :: users[u].oidcSub != Some(sub)
  {
    if exists u :: u in users && users[u].oidcSub == Some(sub)
    then var u :| u in users && users[u].oidcSub == Some(sub); Some(u)
    else None
  }

  ghost function ByCustomer(users: Users, customer: string): (r: Option<UserId>)
    ensures r.Some? ==> r.value in users && users[r.value].customer == Some(customer)
    ensures r == None ==> forall u | u in users :: users[u].customer != Some(customer)
  {
    if exists u :: u in users && users[u].customer == Some(customer)
    then var u :| u in users && users[u].customer == Some(customer); Some(u)
    else None
  }

  ghost function ByResetToken(users: Users, token: string): (r: Option<UserId>)
    ensures r.Some? ==> r.value in users && users[r.value].resetToken == Some(token)
    ensures r == None ==> forall u | u in users :: users[u].resetToken != Some(token)
  {
    if exists u :: u in users && users[u].resetToken == Some(token)
    then var u :| u in users && users[u].resetToken == Some(token); Some(u)
    else None
  }

  // ---------------------------------------------------------------------------------------
  // Requests.
  // ---------------------------------------------------------------------------------------

  /** Where a webhook delivery breaks off: reading the customer from Stripe, the first commit, the
      second, or the reply after everything is committed. */
  datatype Fault = NoFault | StripeFault | FirstCommitFault | SecondCommitFault | ReplyFault

  datatype Request =
    | Register(id: UserId, email: string, password: Text, salt: nat)
    | Login(email: string, password: Text)
    | SetPassword(token: string, password: Text, salt: nat, now: int)
    | ForgotPassword(email: string, token: string, now: int)
    | OidcCallback(id: UserId, sub: Option<string>, address: Option<string>)
    | PasskeyLogin(user: UserId)
    | Update(user: UserId, address: Option<string>, newPassword: Option<Text>, salt: nat)
    | Activate(admin: UserId, user: UserId)
    | Deactivate(admin: UserId, user: UserId)
    | MakeAdmin(admin: UserId, user: UserId)
    | RemoveAdmin(admin: UserId, user: UserId)
    | Delete(admin: UserId, user: UserId)
    | Checkout(id: UserId, customer: Option<string>, subscription: Option<string>, address: Option<string>,
               password: Text, salt: nat, token: string, now: int, fault: Fault)
    | Cancel(customer: Option<string>)

  datatype Reply = Done | Refused | Failed

  function NewAccount(email: string, digest: Option<Digest>): Account {
    Account(email, digest, [], true, 0, None, false, false, None, None, None, None)
  }

  /** `_ensure_admin_role`. */
  function Promoted(setting: Setting, a: Account): Account {
    if a.adminRemoved || !a.oidcVerified then a
    else if IsAdminDomain(setting, a.email) && ADMIN !in a.roles then a.(roles := a.roles + [ADMIN])
    else a
  }

  function WithoutAdmin(roles: seq<string>): (kept: seq<string>)
    ensures ADMIN !in kept
    ensures multiset(kept) == multiset(roles)[ADMIN := 0]
  {
    if roles == [] then []
    else
      assert roles == [roles[0]] + roles[1..];
      (if roles[0] == ADMIN then [] else [roles[0]]) + WithoutAdmin(roles[1..])
  }

  const WEEK := 7 * 86400
  const DAY := 86400

  /** A request writes or removes at most one account. */
  datatype Effect = Keep | Save(user: UserId, account: Account) | Remove(user: UserId)

  function Apply(users: Users, effect: Effect): Users {
    match effect
    case Keep => users
    case Save(u, a) => users[u := a]
    case Remove(u) => users - {u}
  }

  ghost function RegisterEffect(users: Users, r: Request): (Effect, Reply)
    requires r.Register?
  {
    if ByEmail(users, r.email).Some? then (Keep, Refused)
    else
      match HashPassword(r.password, r.salt)
      case Some(digest) => (Save(r.id, NewAccount(r.email, Some(digest))), Done)
      case None => (Keep, Failed)
  }

  ghost function LoginEffect(setting: Setting, users: Users, r: Request): (Effect, Reply)
    requires r.Login?
  {
    match ByEmail(users, r.email)
    case None => (Keep, Refused)
    case Some(u) =>
      if users[u].digest == None then (Keep, Refused)
      else
        match VerifyPassword(r.password, users[u].digest.value)
        case None => (Keep, Failed)
        case Some(false) => (Keep, Refused)
        case Some(true) => (Save(u, Promoted(setting, users[u])), if users[u].active then Done else Refused)
  }

  ghost function SetPasswordEffect(users: Users, r: Request): (Effect, Reply)
    requires r.SetPassword?
  {
    match ByResetToken(users, r.token)
    case None => (Keep, Refused)
    case Some(u) =>
      if |r.password| < 8 then (Keep, Refused)
      else if users[u].resetExpires.Some? && users[u].resetExpires.value < r.now then (Keep, Refused)
      else
        match HashPassword(r.password, r.salt)
        case None => (Keep, Failed)
        case Some(digest) =>
          (Save(u, users[u].(digest := Some(digest), resetToken := None, resetExpires := None, active := true)), Done)
  }

  ghost function ForgotPasswordEffect(users: Users, r: Request): (Effect, Reply)
    requires r.ForgotPassword?
  {
    match ByEmail(users, r.email)
    case Some(u) =>
      if users[u].active
      then (Save(u, users[u].(resetToken := Some(r.token), resetExpires := Some(r.now + DAY))), Done)
      else (Keep, Done)
    case None => (Keep, Done)
  }

  /** `create_oidc_user`. */
  function OidcAccount(setting: Setting, email: string, sub: string): Account {
    NewAccount(email, None).(oidcSub := Some(sub), oidcVerified := true,
                             roles := if IsAdminDomain(setting, email) then [ADMIN] else [])
  }

  predicate Given(text: Option<string>) {
    text.Some? && text.value != ""
  }

  /** The user whom the callback signs in, found by subject, else linked by address, else created. */
  ghost function Linked(setting: Setting, users: Users, id: UserId, sub: string, email: string): (UserId, Account) {
    match BySub(users, sub)
    case Some(u) => (u, users[u])
    case None =>
      match ByEmail(users, email)
      case Some(u) => (u, users[u].(oidcSub := Some(sub)))
      case None => (id, OidcAccount(setting, email, sub))
  }

  ghost function OidcEffect(setting: Setting, users: Users, r: Request): (Effect, Reply)
    requires r.OidcCallback?
  {
    if !Given(r.sub) || !Given(r.address) then (Keep, Refused)
    else
      var (u, a) := Linked(setting, users, r.id, r.sub.value, r.address.value);
      (Save(u, Promoted(setting, a)), Done)
  }

  /** `update_user`; the unique index on the address turns a taken one into an error. */
  ghost function UpdateEffect(users: Users, r: Request): (Effect, Reply)
    requires r.Update?
  {
    if r.user !in users then (Keep, Refused)
    else
      var a := users[r.user];
      var digest := if r.newPassword.Some? then HashPassword(r.newPassword.value, r.salt) else a.digest;
      var email := if r.address.Some? then r.address.value else a.email;
      if r.newPassword.Some? && digest == None then (Keep, Failed)
      else if exists u :: u in users && u != r.user && users[u].email == email then (Keep, Failed)
      else (Save(r.user, a.(digest := digest, email := email)), Done)
  }

  predicate ByAdmin(r: Request) {
    r.Activate? || r.Deactivate? || r.MakeAdmin? || r.RemoveAdmin? || r.Delete?
  }

  /** The five admin endpoints that change a user, after `require_admin`. */
  function AdminEffect(users: Users, r: Request): (Effect, Reply)
    requires ByAdmin(r)
  {
    if !ActiveAdmin(users, r.admin) || r.user !in users then (Keep, Refused)
    else
      var a := users[r.user];
      match r
      case Activate(_, u) => (Save(u, a.(active := true)), Done)
      case MakeAdmin(_, u) =>
        (Save(u, a.(roles := if IsAdmin(a) then a.roles else a.roles + [ADMIN], adminRemoved := false)), Done)
      case Deactivate(admin, u) =>
        if u == admin then (Keep, Refused) else (Save(u, a.(active := false)), Done)
      case RemoveAdmin(admin, u) =>
        if u == admin then (Keep, Refused)
        else (Save(u, a.(roles := WithoutAdmin(a.roles), adminRemoved := true)), Done)
      case Delete(admin, u) =>
        if u == admin then (Keep, Refused) else (Remove(u), Done)
  }

  /** What Stripe hears once the delivery is committed. */
  function Answered(fault: Fault): Reply {
    if fault.ReplyFault? then Failed else Done
  }

  /** `checkout.session.completed`: two commits when the user is new. */
  ghost function CheckoutEffect(users: Users, r: Request): (Effect, Reply)
    requires r.Checkout?
  {
    if !Given(r.customer) then (Keep, Refused)
    else if ByCustomer(users, r.customer.value).Some? then (Keep, Done)
    else if r.fault.StripeFault? then (Keep, Failed)
    else if !Given(r.address) then (Keep, Refused)
    else
      match ByEmail(users, r.address.value)
      case Some(u) =>
        if r.fault.FirstCommitFault? then (Keep, Failed)
        else (Save(u, users[u].(customer := r.customer, subscription := r.subscription)), Answered(r.fault))
      case None =>
        match HashPassword(r.password, r.salt)
        case None => (Keep, Failed)
        case Some(digest) =>
          var created := NewAccount(r.address.value, Some(digest));
          if r.fault.FirstCommitFault? then (Keep, Failed)
          else if r.fault.SecondCommitFault? then (Save(r.id, created), Failed)
          else
            (Save(r.id, created.(customer := r.customer, subscription := r.subscription,
                                 resetToken := Some(r.token), resetExpires := Some(r.now + WEEK))), Answered(r.fault))
  }

  /** `customer.subscription.deleted`. */
  ghost function CancelEffect(users: Users, r: Request): (Effect, Reply)
    requires r.Cancel?
  {
    if !Given(r.customer) then (Keep, Done)
    else
      match ByCustomer(users, r.customer.value)
      case Some(u) => (Save(u, users[u].(active := false, subscription := None)), Done)
      case None => (Keep, Done)
  }

  ghost function Respond(setting: Setting, users: Users, r: Request): (Effect, Reply) {
    match r
    case Register(_, _, _, _) => RegisterEffect(users, r)
    case Login(_, _) => LoginEffect(setting, users, r)
    case SetPassword(_, _, _, _) => SetPasswordEffect(users, r)
    case ForgotPassword(_, _, _) => ForgotPasswordEffect(users, r)
    case OidcCallback(_, _, _) => OidcEffect(setting, users, r)
    case PasskeyLogin(u) => if u in users then (Save(u, Promoted(setting, users[u])), Done) else (Keep, Refused)
    case Update(_, _, _, _) => UpdateEffect(users, r)
    case Checkout(_, _, _, _, _, _, _, _, _) => CheckoutEffect(users, r)
    case Cancel(_) => CancelEffect(users, r)
    case _ => AdminEffect(users, r)
  }

  ghost function Serve(setting: Setting, users: Users, r: Request): Users {
    Apply(users, Respond(setting, users, r).0)
  }

  /** Random ids and reset tokens are new. */
  predicate Enabled(users: Users, known: set<UserId>, r: Request) {
    && (r.Register? || r.OidcCallback? || r.Checkout? ==> r.id !in known)
    && (r.ForgotPassword? || r.Checkout? ==> forall u | u in users :: users[u].resetToken != Some(r.token))
  }

  function Drawn(r: Request): set<UserId> {
    if r.Register? || r.OidcCallback? || r.Checkout? then {r.id} else {}
  }
}
