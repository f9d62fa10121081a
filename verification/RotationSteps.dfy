/**
 Refresh-token rotation as concurrent database transactions.

 A request is a transaction that reads committed rows and collects row writes, each of which
 locks its row until commit or rollback. `consume` (camp44/crud/refresh_token.py) is one
 conditional UPDATE, so finding the row unrevoked, locking it and writing it is one step;
 it waits while another transaction holds the row. `revoke_family`, `revoke_user_tokens`,
 `cleanup_expired` and `logout` first read and later write, so other steps fall in between.
 Every read sees only committed rows and the transaction's own writes.
 */
module RotationSteps {
  import opened Wrappers
  import opened TokenModel

  type TxnId = nat

  /** What history knows of a family: whose it is, at which version, and its newest token. */
  datatype Session = Session(user: UserId, version: int, head: TokenHash)

  /** One committed issue of a refresh token. */
  datatype Event =
    | LoggedIn(family: FamilyId, minted: TokenHash)
    | Rotated(family: FamilyId, presented: TokenHash, minted: TokenHash)

  /** An access token handed out, with the family whose login or refresh produced it. */
  datatype Grant = Grant(access: AccessToken, family: FamilyId)

  /** The committed tables, the clock, and the history kept for the proofs
      (`known`, `sessions`, `issued`, `grants`, `log`). */
  datatype Store = Store(
    users: Users,
    rows: Rows,
    now: int,
    known: set<UserId>,
    sessions: map<FamilyId, Session>,
    issued: set<TokenHash>,
    grants: set<Grant>,
    log: seq<Event>)

  datatype Write = Revoke | Delete | Insert(row: Row)

  /** What a revocation set out to empty, with what had been issued when it read the rows: the newest
      token of the family, or all tokens there were. */
  datatype Sweep =
    | FamilySweep(family: FamilyId, head: TokenHash)
    | UserSweep(user: UserId, seen: set<TokenHash>)

  datatype Phase =
    | Lost(hash: TokenHash)                     // consume returned nothing
    | Consumed(hash: TokenHash, row: Row)       // consume returned the row
    | Unexpired(hash: TokenHash, row: Row)      // ... and it has not expired
    | Condemned(family: FamilyId)               // revoke_family is about to read
    | Ready(user: UserId, version: int, lineage: Option<FamilyId>, parent: Option<TokenHash>)
    | Minted(access: AccessToken, token: TokenHash, row: Row, parent: Option<TokenHash>)
    | Revoking(todo: set<TokenHash>, sweep: Option<Sweep>)
    | Deleting(todo: set<TokenHash>)

  datatype Txn = Txn(phase: Phase, writes: map<TokenHash, Write>)

  datatype State = State(store: Store, txns: map<TxnId, Txn>)

  datatype Action =
    | Consume(t: TxnId, raw: RawToken)
    | LookUp(t: TxnId)
    | CheckExpiry(t: TxnId)
    | CheckUser(t: TxnId)
    | SelectFamily(t: TxnId)
    | WriteRevoke(t: TxnId, hash: TokenHash)
    | WriteDelete(t: TxnId, hash: TokenHash)
    | Mint(t: TxnId, raw: RawToken, family: FamilyId, signedAt: int)
    | Commit(t: TxnId)
    | Rollback(t: TxnId)
    | BeginLogin(t: TxnId, user: UserId)
    | BeginLogout(t: TxnId, raw: RawToken)
    | BeginRevokeUser(t: TxnId, user: UserId)
    | BeginCleanup(t: TxnId)
    | Tick(seconds: nat)
    | AddUser(user: UserId)
    | SetActive(user: UserId, active: bool)
    | BumpVersion(user: UserId, steps: nat)
    | DeleteUser(user: UserId)

  /** No other transaction holds the row. */
  predicate Free(txns: map<TxnId, Txn>, t: TxnId, h: TokenHash) {
    forall o | o in txns && o != t :: h !in txns[o].writes
  }

  predicate Committable(phase: Phase) {
    match phase
    case Minted(_, _, _, _) => true
    case Revoking(todo, _) => todo == {}
    case Deleting(todo) => todo == {}
    case _ => false
  }

  /** A new raw token and, for a login, a new family: never seen in any row or open transaction. */
  predicate FreshToken(s: State, h: TokenHash) {
    h !in s.store.issued && forall o | o in s.txns :: h !in s.txns[o].writes
  }

  predicate FreshFamily(s: State, f: FamilyId) {
    && f !in s.store.sessions
    && forall o, h | o in s.txns && h in s.txns[o].writes && s.txns[o].writes[h].Insert? ::
         s.txns[o].writes[h].row.family != f
  }

  /** Deleting a user waits for every lock on the user's rows and fails on a new row of the user. */
  predicate UntouchedUser(s: State, u: UserId) {
    forall o, h | o in s.txns && h in s.txns[o].writes :: Spares(s.store.rows, h, s.txns[o].writes[h], u)
  }

  predicate Spares(rows: Rows, h: TokenHash, write: Write, u: UserId) {
    match write
    case Insert(row) => row.user != u
    case _ => h in rows ==> rows[h].user != u
  }

  predicate Enabled(s: State, a: Action) {
    match a
    case Consume(t, raw) =>
      t !in s.txns && (Live(s.store.rows, Sha256(raw)) ==> Free(s.txns, t, Sha256(raw)))
    case LookUp(t) => t in s.txns && s.txns[t].phase.Lost?
    case CheckExpiry(t) => t in s.txns && s.txns[t].phase.Consumed?
    case CheckUser(t) => t in s.txns && s.txns[t].phase.Unexpired?
    case SelectFamily(t) => t in s.txns && s.txns[t].phase.Condemned?
    case WriteRevoke(t, h) =>
      t in s.txns && s.txns[t].phase.Revoking? && h in s.txns[t].phase.todo
      && h in s.store.rows && Free(s.txns, t, h)
    case WriteDelete(t, h) =>
      t in s.txns && s.txns[t].phase.Deleting? && h in s.txns[t].phase.todo && Free(s.txns, t, h)
    case Mint(t, raw, f, signedAt) =>
      && t in s.txns && s.txns[t].phase.Ready?
      && s.txns[t].phase.user in s.store.users
      && FreshToken(s, Sha256(raw))
      && (match s.txns[t].phase.lineage case Some(g) => f == g case None => FreshFamily(s, f))
      && signedAt <= s.store.now
    case Commit(t) => t in s.txns && Committable(s.txns[t].phase)
    case Rollback(t) => t in s.txns
    case BeginLogin(t, u) => t !in s.txns && u in s.store.users
    case BeginLogout(t, _) => t !in s.txns
    case BeginRevokeUser(t, _) => t !in s.txns
    case BeginCleanup(t) => t !in s.txns
    case Tick(_) => true
    case AddUser(u) => u !in s.store.known
    case SetActive(u, _) => u in s.store.users
    case BumpVersion(u, _) => u in s.store.users
    case DeleteUser(u) => u in s.store.users && UntouchedUser(s, u)
  }

  function With(s: State, t: TxnId, phase: Phase, writes: map<TokenHash, Write>): State {
    s.(txns := s.txns[t := Txn(phase, writes)])
  }

  /** The rows a revocation of the family reads: committed, unrevoked, not already its own. */
  function Targets(rows: Rows, writes: map<TokenHash, Write>, f: FamilyId): set<TokenHash> {
    set h | h in LiveIn(rows, f) && h !in writes
  }

  /** What the refresh handler does once it has read the user of an unexpired token. */
  function AfterUserCheck(users: Users, h: TokenHash, row: Row): Phase {
    if row.user !in users || !users[row.user].active then Revoking({}, None)
    else if row.version != users[row.user].version then Condemned(row.family)
    else Ready(row.user, users[row.user].version, Some(row.family), Some(h))
  }

  function ApplyWrites(rows: Rows, writes: map<TokenHash, Write>): Rows {
    map h | h in rows.Keys + writes.Keys &&
            (if h in writes then writes[h].Insert? || (writes[h].Revoke? && h in rows) else true) ::
      if h in writes then
        if writes[h].Insert? then writes[h].row else rows[h].(revoked := true)
      else rows[h]
  }

  /** History of a commit: only a transaction that minted a token adds to it. */
  function Publish(st: Store, tx: Txn): Store {
    var st' := st.(rows := ApplyWrites(st.rows, tx.writes));
    match tx.phase
    case Minted(access, token, row, parent) =>
      st'.(sessions := st.sessions[row.family := Session(row.user, row.version, token)],
           issued := st.issued + {token},
           grants := st.grants + {Grant(access, row.family)},
           log := st.log + [match parent
                            case Some(h) => Rotated(row.family, h, token)
                            case None => LoggedIn(row.family, token)])
    case _ => st'
  }

  function Close(s: State, t: TxnId): map<TxnId, Txn> {
    map o | o in s.txns && o != t :: s.txns[o]
  }

  /** One step of one request, or of the environment. */
  function Next(cfg: Settings, s: State, a: Action): State
    requires Enabled(s, a)
  {
    var st := s.store;
    match a
    case Consume(t, raw) =>
      var h := Sha256(raw);
      if Live(st.rows, h) then With(s, t, Consumed(h, st.rows[h].(revoked := true)), map[h := Revoke])
      else With(s, t, Lost(h), map[])
    case LookUp(t) =>
      var h := s.txns[t].phase.hash;
      if h in st.rows then With(s, t, Condemned(st.rows[h].family), s.txns[t].writes)
      else With(s, t, Revoking({}, None), s.txns[t].writes)
    case CheckExpiry(t) =>
      var Consumed(h, row) := s.txns[t].phase;
      if row.expires < st.now then With(s, t, Revoking({}, None), s.txns[t].writes)
      else With(s, t, Unexpired(h, row), s.txns[t].writes)
    case CheckUser(t) =>
      var Unexpired(h, row) := s.txns[t].phase;
      With(s, t, AfterUserCheck(st.users, h, row), s.txns[t].writes)
    case SelectFamily(t) =>
      var f := s.txns[t].phase.family;
      var sweep := if f in st.sessions then Some(FamilySweep(f, st.sessions[f].head)) else None;
      With(s, t, Revoking(Targets(st.rows, s.txns[t].writes, f), sweep), s.txns[t].writes)
    case WriteRevoke(t, h) =>
      With(s, t, s.txns[t].phase.(todo := s.txns[t].phase.todo - {h}), s.txns[t].writes[h := Revoke])
    case WriteDelete(t, h) =>
      With(s, t, Deleting(s.txns[t].phase.todo - {h}),
           if h in st.rows then s.txns[t].writes[h := Delete] else s.txns[t].writes)
    case Mint(t, raw, f, signedAt) =>
      var Ready(u, v, _, parent) := s.txns[t].phase;
      var row := Row(u, f, v, false, st.now + RefreshTtl(cfg));
      With(s, t, Minted(AccessToken(u, v, signedAt + AccessTtl(cfg)), Sha256(raw), row, parent),
           s.txns[t].writes[Sha256(raw) := Insert(row)])
    case Commit(t) => State(Publish(st, s.txns[t]), Close(s, t))
    case Rollback(t) => s.(txns := Close(s, t))
    case BeginLogin(t, u) => With(s, t, Ready(u, st.users[u].version, None, None), map[])
    case BeginLogout(t, raw) =>
      var h := Sha256(raw);
      With(s, t, Revoking(if Live(st.rows, h) then {h} else {}, None), map[])
    case BeginRevokeUser(t, u) =>
      With(s, t, Revoking(LiveOfUser(st.rows, u), Some(UserSweep(u, st.issued))), map[])
    case BeginCleanup(t) =>
      With(s, t, Deleting((set h | h in st.rows && st.rows[h].expires < st.now)), map[])
    case Tick(d) => s.(store := st.(now := st.now + d))
    case AddUser(u) =>
      s.(store := st.(users := st.users[u := User(true, 0)], known := st.known + {u}))
    case SetActive(u, b) => s.(store := st.(users := st.users[u := st.users[u].(active := b)]))
    case BumpVersion(u, k) =>
      s.(store := st.(users := st.users[u := st.users[u].(version := st.users[u].version + k)]))
    case DeleteUser(u) =>
      s.(store := st.(users := st.users - {u},
                      rows := map h | h in st.rows && st.rows[h].user != u :: st.rows[h]))
  }

  function Initial(now: int): State {
    State(Store(map[], map[], now, {}, map[], {}, {}, []), map[])
  }
}
