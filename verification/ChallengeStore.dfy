/**
 The passkey challenge store (`_ChallengeStore` in camp44/api/v1/passkey.py): two maps, a
 five-minute lifetime, purging on store and single-use pops. Each method runs under the store's
 lock; clock readings are parameters.
 */
module ChallengeStore {
  import opened Wrappers
  import opened SingleUse

  const CHALLENGE_TTL := 300

  type UserCeremony = (string, string)

  /** Entries are stamped with their expiry, and expire at it. */
  function Unexpired(): Liveness {
    (expiry: int, now: int) => now < expiry
  }

  class ChallengeStore {
    var perUser: Table<UserCeremony, string>
    var discoverable: Table<string, ()>

    constructor ()
      ensures perUser == map[] && discoverable == map[]
    {
      perUser := map[];
      discoverable := map[];
    }

    ghost function Contents(): Maps
      reads this
    {
      Maps(perUser, discoverable)
    }

    method PurgeExpired(now: int)
      modifies this
      ensures perUser == Step(Unexpired(), old(perUser), Purge(now))
      ensures discoverable == Step(Unexpired(), old(discoverable), Purge(now))
      ensures forall k | k in old(perUser) :: k in perUser <==> now < old(perUser)[k].stamp
      ensures forall k | k in old(discoverable) :: k in discoverable <==> now < old(discoverable)[k].stamp
      ensures forall k | k in perUser :: k in old(perUser) && perUser[k] == old(perUser)[k]
      ensures forall k | k in discoverable :: k in old(discoverable) && discoverable[k] == old(discoverable)[k]
    {
      perUser := map k | k in perUser && perUser[k].stamp > now :: perUser[k];
      discoverable := map k | k in discoverable && discoverable[k].stamp > now :: discoverable[k];
    }

    method StoreUser(user: string, ceremony: string, challenge: string, purgedAt: int, now: int)
      modifies this
      ensures Contents() == Do(true, old(Contents()), Operation.StoreUser(user, ceremony, challenge, purgedAt, now))
      ensures perUser[(user, ceremony)] == Entry(challenge, now + 300)
      ensures forall k | k in perUser && k != (user, ceremony) ::
                k in old(perUser) && perUser[k] == old(perUser)[k] && purgedAt < perUser[k].stamp
      ensures forall k | k in discoverable ::
                k in old(discoverable) && discoverable[k] == old(discoverable)[k] && purgedAt < discoverable[k].stamp
    {
      PurgeExpired(purgedAt);
      perUser := perUser[(user, ceremony) := Entry(challenge, now + CHALLENGE_TTL)];
    }

    method StoreDiscoverable(challenge: string, purgedAt: int, now: int)
      modifies this
      ensures Contents() == Do(true, old(Contents()), Operation.StoreDiscoverable(challenge, purgedAt, now))
      ensures discoverable[challenge] == Entry((), now + 300)
      ensures forall k | k in perUser ::
                k in old(perUser) && perUser[k] == old(perUser)[k] && purgedAt < perUser[k].stamp
      ensures forall k | k in discoverable && k != challenge ::
                k in old(discoverable) && discoverable[k] == old(discoverable)[k] && purgedAt < discoverable[k].stamp
    {
      PurgeExpired(purgedAt);
      discoverable := discoverable[challenge := Entry((), now + CHALLENGE_TTL)];
    }

    method PopUser(user: string, ceremony: string, now: int) returns (challenge: Option<string>)
      modifies this
      ensures challenge == Taken(Unexpired(), old(perUser), (user, ceremony), now)
      ensures Contents() == Do(true, old(Contents()), Operation.PopUser(user, ceremony, now))
      ensures (user, ceremony) !in perUser && discoverable == old(discoverable)
      ensures forall k | k in old(perUser) && k != (user, ceremony) :: k in perUser && perUser[k] == old(perUser)[k]
    {
      var key := (user, ceremony);
      if key !in perUser {
        assert perUser - {key} == perUser;
        return None;
      }
      var Entry(value, expiry) := perUser[key];
      perUser := perUser - {key};
      challenge := if expiry <= now then None else Some(value);
    }

    method PopDiscoverable(challenge: string, now: int) returns (found: bool)
      modifies this
      ensures found <==> Taken(Unexpired(), old(discoverable), challenge, now).Some?
      ensures Contents() == Do(true, old(Contents()), Operation.PopDiscoverable(challenge, now))
      ensures challenge !in discoverable && perUser == old(perUser)
      ensures forall k | k in old(discoverable) && k != challenge ::
                k in discoverable && discoverable[k] == old(discoverable)[k]
    {
      found := challenge in discoverable && discoverable[challenge].stamp > now;
      discoverable := discoverable - {challenge};
    }
  }

  // ---------------------------------------------------------------------------------------
  // Traces of operations on both maps.
  // ---------------------------------------------------------------------------------------

  datatype Maps = Maps(perUser: Table<UserCeremony, string>, discoverable: Table<string, ()>)

  datatype Operation =
    | StoreUser(user: string, ceremony: string, challenge: string, purgedAt: int, now: int)
    | StoreDiscoverable(challenge: string, purgedAt: int, now: int)
    | PopUser(user: string, ceremony: string, now: int)
    | PopDiscoverable(challenge: string, now: int)

  /** What an operation does to each map, as events of that map; `purging` is false for a store
      that never purges. */
  function UserEvents(purging: bool, op: Operation): seq<Event<UserCeremony, string>> {
    match op
    case StoreUser(u, c, challenge, purgedAt, now) =>
      (if purging then [Purge(purgedAt)] else []) + [Put((u, c), challenge, now + CHALLENGE_TTL)]
    case StoreDiscoverable(_, purgedAt, _) => if purging then [Purge(purgedAt)] else []
    case PopUser(u, c, now) => [Take((u, c), now)]
    case PopDiscoverable(_, _) => []
  }

  function DiscoverableEvents(purging: bool, op: Operation): seq<Event<string, ()>> {
    match op
    case StoreUser(_, _, _, purgedAt, _) => if purging then [Purge(purgedAt)] else []
    case StoreDiscoverable(challenge, purgedAt, now) =>
      (if purging then [Purge(purgedAt)] else []) + [Put(challenge, (), now + CHALLENGE_TTL)]
    case PopUser(_, _, _) => []
    case PopDiscoverable(challenge, now) => [Take(challenge, now)]
  }

  function Purged<K, V>(purging: bool, table: Table<K, V>, now: int): Table<K, V> {
    if purging then Step(Unexpired(), table, Purge(now)) else table
  }

  /** One operation on both maps. */
  function Do(purging: bool, m: Maps, op: Operation): Maps {
    match op
    case StoreUser(u, c, challenge, purgedAt, now) =>
      Maps(Purged(purging, m.perUser, purgedAt)[(u, c) := Entry(challenge, now + CHALLENGE_TTL)],
           Purged(purging, m.discoverable, purgedAt))
    case StoreDiscoverable(challenge, purgedAt, now) =>
      Maps(Purged(purging, m.perUser, purgedAt),
           Purged(purging, m.discoverable, purgedAt)[challenge := Entry((), now + CHALLENGE_TTL)])
    case PopUser(u, c, _) => m.(perUser := m.perUser - {(u, c)})
    case PopDiscoverable(challenge, _) => m.(discoverable := m.discoverable - {challenge})
  }

  /** What a caller sees of an operation. */
  datatype Seen = Nothing | Challenge(value: Option<string>) | Found(found: bool)

  function See(m: Maps, op: Operation): Seen {
    match op
    case PopUser(u, c, now) => Challenge(Taken(Unexpired(), m.perUser, (u, c), now))
    case PopDiscoverable(challenge, now) => Found(Taken(Unexpired(), m.discoverable, challenge, now).Some?)
    case _ => Nothing
  }

  /** The maps after a sequence of operations on an empty store. */
  function After(purging: bool, ops: seq<Operation>): Maps {
    if ops == [] then Maps(map[], map[])
    else Do(purging, After(purging, ops[..|ops| - 1]), ops[|ops| - 1])
  }

  function AllUserEvents(purging: bool, ops: seq<Operation>): seq<Event<UserCeremony, string>> {
    if ops == [] then []
    else AllUserEvents(purging, ops[..|ops| - 1]) + UserEvents(purging, ops[|ops| - 1])
  }

  function AllDiscoverableEvents(purging: bool, ops: seq<Operation>): seq<Event<string, ()>> {
    if ops == [] then []
    else AllDiscoverableEvents(purging, ops[..|ops| - 1]) + DiscoverableEvents(purging, ops[|ops| - 1])
  }

  function FirstReading(op: Operation): int {
    match op
    case StoreUser(_, _, _, purgedAt, _) => purgedAt
    case StoreDiscoverable(_, purgedAt, _) => purgedAt
    case _ => op.now
  }

  /** The clock never goes back from one reading to the next, and has not passed `until`. */
  ghost predicate Clocked(ops: seq<Operation>, until: int) {
    ops == []
    || (var last := ops[|ops| - 1];
        FirstReading(last) <= last.now <= until && Clocked(ops[..|ops| - 1], FirstReading(last)))
  }

  lemma EndOne<K(!new), V(!new)>(table: Table<K, V>, e: Event<K, V>)
    ensures End(Unexpired(), table, [e]) == Step(Unexpired(), table, e)
  {
    assert [e][..0] == [];
  }

  lemma EndTwo<K(!new), V(!new)>(table: Table<K, V>, e: Event<K, V>, f: Event<K, V>)
    ensures End(Unexpired(), table, [e] + [f]) == Step(Unexpired(), Step(Unexpired(), table, e), f)
  {
    EndAppend(Unexpired(), table, [e], [f]);
    EndOne(table, e);
    EndOne(Step(Unexpired(), table, e), f);
  }

  lemma EndOfStore<K(!new), V(!new)>(purging: bool, table: Table<K, V>, at: int, put: Event<K, V>)
    ensures End(Unexpired(), table, (if purging then [Purge(at)] else []) + [put])
            == Step(Unexpired(), Purged(purging, table, at), put)
  {
    if purging {
      EndTwo(table, Purge(at), put);
    } else {
      var none: seq<Event<K, V>> := [];
      assert none + [put] == [put];
      EndOne(table, put);
    }
  }

  lemma EndOfPurge<K(!new), V(!new)>(purging: bool, table: Table<K, V>, at: int)
    ensures End(Unexpired(), table, if purging then [Purge(at)] else []) == Purged(purging, table, at)
  {
    if purging {
      var purge: Event<K, V> := Purge(at);
      EndOne(table, purge);
    }
  }

  lemma EndOfNothing<K(!new), V(!new)>(table: Table<K, V>)
    ensures End(Unexpired(), table, []) == table
  {}

  /** One operation is its events on each map. */
  lemma StoreIsEvents(purging: bool, m: Maps, op: Operation)
    requires op.StoreUser? || op.StoreDiscoverable?
    ensures Do(purging, m, op).perUser == End(Unexpired(), m.perUser, UserEvents(purging, op))
    ensures Do(purging, m, op).discoverable == End(Unexpired(), m.discoverable, DiscoverableEvents(purging, op))
  {
    if op.StoreUser? {
      EndOfStore(purging, m.perUser, op.purgedAt, Put((op.user, op.ceremony), op.challenge, op.now + CHALLENGE_TTL));
      EndOfPurge(purging, m.discoverable, op.purgedAt);
    } else {
      EndOfStore(purging, m.discoverable, op.purgedAt, Put(op.challenge, (), op.now + CHALLENGE_TTL));
      EndOfPurge(purging, m.perUser, op.purgedAt);
    }
  }

  lemma PopIsEvents(purging: bool, m: Maps, op: Operation)
    requires op.PopUser? || op.PopDiscoverable?
    ensures Do(purging, m, op).perUser == End(Unexpired(), m.perUser, UserEvents(purging, op))
    ensures Do(purging, m, op).discoverable == End(Unexpired(), m.discoverable, DiscoverableEvents(purging, op))
  {
    if op.PopUser? {
      EndOne(m.perUser, Take((op.user, op.ceremony), op.now));
      EndOfNothing(m.discoverable);
    } else {
      EndOne(m.discoverable, Take(op.challenge, op.now));
      EndOfNothing(m.perUser);
    }
  }

  lemma {:induction false} AfterIsEvents(purging: bool, ops: seq<Operation>)
    ensures After(purging, ops).perUser == End(Unexpired(), map[], AllUserEvents(purging, ops))
    ensures After(purging, ops).discoverable == End(Unexpired(), map[], AllDiscoverableEvents(purging, ops))
    decreases |ops|
  {
    if ops != [] {
      var init, last := ops[..|ops| - 1], ops[|ops| - 1];
      AfterIsEvents(purging, init);
      if last.StoreUser? || last.StoreDiscoverable? { StoreIsEvents(purging, After(purging, init), last); }
      else { PopIsEvents(purging, After(purging, init), last); }
      EndAppend(Unexpired(), map[], AllUserEvents(purging, init), UserEvents(purging, last));
      EndAppend(Unexpired(), map[], AllDiscoverableEvents(purging, init), DiscoverableEvents(purging, last));
    }
  }

  lemma UserEventsAreTimely(purging: bool, past: seq<Event<UserCeremony, string>>, op: Operation, until: int)
    requires Timely(past, FirstReading(op)) && FirstReading(op) <= op.now <= until
    ensures Timely(past + UserEvents(purging, op), until)
  {
    var since := FirstReading(op);
    match op
    case StoreUser(u, c, challenge, at, now) =>
      var put: Event<UserCeremony, string> := Put((u, c), challenge, now + CHALLENGE_TTL);
      TimelyPlus(past, since, if purging then Some(at) else None, Some(put), until);
    case StoreDiscoverable(_, at, _) =>
      TimelyPlus(past, since, if purging then Some(at) else None, None, until);
      assert UserEvents(purging, op) + [] == UserEvents(purging, op);
    case PopUser(u, c, now) => TimelyLonger(past, since, Take((u, c), now), until);
    case PopDiscoverable(_, _) =>
      TimelyLater(past, since, until);
      assert past + [] == past;
  }

  lemma DiscoverableEventsAreTimely(purging: bool, past: seq<Event<string, ()>>, op: Operation, until: int)
    requires Timely(past, FirstReading(op)) && FirstReading(op) <= op.now <= until
    ensures Timely(past + DiscoverableEvents(purging, op), until)
  {
    var since := FirstReading(op);
    match op
    case StoreUser(_, _, _, at, _) =>
      TimelyPlus(past, since, if purging then Some(at) else None, None, until);
      assert DiscoverableEvents(purging, op) + [] == DiscoverableEvents(purging, op);
    case StoreDiscoverable(challenge, at, now) =>
      TimelyPlus(past, since, if purging then Some(at) else None, Some(Put(challenge, (), now + CHALLENGE_TTL)), until);
    case PopUser(_, _, _) =>
      TimelyLater(past, since, until);
      assert past + [] == past;
    case PopDiscoverable(challenge, now) => TimelyLonger(past, since, Take(challenge, now), until);
  }

  lemma {:induction false} ClockedIsTimely(purging: bool, ops: seq<Operation>, until: int)
    requires Clocked(ops, until)
    ensures Timely(AllUserEvents(purging, ops), until) && Timely(AllDiscoverableEvents(purging, ops), until)
    decreases |ops|
  {
    if ops != [] {
      var init, op := ops[..|ops| - 1], ops[|ops| - 1];
      ClockedIsTimely(purging, init, FirstReading(op));
      UserEventsAreTimely(purging, AllUserEvents(purging, init), op, until);
      DiscoverableEventsAreTimely(purging, AllDiscoverableEvents(purging, init), op, until);
    }
  }

  // ---------------------------------------------------------------------------------------
  // The theorems.
  // ---------------------------------------------------------------------------------------

  /** After any operations on both maps, a pop is answered by the history of its own key alone. */
  lemma PopsAnswerHistory(purging: bool, ops: seq<Operation>, op: Operation)
    requires Clocked(ops + [op], op.now)
    ensures var m := After(purging, ops);
            match op
            case PopUser(u, c, now) =>
              See(m, op) == Challenge(Answer(Unexpired(), Project(AllUserEvents(purging, ops), (u, c)), (u, c), now))
            case PopDiscoverable(challenge, now) =>
              var own := Project(AllDiscoverableEvents(purging, ops), challenge);
              See(m, op) == Found(Answer(Unexpired(), own, challenge, now).Some?)
            case _ => See(m, op) == Nothing
  {
    assert (ops + [op])[..|ops|] == ops;
    AfterIsEvents(purging, ops);
    ClockedIsTimely(purging, ops, FirstReading(op));
    match op
    case PopUser(u, c, now) =>
      TableAnswersHistory(Unexpired(), AllUserEvents(purging, ops), now, (u, c), now);
      KeysAreIndependent(Unexpired(), AllUserEvents(purging, ops), (u, c), now);
    case PopDiscoverable(challenge, now) =>
      TableAnswersHistory(Unexpired(), AllDiscoverableEvents(purging, ops), now, challenge, now);
      KeysAreIndependent(Unexpired(), AllDiscoverableEvents(purging, ops), challenge, now);
    case _ =>
  }

  lemma {:induction false} ProjectionsIgnorePurging(ops: seq<Operation>, key: UserCeremony, challenge: string)
    ensures Project(AllUserEvents(true, ops), key) == Project(AllUserEvents(false, ops), key)
    ensures Project(AllDiscoverableEvents(true, ops), challenge)
            == Project(AllDiscoverableEvents(false, ops), challenge)
    decreases |ops|
  {
    if ops != [] {
      var init, op := ops[..|ops| - 1], ops[|ops| - 1];
      ProjectionsIgnorePurging(init, key, challenge);
      ProjectAppend(AllUserEvents(true, init), UserEvents(true, op), key);
      ProjectAppend(AllUserEvents(false, init), UserEvents(false, op), key);
      ProjectAppend(AllDiscoverableEvents(true, init), DiscoverableEvents(true, op), challenge);
      ProjectAppend(AllDiscoverableEvents(false, init), DiscoverableEvents(false, op), challenge);
      match op
      case StoreUser(u, c, ch, purgedAt, now) =>
        ProjectPurgeFirst(purgedAt, [Put((u, c), ch, now + CHALLENGE_TTL)], key);
        ProjectPurgeFirst<string, ()>(purgedAt, [], challenge);
      case StoreDiscoverable(ch, purgedAt, now) =>
        ProjectPurgeFirst<UserCeremony, string>(purgedAt, [], key);
        ProjectPurgeFirst(purgedAt, [Put(ch, (), now + CHALLENGE_TTL)], challenge);
      case _ =>
    }
  }

  lemma ProjectPurgeFirst<K(!new), V(!new)>(now: int, rest: seq<Event<K, V>>, key: K)
    ensures Project([Purge(now)] + rest, key) == Project([] + rest, key)
  {
    ProjectAppend([Purge(now)], rest, key);
    assert [] + rest == rest;
    var purge: seq<Event<K, V>> := [Purge(now)];
    assert Project(purge, key) == [];
  }

  /** Purging is unobservable: in every trace of stores and pops on both maps, each operation shows
      the caller what a store that never purges would show. */
  lemma PurgingIsUnobservable(ops: seq<Operation>, i: nat, until: int)
    requires i < |ops| && Clocked(ops, until)
    ensures See(After(true, ops[..i]), ops[i]) == See(After(false, ops[..i]), ops[i])
  {
    ClockedPrefix(ops, until, i);
    PopsAnswerHistory(true, ops[..i], ops[i]);
    PopsAnswerHistory(false, ops[..i], ops[i]);
    match ops[i]
    case PopUser(u, c, _) => ProjectionsIgnorePurging(ops[..i], (u, c), "");
    case PopDiscoverable(challenge, _) => ProjectionsIgnorePurging(ops[..i], ("", ""), challenge);
    case _ =>
  }

  lemma {:induction false} ClockedPrefix(ops: seq<Operation>, until: int, i: nat)
    requires i < |ops| && Clocked(ops, until)
    ensures Clocked(ops[..i] + [ops[i]], ops[i].now)
    decreases |ops|
  {
    var n := |ops| - 1;
    if i == n {
      assert ops[..n] + [ops[n]] == ops;
      assert (ops[..n] + [ops[n]])[..n] == ops[..n];
    } else {
      ClockedPrefix(ops[..n], FirstReading(ops[n]), i);
      assert ops[..n][..i] == ops[..i];
    }
  }

  /** The operation stores or pops the user's slot for the ceremony. */
  predicate TouchesUser(op: Operation, user: string, ceremony: string) {
    (op.StoreUser? || op.PopUser?) && op.user == user && op.ceremony == ceremony
  }

  /** The store at `i` is the last operation on the slot. */
  ghost predicate StoredLast(ops: seq<Operation>, i: nat, user: string, ceremony: string) {
    && i < |ops| && ops[i].StoreUser? && TouchesUser(ops[i], user, ceremony)
    && forall j | i < j < |ops| :: !TouchesUser(ops[j], user, ceremony)
  }

  lemma AnswerAfterStore<K(!new), V(!new)>(past: seq<Event<K, V>>, purgedAt: int, put: Event<K, V>, now: int)
    requires put.Put?
    ensures forall key :: Answer(Unexpired(), past + ([Purge(purgedAt)] + [put]), key, now) ==
              if put.key != key then Answer(Unexpired(), past, key, now)
              else if now < put.stamp then Some(put.value) else None
  {
    var purge: Event<K, V> := Purge(purgedAt);
    assert past + ([purge] + [put]) == (past + [purge]) + [put];
    AnswerAfterOne(Unexpired(), past, purge);
    AnswerAfterOne(Unexpired(), past + [purge], put);
  }

  lemma AnswerReadsOperations(ops: seq<Operation>, user: string, ceremony: string, now: int)
    ensures var answer := Answer(Unexpired(), AllUserEvents(true, ops), (user, ceremony), now);
            if ops == [] then answer == None
            else
              var last := ops[|ops| - 1];
              answer ==
                if !TouchesUser(last, user, ceremony)
                then Answer(Unexpired(), AllUserEvents(true, ops[..|ops| - 1]), (user, ceremony), now)
                else if last.StoreUser? && now < last.now + 300 then Some(last.challenge)
                else None
  {
    if ops != [] {
      var past, last := AllUserEvents(true, ops[..|ops| - 1]), ops[|ops| - 1];
      match last
      case StoreUser(u, c, challenge, purgedAt, at) =>
        AnswerAfterStore(past, purgedAt, Put((u, c), challenge, at + CHALLENGE_TTL), now);
      case StoreDiscoverable(_, purgedAt, _) =>
        AnswerAfterOne(Unexpired(), past, UserEvents(true, last)[0]);
      case PopUser(_, _, _) =>
        AnswerAfterOne(Unexpired(), past, UserEvents(true, last)[0]);
      case PopDiscoverable(_, _) =>
        assert past + [] == past;
    }
  }

  lemma LastStoreOfPrefix(ops: seq<Operation>, user: string, ceremony: string)
    requires ops != []
    ensures var n := |ops| - 1;
            if TouchesUser(ops[n], user, ceremony) then
              forall i: nat :: StoredLast(ops, i, user, ceremony) <==> i == n && ops[n].StoreUser?
            else forall i: nat :: StoredLast(ops, i, user, ceremony) <==> StoredLast(ops[..n], i, user, ceremony)
  {
    var n := |ops| - 1;
    forall i: nat
      ensures if TouchesUser(ops[n], user, ceremony)
              then StoredLast(ops, i, user, ceremony) <==> i == n && ops[n].StoreUser?
              else StoredLast(ops, i, user, ceremony) <==> StoredLast(ops[..n], i, user, ceremony)
    {
      assert forall j | 0 <= j < n :: ops[..n][j] == ops[j];
    }
  }

  lemma {:induction false} AnswerIsLastStore(
      ops: seq<Operation>, user: string, ceremony: string, now: int, value: string)
    ensures Answer(Unexpired(), AllUserEvents(true, ops), (user, ceremony), now) == Some(value)
            <==> exists i: nat ::
                   StoredLast(ops, i, user, ceremony) && ops[i].challenge == value && now < ops[i].now + 300
    decreases |ops|
  {
    AnswerReadsOperations(ops, user, ceremony, now);
    if ops != [] {
      var n := |ops| - 1;
      LastStoreOfPrefix(ops, user, ceremony);
      if TouchesUser(ops[n], user, ceremony) {
        if ops[n].StoreUser? { assert StoredLast(ops, n, user, ceremony); }
      } else {
        AnswerIsLastStore(ops[..n], user, ceremony, now, value);
        forall i: nat | StoredLast(ops[..n], i, user, ceremony)
          ensures StoredLast(ops, i, user, ceremony) && ops[..n][i] == ops[i]
        {}
        forall i: nat | StoredLast(ops, i, user, ceremony)
          ensures StoredLast(ops[..n], i, user, ceremony) && ops[..n][i] == ops[i]
        {}
      }
    }
  }

  /** `pop_user` returns a challenge exactly when the last operation on that user and ceremony was
      to store it, less than one lifetime ago. */
  lemma PopUserIff(ops: seq<Operation>, user: string, ceremony: string, now: int, value: string)
    requires Clocked(ops + [PopUser(user, ceremony, now)], now)
    ensures See(After(true, ops), PopUser(user, ceremony, now)) == Challenge(Some(value))
            <==> exists i: nat ::
                   StoredLast(ops, i, user, ceremony) && ops[i].challenge == value && now < ops[i].now + 300
  {
    PopsAnswerHistory(true, ops, PopUser(user, ceremony, now));
    KeysAreIndependent(Unexpired(), AllUserEvents(true, ops), (user, ceremony), now);
    AnswerIsLastStore(ops, user, ceremony, now, value);
  }

  /** Single use: between a pop of a slot and a later successful pop of it, it was stored again. */
  lemma PopUserIsSingleUse(ops: seq<Operation>, i: nat, j: nat, until: int) returns (p: nat)
    requires i < j < |ops| && Clocked(ops, until)
    requires ops[i].PopUser? && ops[j].PopUser? && ops[i].user == ops[j].user && ops[i].ceremony == ops[j].ceremony
    requires See(After(true, ops[..j]), ops[j]).value.Some?
    ensures i < p < j && ops[p].StoreUser? && TouchesUser(ops[p], ops[j].user, ops[j].ceremony)
    ensures See(After(true, ops[..j]), ops[j]) == Challenge(Some(ops[p].challenge))
    ensures ops[j].now < ops[p].now + 300
  {
    ClockedPrefix(ops, until, j);
    var value := See(After(true, ops[..j]), ops[j]).value.value;
    PopUserIff(ops[..j], ops[j].user, ops[j].ceremony, ops[j].now, value);
    p :| StoredLast(ops[..j], p, ops[j].user, ops[j].ceremony) && ops[..j][p].challenge == value
         && ops[j].now < ops[..j][p].now + 300;
    assert ops[..j][i] == ops[i];
  }

  predicate TouchesChallenge(op: Operation, challenge: string) {
    (op.StoreDiscoverable? || op.PopDiscoverable?) && op.challenge == challenge
  }

  ghost predicate OfferedLast(ops: seq<Operation>, i: nat, challenge: string) {
    && i < |ops| && ops[i].StoreDiscoverable? && ops[i].challenge == challenge
    && forall j | i < j < |ops| :: !TouchesChallenge(ops[j], challenge)
  }

  lemma DiscoverableAnswerReadsOperations(ops: seq<Operation>, challenge: string, now: int)
    ensures var answer := Answer(Unexpired(), AllDiscoverableEvents(true, ops), challenge, now);
            if ops == [] then answer == None
            else
              var last := ops[|ops| - 1];
              answer ==
                if !TouchesChallenge(last, challenge)
                then Answer(Unexpired(), AllDiscoverableEvents(true, ops[..|ops| - 1]), challenge, now)
                else if last.StoreDiscoverable? && now < last.now + 300 then Some(())
                else None
  {
    if ops != [] {
      var past, last := AllDiscoverableEvents(true, ops[..|ops| - 1]), ops[|ops| - 1];
      match last
      case StoreDiscoverable(ch, purgedAt, at) =>
        AnswerAfterStore(past, purgedAt, Put(ch, (), at + CHALLENGE_TTL), now);
      case StoreUser(_, _, _, purgedAt, _) =>
        AnswerAfterOne(Unexpired(), past, DiscoverableEvents(true, last)[0]);
      case PopDiscoverable(_, _) =>
        AnswerAfterOne(Unexpired(), past, DiscoverableEvents(true, last)[0]);
      case PopUser(_, _, _) =>
        assert past + [] == past;
    }
  }

  lemma LastOfferOfPrefix(ops: seq<Operation>, challenge: string)
    requires ops != []
    ensures var n := |ops| - 1;
            if TouchesChallenge(ops[n], challenge) then
              forall i: nat :: OfferedLast(ops, i, challenge) <==> i == n && ops[n].StoreDiscoverable?
            else forall i: nat :: OfferedLast(ops, i, challenge) <==> OfferedLast(ops[..n], i, challenge)
  {
    var n := |ops| - 1;
    forall i: nat
      ensures if TouchesChallenge(ops[n], challenge)
              then OfferedLast(ops, i, challenge) <==> i == n && ops[n].StoreDiscoverable?
              else OfferedLast(ops, i, challenge) <==> OfferedLast(ops[..n], i, challenge)
    {
      assert forall j | 0 <= j < n :: ops[..n][j] == ops[j];
    }
  }

  lemma {:induction false} DiscoverableAnswerIsLastStore(ops: seq<Operation>, challenge: string, now: int)
    ensures Answer(Unexpired(), AllDiscoverableEvents(true, ops), challenge, now).Some?
            <==> exists i: nat :: OfferedLast(ops, i, challenge) && now < ops[i].now + 300
    decreases |ops|
  {
    DiscoverableAnswerReadsOperations(ops, challenge, now);
    if ops != [] {
      var n := |ops| - 1;
      LastOfferOfPrefix(ops, challenge);
      if TouchesChallenge(ops[n], challenge) {
        if ops[n].StoreDiscoverable? { assert OfferedLast(ops, n, challenge); }
      } else {
        DiscoverableAnswerIsLastStore(ops[..n], challenge, now);
        forall i: nat | OfferedLast(ops[..n], i, challenge)
          ensures OfferedLast(ops, i, challenge) && ops[..n][i] == ops[i]
        {}
        forall i: nat | OfferedLast(ops, i, challenge)
          ensures OfferedLast(ops[..n], i, challenge) && ops[..n][i] == ops[i]
        {}
      }
    }
  }

  /** `pop_discoverable` succeeds exactly when the last operation on that challenge was to store it,
      less than one lifetime ago; stores of other challenges and users never interfere. */
  lemma PopDiscoverableIff(ops: seq<Operation>, challenge: string, now: int)
    requires Clocked(ops + [PopDiscoverable(challenge, now)], now)
    ensures See(After(true, ops), PopDiscoverable(challenge, now)) == Found(true)
            <==> exists i: nat :: OfferedLast(ops, i, challenge) && now < ops[i].now + 300
  {
    PopsAnswerHistory(true, ops, PopDiscoverable(challenge, now));
    KeysAreIndependent(Unexpired(), AllDiscoverableEvents(true, ops), challenge, now);
    DiscoverableAnswerIsLastStore(ops, challenge, now);
  }

  /** Single use: between a pop of a challenge and a later successful pop of it, it was stored again. */
  lemma PopDiscoverableIsSingleUse(ops: seq<Operation>, i: nat, j: nat, until: int) returns (p: nat)
    requires i < j < |ops| && Clocked(ops, until)
    requires ops[i].PopDiscoverable? && ops[j].PopDiscoverable? && ops[i].challenge == ops[j].challenge
    requires See(After(true, ops[..j]), ops[j]) == Found(true)
    ensures i < p < j && ops[p].StoreDiscoverable? && ops[p].challenge == ops[j].challenge
    ensures ops[j].now < ops[p].now + 300
  {
    ClockedPrefix(ops, until, j);
    PopDiscoverableIff(ops[..j], ops[j].challenge, ops[j].now);
    p :| OfferedLast(ops[..j], p, ops[j].challenge) && ops[j].now < ops[..j][p].now + 300;
    assert ops[..j][i] == ops[i] && TouchesChallenge(ops[..j][i], ops[j].challenge);
  }
}
