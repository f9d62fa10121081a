/** Recovery of the stored challenge when a passkey authentication is verified
    (camp44/api/v1/passkey.py). */
module PasskeyCeremony {
  import opened Wrappers
  import opened Utf8
  import opened Base64
  import CS = ChallengeStore

  const AUTHENTICATION := "authentication"

  /** The key a client claims to have signed; empty when its data cannot be parsed. */
  function KeyClaimed(claimed: Option<string>): string {
    if claimed.Some? then ClaimedKey(claimed.value) else ""
  }

  /** What recovering the challenge does: the user's own challenge is popped first, and only when
      there is none the claimed one is popped from the discoverable set; nothing means a 400. */
  ghost predicate Recovers(
      before: CS.Maps, user: string, claimed: Option<string>, now: int, later: int,
      stored: Option<string>, after: CS.Maps)
  {
    var key := KeyClaimed(claimed);
    var pop := CS.Operation.PopUser(user, AUTHENTICATION, now);
    var found := CS.Operation.PopDiscoverable(key, later);
    var popped := CS.Do(true, before, pop);
    if CS.See(before, pop).value.Some? then stored == CS.See(before, pop).value && after == popped
    else if key == "" then stored == None && after == popped
    else stored == (if CS.See(popped, found).found then Some(key) else None) && after == CS.Do(true, popped, found)
  }

  /** The challenge to verify against. `claimed` is nothing when the client data cannot be parsed. */
  method RecoverChallenge(store: CS.ChallengeStore, user: string, claimed: Option<string>, now: int, later: int)
    returns (stored: Option<string>)
    modifies store
    ensures Recovers(old(store.Contents()), user, claimed, now, later, stored, store.Contents())
  {
    stored := store.PopUser(user, AUTHENTICATION, now);
    if stored == None {
      var key := if claimed.Some? then ClaimedKey(claimed.value) else "";
      if key == "" {
        return None;
      }
      var found := store.PopDiscoverable(key, later);
      stored := if found then Some(key) else None;
    }
  }

  /** The user's own challenge at `k` is the last thing done with that slot and has not expired. */
  ghost predicate Pending(ops: seq<CS.Operation>, k: nat, user: string, now: int) {
    CS.StoredLast(ops, k, user, AUTHENTICATION) && now < ops[k].now + 300
  }

  /** The claimed challenge at `k` is the last thing done with it and has not expired. */
  ghost predicate Offered(ops: seq<CS.Operation>, k: nat, key: string, later: int) {
    CS.OfferedLast(ops, k, key) && later < ops[k].now + 300
  }

  /** The clock over the operations and the two pops of the recovery. */
  ghost predicate ClockedUpTo(ops: seq<CS.Operation>, user: string, key: string, now: int, later: int) {
    && CS.Clocked(ops + [CS.Operation.PopUser(user, AUTHENTICATION, now)], now)
    && now <= later
  }

  /** Popping the user's slot leaves the discoverable challenges as they were. */
  lemma PopUserKeepsOffers(ops: seq<CS.Operation>, user: string, key: string, now: int, later: int)
    requires ClockedUpTo(ops, user, key, now, later)
    ensures var pop := CS.Operation.PopUser(user, AUTHENTICATION, now);
            var popped := ops + [pop];
            && CS.After(true, popped) == CS.Do(true, CS.After(true, ops), pop)
            && CS.Clocked(popped + [CS.Operation.PopDiscoverable(key, later)], later)
            && forall k: nat :: Offered(popped, k, key, later) <==> Offered(ops, k, key, later)
  {
    var pop := CS.Operation.PopUser(user, AUTHENTICATION, now);
    var popped := ops + [pop];
    assert popped[..|ops|] == ops && popped[|ops|] == pop;
    var whole := popped + [CS.Operation.PopDiscoverable(key, later)];
    assert whole[..|popped|] == popped;
    assert forall j | 0 <= j < |ops| :: popped[j] == ops[j];
    assert !CS.TouchesChallenge(pop, key);
  }

  /** The user's own challenge is what the pop returns; without a pending one it returns nothing. */
  lemma OwnChallengeIff(ops: seq<CS.Operation>, user: string, now: int, challenge: string)
    requires CS.Clocked(ops + [CS.Operation.PopUser(user, AUTHENTICATION, now)], now)
    ensures var own := CS.See(CS.After(true, ops), CS.Operation.PopUser(user, AUTHENTICATION, now)).value;
            && (own == Some(challenge)
                <==> exists k: nat :: Pending(ops, k, user, now) && ops[k].challenge == challenge)
            && (own == None <==> forall k: nat :: !Pending(ops, k, user, now))
  {
    var own := CS.See(CS.After(true, ops), CS.Operation.PopUser(user, AUTHENTICATION, now)).value;
    CS.PopUserIff(ops, user, AUTHENTICATION, now, challenge);
    if own.Some? {
      CS.PopUserIff(ops, user, AUTHENTICATION, now, own.value);
      var k: nat :| CS.StoredLast(ops, k, user, AUTHENTICATION) && now < ops[k].now + 300;
      assert Pending(ops, k, user, now);
    }
    forall k: nat | Pending(ops, k, user, now) ensures own == Some(ops[k].challenge) {
      CS.PopUserIff(ops, user, AUTHENTICATION, now, ops[k].challenge);
    }
    forall k: nat | CS.StoredLast(ops, k, user, AUTHENTICATION) && now < ops[k].now + 300
      ensures Pending(ops, k, user, now)
    {}
  }

  /** After the pop of the user's slot, the claimed challenge is found exactly when it is on offer. */
  lemma ClaimedChallengeIff(ops: seq<CS.Operation>, user: string, key: string, now: int, later: int)
    requires ClockedUpTo(ops, user, key, now, later)
    ensures var popped := CS.Do(true, CS.After(true, ops), CS.Operation.PopUser(user, AUTHENTICATION, now));
            CS.See(popped, CS.Operation.PopDiscoverable(key, later)).found
            <==> exists k: nat :: Offered(ops, k, key, later)
  {
    var popped := ops + [CS.Operation.PopUser(user, AUTHENTICATION, now)];
    PopUserKeepsOffers(ops, user, key, now, later);
    CS.PopDiscoverableIff(popped, key, later);
    forall k: nat | CS.OfferedLast(popped, k, key) && later < popped[k].now + 300
      ensures Offered(ops, k, key, later)
    {
      assert Offered(popped, k, key, later);
    }
    forall k: nat | Offered(ops, k, key, later)
      ensures CS.OfferedLast(popped, k, key) && later < popped[k].now + 300
    {
      assert Offered(popped, k, key, later);
    }
  }

  /** Over every trace, the recovery returns a challenge exactly when it is the user's own pending
      one, or the user has none pending and it is the claimed one and on offer. */
  lemma RecoveredIff(
      ops: seq<CS.Operation>, user: string, claimed: Option<string>, now: int, later: int,
      stored: Option<string>, after: CS.Maps, challenge: string)
    requires ClockedUpTo(ops, user, KeyClaimed(claimed), now, later)
    requires Recovers(CS.After(true, ops), user, claimed, now, later, stored, after)
    ensures stored == Some(challenge)
            <==> (exists k: nat :: Pending(ops, k, user, now) && ops[k].challenge == challenge)
                 || (&& (forall k: nat :: !Pending(ops, k, user, now))
                     && challenge == KeyClaimed(claimed) != ""
                     && exists k: nat :: Offered(ops, k, challenge, later))
  {
    OwnChallengeIff(ops, user, now, challenge);
    ClaimedChallengeIff(ops, user, KeyClaimed(claimed), now, later);
  }

  /** What a client may send back for a challenge: its base64url form, padded or not. */
  predicate SentFor(sent: string, challenge: seq<Byte>) {
    sent == Encoded(true, challenge) || sent == Stripped(Encoded(true, challenge))
  }

  /** A discoverable ceremony that answers in time, however many other ceremonies ran in between,
      is checked against the challenge it was given if and only if the user whose credential answers
      has no other challenge pending. */
  lemma DiscoverableCeremonyFindsItsChallengeIff(
      ops: seq<CS.Operation>, i: nat, challenge: seq<Byte>, sent: string, others: seq<seq<Byte>>,
      user: string, now: int, later: int, stored: Option<string>, after: CS.Maps)
    requires i < |ops| == |others| && ops[i].StoreDiscoverable? && ops[i].challenge == StoredKey(challenge)
    requires forall j | i < j < |ops| ::
               || ops[j].StoreUser? || ops[j].PopUser?
               || (ops[j].challenge == StoredKey(others[j]) && others[j] != challenge)
    requires challenge != [] && SentFor(sent, challenge) && later < ops[i].now + 300
    requires ClockedUpTo(ops, user, StoredKey(challenge), now, later)
    requires Recovers(CS.After(true, ops), user, Some(sent), now, later, stored, after)
    ensures stored == Some(StoredKey(challenge))
            <==> forall k: nat :: Pending(ops, k, user, now) ==> ops[k].challenge == StoredKey(challenge)
  {
    var key := StoredKey(challenge);
    ChallengeKeyRoundTrip(challenge);
    StoredKeyIsNotEmpty(challenge);
    forall j | i < j < |ops| ensures !CS.TouchesChallenge(ops[j], key) {
      if StoredKey(others[j]) == key { StoredKeysAreDistinct(others[j], challenge); }
    }
    assert Offered(ops, i, key, later);
    RecoveredIff(ops, user, Some(sent), now, later, stored, after, key);
    forall k: nat, l: nat | Pending(ops, k, user, now) && Pending(ops, l, user, now) ensures k == l {
      assert CS.TouchesUser(ops[k], user, AUTHENTICATION) && CS.TouchesUser(ops[l], user, AUTHENTICATION);
    }
  }

  lemma StoredKeyIsNotEmpty(challenge: seq<Byte>)
    requires challenge != []
    ensures StoredKey(challenge) != ""
  {
    if StoredKey(challenge) == StoredKey([]) { StoredKeysAreDistinct(challenge, []); }
  }

  /** The failing ceremony: a challenge requested with the user's address after the discoverable one
      was given out is the one the answer is checked against. */
  lemma AnAddressChallengeComesFirst(
      challenge: seq<Byte>, other: string, sent: string, user: string, stored: Option<string>, after: CS.Maps)
    requires SentFor(sent, challenge) && other != StoredKey(challenge)
    requires var ops := [CS.Operation.StoreDiscoverable(StoredKey(challenge), 0, 0),
                         CS.Operation.StoreUser(user, AUTHENTICATION, other, 1, 1)];
             Recovers(CS.After(true, ops), user, Some(sent), 2, 2, stored, after)
    ensures stored == Some(other) != Some(StoredKey(challenge))
  {
    var ops := [CS.Operation.StoreDiscoverable(StoredKey(challenge), 0, 0),
                CS.Operation.StoreUser(user, AUTHENTICATION, other, 1, 1)];
    var pop := CS.Operation.PopUser(user, AUTHENTICATION, 2);
    assert ops[..1] == [ops[0]] && ops[..1][..0] == [];
    assert (ops + [pop])[..2] == ops;
    assert CS.Clocked(ops[..1], 1) && CS.Clocked(ops, 2);
    assert Pending(ops, 1, user, 2);
    RecoveredIff(ops, user, Some(sent), 2, 2, stored, after, other);
  }

  // ---------------------------------------------------------------------------------------
  // Single use of a ceremony.
  // ---------------------------------------------------------------------------------------

  /** The operations on the store that a recovery amounts to. */
  function Pops(before: CS.Maps, user: string, claimed: Option<string>, now: int, later: int): seq<CS.Operation> {
    var pop := CS.Operation.PopUser(user, AUTHENTICATION, now);
    if CS.See(before, pop).value.Some? || KeyClaimed(claimed) == "" then [pop]
    else [pop, CS.Operation.PopDiscoverable(KeyClaimed(claimed), later)]
  }

  /** What a recovery leaves is what its pops leave, so everything said of traces holds after it. */
  lemma RecoveryIsPops(
      ops: seq<CS.Operation>, user: string, claimed: Option<string>, now: int, later: int,
      stored: Option<string>, after: CS.Maps)
    requires Recovers(CS.After(true, ops), user, claimed, now, later, stored, after)
    ensures after == CS.After(true, ops + Pops(CS.After(true, ops), user, claimed, now, later))
  {
    var pop := CS.Operation.PopUser(user, AUTHENTICATION, now);
    var found := CS.Operation.PopDiscoverable(KeyClaimed(claimed), later);
    assert (ops + [pop])[..|ops|] == ops;
    assert ops + [pop, found] == (ops + [pop]) + [found];
    assert ((ops + [pop]) + [found])[..|ops| + 1] == ops + [pop];
  }

  /** The operation stores the challenge, for a user's sign-in or for anyone's. */
  predicate Stores(op: CS.Operation, challenge: string) {
    || (op.StoreUser? && op.ceremony == AUTHENTICATION && op.challenge == challenge)
    || (op.StoreDiscoverable? && op.challenge == challenge)
  }

  /** The store operation at `k` that a recovery after `ops` used up: no later pop or store touches
      the same slot. */
  ghost predicate UsedUp(
      ops: seq<CS.Operation>, k: nat, user: string, claimed: Option<string>, now: int, later: int, challenge: string)
  {
    && k < |ops| && Stores(ops[k], challenge)
    && var pops := Pops(CS.After(true, ops), user, claimed, now, later);
       if ops[k].StoreUser? then Pending(ops, k, user, now)
       else
         && Offered(ops, k, challenge, later)
         && |pops| == 2 && pops[1] == CS.Operation.PopDiscoverable(challenge, later)
  }

  lemma RecoveryUsesUp(
      ops: seq<CS.Operation>, user: string, claimed: Option<string>, now: int, later: int,
      challenge: string, after: CS.Maps)
    returns (k: nat)
    requires ClockedUpTo(ops, user, KeyClaimed(claimed), now, later)
    requires Recovers(CS.After(true, ops), user, claimed, now, later, Some(challenge), after)
    ensures UsedUp(ops, k, user, claimed, now, later, challenge)
  {
    RecoveredIff(ops, user, claimed, now, later, Some(challenge), after, challenge);
    OwnChallengeIff(ops, user, now, challenge);
    if i: nat :| Pending(ops, i, user, now) && ops[i].challenge == challenge {
      k := i;
    } else {
      k :| Offered(ops, k, challenge, later);
    }
  }

  /** What one recovery has used up no later one finds. */
  lemma UsedUpOnce(
      ops: seq<CS.Operation>, between: seq<CS.Operation>, k: nat, challenge: string,
      user: string, claimed: Option<string>, now: int, later: int,
      user2: string, claimed2: Option<string>, now2: int, later2: int)
    requires UsedUp(ops, k, user, claimed, now, later, challenge)
    ensures var trace := ops + Pops(CS.After(true, ops), user, claimed, now, later) + between;
            !UsedUp(trace, k, user2, claimed2, now2, later2, challenge)
  {
    var pops := Pops(CS.After(true, ops), user, claimed, now, later);
    var trace := ops + pops + between;
    assert trace[k] == ops[k];
    assert trace[|ops|] == pops[0];
    if ops[k].StoreUser? {
      assert CS.TouchesUser(trace[|ops|], user, AUTHENTICATION);
    } else {
      assert trace[|ops| + 1] == pops[1];
      assert CS.TouchesChallenge(trace[|ops| + 1], challenge);
    }
  }

  /** Single use: two recoveries that return the same challenge, with anything in between, use up two
      different stores of it; so a challenge stored once is recovered at most once, by whomever. */
  lemma RecoveriesNeedTwoStores(
      ops: seq<CS.Operation>, between: seq<CS.Operation>, challenge: string,
      user: string, claimed: Option<string>, now: int, later: int, after: CS.Maps,
      user2: string, claimed2: Option<string>, now2: int, later2: int, after2: CS.Maps)
    returns (k: nat, l: nat)
    requires ClockedUpTo(ops, user, KeyClaimed(claimed), now, later)
    requires Recovers(CS.After(true, ops), user, claimed, now, later, Some(challenge), after)
    requires var trace := ops + Pops(CS.After(true, ops), user, claimed, now, later) + between;
             && ClockedUpTo(trace, user2, KeyClaimed(claimed2), now2, later2)
             && Recovers(CS.After(true, trace), user2, claimed2, now2, later2, Some(challenge), after2)
    ensures var trace := ops + Pops(CS.After(true, ops), user, claimed, now, later) + between;
            k < |ops| && l < |trace| && k != l && Stores(trace[k], challenge) && Stores(trace[l], challenge)
  {
    var trace := ops + Pops(CS.After(true, ops), user, claimed, now, later) + between;
    k := RecoveryUsesUp(ops, user, claimed, now, later, challenge, after);
    l := RecoveryUsesUp(trace, user2, claimed2, now2, later2, challenge, after2);
    UsedUpOnce(ops, between, k, challenge, user, claimed, now, later, user2, claimed2, now2, later2);
  }

  ghost predicate StoredOnce(ops: seq<CS.Operation>, challenge: string) {
    forall i, j | 0 <= i < |ops| && 0 <= j < |ops| && Stores(ops[i], challenge) && Stores(ops[j], challenge) :: i == j
  }

  lemma OtherStoreIsLater(
      ops: seq<CS.Operation>, pops: seq<CS.Operation>, between: seq<CS.Operation>, k: nat, l: nat, challenge: string)
    requires k < |ops| && l < |ops + pops + between| && k != l && StoredOnce(ops, challenge)
    requires Stores((ops + pops + between)[k], challenge) && Stores((ops + pops + between)[l], challenge)
    requires forall i | 0 <= i < |pops| :: pops[i].PopUser? || pops[i].PopDiscoverable?
    ensures l >= |ops| + |pops| && Stores(between[l - |ops| - |pops|], challenge)
  {
    assert (ops + pops + between)[k] == ops[k];
  }

  /** An answer that was accepted cannot be replayed: if the challenge had been stored once, a second
      recovery returns it only after it has been stored again in between. */
  lemma ReplayNeedsANewStore(
      ops: seq<CS.Operation>, between: seq<CS.Operation>, challenge: string,
      user: string, claimed: Option<string>, now: int, later: int, after: CS.Maps,
      user2: string, claimed2: Option<string>, now2: int, later2: int, after2: CS.Maps)
    returns (p: nat)
    requires ClockedUpTo(ops, user, KeyClaimed(claimed), now, later)
    requires Recovers(CS.After(true, ops), user, claimed, now, later, Some(challenge), after)
    requires StoredOnce(ops, challenge)
    requires var trace := ops + Pops(CS.After(true, ops), user, claimed, now, later) + between;
             && ClockedUpTo(trace, user2, KeyClaimed(claimed2), now2, later2)
             && Recovers(CS.After(true, trace), user2, claimed2, now2, later2, Some(challenge), after2)
    ensures p < |between| && Stores(between[p], challenge)
  {
    var pops := Pops(CS.After(true, ops), user, claimed, now, later);
    var k, l := RecoveriesNeedTwoStores(ops, between, challenge, user, claimed, now, later, after,
                                        user2, claimed2, now2, later2, after2);
    OtherStoreIsLater(ops, pops, between, k, l, challenge);
    p := l - |ops| - |pops|;
  }
}
