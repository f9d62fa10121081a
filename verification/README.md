# Verified model of the camp44 sign-in, token and account logic

This project models the parts of camp44 in which several requests, or several steps of one request,
share state: refresh-token rotation with reuse detection, the two stores of expiring single-use
values, the byte codecs under passwords and passkey challenges, the route blocker of the feature
flags, and the user table with its admin role and Stripe checkout retries.

`dafny verify dfyconfig.toml` checks everything.

## How the model is built

**Refresh-token rotation, two granularities.** `RotationSteps` is a state machine over any number of
open transactions. A transaction reads committed rows and its own writes, every written row stays
locked until commit or rollback, and commit and rollback are atomic. `consume` is one step, because
it is one conditional UPDATE; it waits while another transaction holds the row. `revoke_family`,
`revoke_user_tokens`, `cleanup_expired` and `logout` first read and later write row by row, and any
other step may fall in between. `RotationInvariant` proves one invariant of every step,
`RotationTheorems` the safety of every run, `RotationHistory` what the log of issues looks like in
every run, `RotationRaces` what a revocation can miss. `RefreshService` is the same code as whole transactions, a class that updates the table,
proved against the functions of `RefreshTransactions`; `RotationRefinement` proves that each such
transaction is a run of the interleaved steps, so the serial results hold in every reachable state.
`CleanupSimulation` compares histories of whole requests with and without a cleanup, and
`SerialHistories` proves that every such history is a run of the interleaved steps.

**Single-use stores.** `SingleUse` states, for a table with expiry and purges, that the last thing
done with a key decides the answer. `ChallengeStore` (two maps) and `AuthCodes` (one dictionary) are
classes whose methods change the maps, and whose operation traces are proved to follow that
specification.

**Codecs.** `Utf8` follows CPython's encoder and its decoder with `errors="ignore"`; `Base64` follows
the lenient `binascii` reader (foreign characters are skipped). `Password` and `PasskeyCeremony` use
them the way `security.py` and `passkey.py` do.

**Feature flags.** `FeatureFlags` has the nested loops of the matcher and proves them equal to
substitution into the pattern.

**Accounts.** `Accounts` gives the effect of each request on the user table. `AccountService` is the
class whose methods change it step by step; its `Valid()` is the invariant of `AccountInvariants`,
which every method keeps, and `AccountEffects` says what each answer means for the caller.
`AccountInvariants` and `AccountHistory` state what every run keeps and how a user can become an
admin or active, and `CheckoutConvergence` what repeated deliveries of one Stripe event lead to, alone
and among all other requests. `AccountTokens` joins the two halves: every run of account requests is a
run of the token protocol's environment steps.

## Assumptions

- Raw tokens, authorization codes, family ids, user ids and reset tokens drawn at random never repeat.
- SHA-256 and bcrypt are idealised as injective constructors (`Sha256(raw)`, `Bcrypt(salt, text)`); a
  JWT is its claims plus a flag saying whether the server signed it.
- The clock is an integer number of seconds that never goes back. An interleaved step reads it on its
  own; a whole transaction reads it once.
- The database runs at READ COMMITTED, as in PostgreSQL: reads see committed rows, a write locks its row.
- Nothing in the code increases `User.token_version`, although it is documented as the switch that
  revokes all of a user's tokens (`VersionsStay` proves it of all account requests). `BumpVersion` is a
  step of the environment.
- Nothing is assumed about `str.lower`: it is a parameter of the admin-domain setting.
- A login step only needs the user to exist: the OIDC and passkey logins do not ask whether the user
  is active, the password login does.

## Where the code and its documentation differ

- The refresh endpoint says that a replayed token revokes the whole family. It does when requests run
  one after another (`ReachableRefreshRotatesOrEmpties`). With concurrency, the SELECT of
  `revoke_family` can miss a successor that another transaction has not committed yet:
  `ReplayCanMissASuccessor` gives the interleaving for every state in which it can happen, and
  `SweepEmptiesFamilyIff` says exactly when a committed revocation empties its family.
- `revoke_user_tokens` says that it revokes all of a user's tokens, and can miss a successor in the same
  way: `UserRevocationCanMissASuccessor` gives the run, `SweepEmptiesUserIff` the exact condition.
- `cleanup_expired` also deletes consumed rows, so a replay of a consumed token is no longer recognised
  once the token has expired. `ForgottenReplayIsHarmlessIff` gives the exact condition under which this
  loses nothing, and `ForgottenReplayShows` the requests that reveal it.
- A comment in the passkey endpoints says that concurrent discoverable ceremonies cannot overwrite one
  another, because each is stored under its own challenge. The entries do survive, but the verify
  endpoint first takes the challenge that is pending for the user, so a discoverable ceremony is checked
  against another challenge when one was requested with the user's address meanwhile:
  `AnAddressChallengeComesFirst` is such a run, and `DiscoverableCeremonyFindsItsChallengeIff` gives the
  exact condition.
- The comment of `_ensure_admin_role` promises that only a verified address earns the admin role. A
  profile update changes the address and leaves `oidc_email_verified` set, so an account of the
  identity provider can move into an admin domain and is promoted at its next login:
  `AnUnverifiedAddressIsPromoted` is such a run, `BecomesPromotableIff` gives the exact condition, and
  `OnlyGrantsAndMovesMakeAdmins` states what holds over every run.
- A Stripe cancellation deactivates whoever has the customer id and can remove the last active admin:
  `CancellationRemovesTheLastAdmin` is such a run, `CancelKeepsAdminIff` gives the exact condition.
- A new paying user is meant to get a token for setting a password. When a delivery breaks off between
  its two commits, the retry finds the half-made account, answers with success and issues none:
  `ARetryIssuesNoToken` is such a run, `NewCustomerHasTokenIff` gives the exact condition.
- The documentation speaks of `is_superuser` and a `/promote` endpoint; the code checks for the role
  "admin" and has `/make-admin`. The seed script passes `roles=["admin"]` to a schema that has no
  such field, so the seeded user is not an admin. The model follows the code.

## Model

| member | source | states |
|---|---|---|
| `RotationInvariant.StepKeepsInv` | camp44/crud/refresh_token.py:49-127 | every step of every request, commit, rollback and environment change keeps the protocol invariant: one unrevoked committed row per family and it is the family's newest, locks of open transactions disjoint, what each phase has read still true |
| `RotationTheorems.RunKeeps` | camp44/crud/refresh_token.py:13-127 | over every run the invariant holds at the end, rows only fade (never return, change hands or become unrevoked), versions only rise, the log only grows and dead families stay dead |
| `RotationTheorems.OneLiveTokenOneConsumer` | camp44/crud/refresh_token.py:49-79 | in every reachable state a family has at most one unrevoked token and at most one request that consumed a token and may still mint, and that request holds the lock on exactly that token |
| `RotationTheorems.DeadStaysDead` | camp44/core/auth_tokens.py:15-53 | once a family has no unrevoked row and no consumer in flight, no continuation gives it an unrevoked row, a consumer or another access token |
| `RotationTheorems.DeathBoundsAccess` | camp44/core/security.py:15-28 | no access token granted in a family that is dead at time t is accepted after t plus ACCESS_TOKEN_EXPIRE_MINUTES * 60 seconds, in any continuation |
| `RotationTheorems.RaisedVersionRevokes` | camp44/api/deps.py:28-58 | once a user's token version has risen or the user is gone, no access or refresh token issued to the user before is accepted in any later state |
| `RotationTheorems.OnlyGrantsAreAccepted` | camp44/api/deps.py:28-58 | in every reachable state an access token is accepted only if the run granted it, for the user of its family, who is active, at the user's present version, and for at most ACCESS_TOKEN_EXPIRE_MINUTES * 60 seconds more; a token that equals no grant is not authenticated |
| `TokenModel.AcceptedIff` | camp44/api/deps.py:28-58 | a token is accepted for a user if and only if the server signed it, it has not expired, and its subject is that user, who exists, is active and has the token's version |
| `TokenModel.RefusedIff` | camp44/api/deps.py:28-58 | which of the four refusals is given, exactly |
| `RotationTheorems.RefreshTokensExpire` | camp44/crud/refresh_token.py:13-38 | over every run, a refresh token that has been issued can no longer be exchanged REFRESH_TOKEN_EXPIRE_DAYS * 86400 seconds later |
| `RotationTheorems.UsedTokensStayKnown` | camp44/crud/refresh_token.py:41-127 | over every run, a used or revoked token keeps its row, as it is, until it has expired or its user is gone |
| `RotationTheorems.RunKeepsOwners` | camp44/api/v1/endpoints/admin.py:219-239 | over every run the user of every token row exists: a deletion leaves no token behind, whatever else is in flight |
| `RotationTheorems.FamilyIsUniform` | camp44/api/v1/endpoints/auth.py:744-750 | all rows of a family carry one user and one version, never above the user's own |
| `RotationTheorems.SweepEmptiesFamilyIff` | camp44/crud/refresh_token.py:82-97 | a committed family revocation leaves no unrevoked row if and only if no newer token was minted since it read the rows, or that token is already out of use |
| `RotationHistory.FamiliesAreChains` | camp44/api/v1/endpoints/auth.py:690-751 | over every run each family's tokens form one linear chain ending in its newest, no token mints two successors, tokens issued equals one plus successful refreshes, and only the end of the chain can be unrevoked |
| `RotationHistory.MintsOneSuccessor` | camp44/crud/refresh_token.py:49-79 | no two rotations in a chained log present the same token, however many callers hold it |
| `RotationHistory.ChainLength` | camp44/core/auth_tokens.py:15-53 | a family has issued one token more than it has seen refreshes |
| `RotationRaces.ReplayCanMissASuccessor` | camp44/crud/refresh_token.py:82-97 | whenever a spent and a refreshable token of one family meet, some interleaving refuses the replay and still leaves the freshly minted token live |
| `RotationTheorems.SweepEmptiesUserIff` | camp44/crud/refresh_token.py:100-115 | a committed revocation of a user's tokens leaves no unrevoked row of the user if and only if the newest token of each of the user's families had been issued when it read the rows, or is already out of use |
| `RotationRaces.UserRevocationCanMissASuccessor` | camp44/crud/refresh_token.py:100-115 | whenever a user has a refreshable token, some interleaving commits the revocation of all the user's tokens and leaves exactly the freshly minted successor live |
| `RefreshTransactions.RefreshRotatesOrEmpties` | camp44/api/v1/endpoints/auth.py:690-751 | given one unrevoked row per family, a refresh with a known token leaves the family's unrevoked rows equal to the new token on success and empty on every 401; it succeeds exactly for an unrevoked, unexpired token of an active user at the current version; the new pair is accepted and carries exactly the configured lifetimes; no row is lost and other families are untouched |
| `RefreshService.RefreshService.Refresh` | camp44/api/v1/endpoints/auth.py:690-751 | keeps one unrevoked row per family; the family of a known token is left with the new token alone on success and with none on a 401; it succeeds exactly for a refreshable token, and the reply carries the new token and an access token of exactly the configured lifetime; an unknown token is refused and changes nothing |
| `RefreshService.RefreshService.Login` | camp44/core/auth_tokens.py:15-53 | starts a new family whose only unrevoked row is the returned token's |
| `RefreshService.RefreshService.DeleteUser` | camp44/api/v1/endpoints/admin.py:219-239 | the user is gone and no row of the user is left; every other user and row is as before |
| `RefreshService.RefreshService.Create` | camp44/crud/refresh_token.py:13-38 | one unrevoked row is added under the hash of the raw token, with the given family or a new one, expiring REFRESH_TOKEN_EXPIRE_DAYS * 86400 seconds from now |
| `RefreshService.RefreshService.Consume` | camp44/crud/refresh_token.py:49-79 | wins exactly when the token was present and unrevoked, returns its row revoked, and changes no other row |
| `RefreshService.RefreshService.RevokeFamily` | camp44/crud/refresh_token.py:82-97 | revokes exactly the family's unrevoked rows and counts them; none is left |
| `RefreshService.RefreshService.RevokeUserTokens` | camp44/crud/refresh_token.py:100-115 | revokes exactly the user's unrevoked rows and counts them; none is left |
| `RefreshService.RefreshService.CleanupExpired` | camp44/crud/refresh_token.py:118-127 | deletes exactly the rows whose expiry is before now and counts them |
| `RefreshService.RefreshService.CreateTokenPair` | camp44/core/auth_tokens.py:15-53 | adds the row of the new refresh token and returns it with an access token at the same user and version that expires, and is announced to expire, ACCESS_TOKEN_EXPIRE_MINUTES * 60 seconds from now |
| `RefreshService.RefreshService.Logout` | camp44/api/v1/endpoints/auth.py:760-772 | revokes the presented token if it is known and changes nothing else |
| `RotationRefinement.SerialRefreshIsARun` | camp44/api/v1/endpoints/auth.py:690-751 | every whole refresh, whatever its outcome, is a run of the interleaved steps with the same rows, and logs a rotation and grants the reply's access token, and no other, exactly when it replies with a token pair |
| `RotationRefinement.SerialLoginIsARun` | camp44/core/auth_tokens.py:15-53 | a whole login is a run that starts a family with one row and grants one access token, both of exactly the configured lifetimes |
| `RotationRefinement.SerialLogoutIsARun` | camp44/api/v1/endpoints/auth.py:760-772 | a whole logout is a run that revokes at most the presented token |
| `RotationRefinement.SerialRevokeUserIsARun` | camp44/crud/refresh_token.py:100-115 | a whole revocation of a user's tokens is a run that revokes exactly the user's unrevoked rows, however many |
| `RotationRefinement.SerialCleanupIsARun` | camp44/crud/refresh_token.py:118-127 | a whole cleanup is a run that deletes exactly the expired rows |
| `RotationRefinement.ReachableRefreshRotatesOrEmpties` | camp44/api/v1/endpoints/auth.py:690-751 | in every reachable committed state, a refresh run as one transaction with a known token leaves the family's live set equal to the new token on success and empty on any 401; an unknown token is refused and changes nothing |
| `RotationRefinement.ReplaysAreDetected` | camp44/api/v1/endpoints/auth.py:709-727 | a token used or revoked at some point of a run, presented again in any later state before it expires and while its user exists, is refused and its family is left without an unrevoked row, when that refresh runs as one transaction |
| `SerialHistories.HistoryIsARun` | camp44/crud/refresh_token.py:13-127 | every history of whole logins, refreshes, logouts, revocations, cleanups and user changes is a run of the interleaved steps with the same tables at the end, which grants the access token of every reply |
| `SerialHistories.HistoriesRotateOrEmpty` | camp44/api/v1/endpoints/auth.py:690-751 | after every such history from empty tables a family has at most one unrevoked row, and a refresh with a known token leaves its family with the new token alone or with none |
| `CleanupSimulation.LoginWorks` | camp44/core/auth_tokens.py:15-53 | the pair with which a login is answered works: the access token is accepted and the refresh token can be exchanged |
| `CleanupSimulation.RunsKeepTrimmed` | camp44/crud/refresh_token.py:118-127 | two histories that differ only in deleted expired rows give the same replies to all requests that replay no expired, consumed token, and still differ only in expired rows |
| `CleanupSimulation.CleanupIsUnobservable` | camp44/crud/refresh_token.py:118-127 | a cleanup inserted before such requests changes no reply, and users and unexpired rows agree at the end; both boundaries are a strict `<` |
| `CleanupSimulation.ForgottenReplayIsHarmlessIff` | camp44/crud/refresh_token.py:118-127 | the excluded replay is refused either way, and leaves the same users and unexpired rows if and only if its family has no unexpired unrevoked row |
| `CleanupSimulation.ForgottenReplayShows` | camp44/api/v1/endpoints/auth.py:713-727 | with a refreshable token in the family, that replay followed by a refresh is refused without the cleanup and answered with tokens after it |
| `SingleUse.TableAnswersHistory` | camp44/api/v1/passkey.py:74-118 | wherever purges fall in a history with a nondecreasing clock, the table answers a take as the last put or take of that key says |
| `SingleUse.KeysAreIndependent` | camp44/api/v1/passkey.py:74-118 | the answer for a key depends only on the puts and takes of that key |
| `SingleUse.AnswerIff` | camp44/api/v1/passkey.py:103-118 | a take returns a value exactly when the key's last event is a put of that value that has not gone stale |
| `SingleUse.SingleUseBetweenPuts` | camp44/api/v1/passkey.py:103-118 | between a take of a key and a later successful take of it lies a put of that key |
| `ChallengeStore.ChallengeStore.PurgeExpired` | camp44/api/v1/passkey.py:85-88 | both maps keep exactly the entries that expire after now |
| `ChallengeStore.ChallengeStore.StoreUser` | camp44/api/v1/passkey.py:90-96 | the user's slot for the ceremony holds the challenge for 300 seconds; of the rest exactly what had not expired at the purge remains |
| `ChallengeStore.ChallengeStore.StoreDiscoverable` | camp44/api/v1/passkey.py:98-101 | the challenge is pending for 300 seconds; of the rest exactly what had not expired at the purge remains |
| `ChallengeStore.ChallengeStore.PopUser` | camp44/api/v1/passkey.py:103-112 | returns the slot's challenge only before its expiry, and empties the slot in every case |
| `ChallengeStore.ChallengeStore.PopDiscoverable` | camp44/api/v1/passkey.py:114-118 | says whether the challenge was pending and unexpired, and removes it in every case |
| `ChallengeStore.PopsAnswerHistory` | camp44/api/v1/passkey.py:74-118 | after any trace on both maps a pop is answered by the trace projected to its own key |
| `ChallengeStore.PurgingIsUnobservable` | camp44/api/v1/passkey.py:85-118 | in every trace of stores and pops each operation shows what a store that never purges would show |
| `ChallengeStore.PopUserIff` | camp44/api/v1/passkey.py:90-112 | `pop_user` returns a challenge exactly when the last operation on that user and ceremony stored it, less than 300 seconds ago |
| `ChallengeStore.PopUserIsSingleUse` | camp44/api/v1/passkey.py:103-112 | a pop that succeeds after an earlier pop of the same slot returns what was stored between the two, still in its lifetime |
| `ChallengeStore.PopDiscoverableIff` | camp44/api/v1/passkey.py:98-118 | `pop_discoverable` succeeds exactly when the last operation on that challenge stored it, less than 300 seconds ago |
| `ChallengeStore.PopDiscoverableIsSingleUse` | camp44/api/v1/passkey.py:114-118 | a pop of a challenge that succeeds after an earlier pop of it was preceded by a store of it between the two, still in its lifetime |
| `AuthCodes.AuthCodes.CleanupExpired` | camp44/api/v1/endpoints/auth.py:35-40 | removes exactly the codes older than 60 seconds, and every key it deletes is present |
| `AuthCodes.AuthCodes.Create` | camp44/api/v1/endpoints/auth.py:43-53 | after a cleanup the code holds the token pair and its creation time |
| `AuthCodes.AuthCodes.Exchange` | camp44/api/v1/endpoints/auth.py:92-111 | returns the pair of a code that survives the cleanup and removes the code |
| `AuthCodes.ExchangeIff` | camp44/api/v1/endpoints/auth.py:35-111 | over every run an exchange returns a pair exactly when the code was created with it, has not been exchanged since, and is at most 60 seconds old |
| `AuthCodes.RedeemedTwiceIsCreatedTwice` | camp44/api/v1/endpoints/auth.py:92-111 | a code redeemed twice was created before the first and again between the two redemptions |
| `AuthCodes.RedeemedOnce` | camp44/api/v1/endpoints/auth.py:92-111 | with fresh codes, after one success every later exchange of the code is refused |
| `Utf8.DecodeCut` | camp44/core/security.py:31-58 | cutting encoded text at any byte and decoding with errors ignored gives exactly the characters whose encodings fit (section 3 of RFC 3629) |
| `Utf8.FittingIsLongest` | camp44/core/security.py:31-58 | the number kept is that of the longest prefix whose encoding has at most that many bytes |
| `Utf8.RoundTrip` | camp44/core/security.py:51-58 | decoding an encoded text gives the text |
| `Utf8.EncodingFollowsTheTable` | camp44/core/security.py:51-58 | every character is encoded by the table in section 3 of RFC 3629: widths by range, leading and continuation bytes, and the character's bits as payload |
| `Password.TruncationIsLongestPrefix` | camp44/core/security.py:31-58 | truncation returns the longest code-point prefix that encodes to at most 72 bytes |
| `Password.TruncationIsIdempotent` | camp44/core/security.py:31-58 | truncating twice is truncating once; a password is left alone exactly when it fits |
| `Password.TruncationKeepsAlmostAll` | camp44/core/security.py:31-58 | a password that does not fit keeps 69 to 72 bytes |
| `Password.VerifiesIffSameTruncation` | camp44/core/security.py:31-58 | a password verifies against a hash exactly when both have the same truncation, so always against its own |
| `Base64.ChallengeKeyRoundTrip` | camp44/api/v1/passkey.py:68-71 | the base64url form of any challenge, padded or not (section 5 of RFC 4648), decodes to the challenge and is turned into exactly the stored key, which decodes to the challenge |
| `Base64.StandardRoundTrip` | camp44/api/v1/passkey.py:359-384 | the lenient reader inverts the standard encoder on every byte string, so the stored key gives the challenge back |
| `Base64.StoredKeysAreDistinct` | camp44/api/v1/passkey.py:284-292 | two challenges never share a stored key |
| `Base64.GroupsAreBits` | camp44/api/v1/passkey.py:284-292 | the six-bit groups of one, two and three bytes spell their bits, most significant first, zero-filled (section 4 of RFC 4648) |
| `Base64.KnownVectors` | camp44/api/v1/passkey.py:284-292 | vectors from section 10 of RFC 4648, and one with the two letters in which the alphabets differ |
| `PasskeyCeremony.RecoverChallenge` | camp44/api/v1/passkey.py:359-384 | a pending user challenge is used and nothing else is popped; otherwise the claimed key is popped and returned if it was pending; otherwise nothing; `RecoveredIff` and `ReplayNeedsANewStore` are about exactly this relation |
| `PasskeyCeremony.RecoveredIff` | camp44/api/v1/passkey.py:359-384 | over every trace the endpoint verifies against a challenge exactly when it is the one pending for the user, or the user has none pending and it is the claimed one and on offer |
| `PasskeyCeremony.RecoveryIsPops` | camp44/api/v1/passkey.py:359-384 | what a recovery leaves is what its one or two pops leave, so all that is said of traces holds after it |
| `PasskeyCeremony.RecoveriesNeedTwoStores` | camp44/api/v1/passkey.py:103-118 | two recoveries that return the same challenge, for whichever users and with anything in between, use up two different stores of it |
| `PasskeyCeremony.ReplayNeedsANewStore` | camp44/api/v1/passkey.py:359-384 | an answer cannot be replayed: when the challenge had been stored once, a second recovery returns it only after it has been stored again in between |
| `PasskeyCeremony.DiscoverableCeremonyFindsItsChallengeIff` | camp44/api/v1/passkey.py:284-384 | a discoverable ceremony that answers in time, whichever other ceremonies ran in between, is verified against its own challenge if and only if the user whose credential answers has no other challenge pending |
| `PasskeyCeremony.AnAddressChallengeComesFirst` | camp44/api/v1/passkey.py:289-290 | the failing run: after a challenge was requested with the user's address, the discoverable answer is verified against that one |
| `FeatureFlags.MatchesBlocked` | camp44/middleware/feature_flags.py:52-75 | the split-and-compare loops say yes exactly when some prefix blocks the path |
| `FeatureFlags.BuildBlockedPrefixes` | camp44/middleware/feature_flags.py:20-49 | the list holds exactly the routes of the flags that are set, in the order of the table |
| `FeatureFlags.Dispatch` | camp44/middleware/feature_flags.py:85-91 | 410 exactly when a set flag has a route that blocks the path |
| `FeatureFlags.ContainsIff` | camp44/middleware/feature_flags.py:56-57 | the test for the wildcard holds exactly when the text has it somewhere inside |
| `FeatureFlags.SegmentsMatchIff` | camp44/middleware/feature_flags.py:56-71 | matching segment by segment is having the pattern, with the path's own segment in the wildcard's place, as leading segments |
| `FeatureFlags.WildcardIsSubstitution` | camp44/middleware/feature_flags.py:52-75 | a pattern with one whole-segment wildcard blocks a path exactly when some slash-free value in its place gives p with the path equal to p or starting with p + "/" |
| `FeatureFlags.UnderIffLeadingSegments` | camp44/middleware/feature_flags.py:56-71 | a path lies at or below p exactly when the segments of p lead the segments of the path |
| `FeatureFlags.CoveredByApps` | camp44/middleware/feature_flags.py:20-40 | every path blocked by the bulk, entities, integrations or public flag is blocked by the apps flag |
| `FeatureFlags.AppsFlagSubsumes` | camp44/middleware/feature_flags.py:20-75 | with the apps flag set, setting any of those four changes no answer |
| `Accounts.AdminDomainIff` | camp44/crud/user.py:10-18 | an address belongs to an admin domain exactly when some entry of the comma-separated setting, stripped, is not blank and equals what follows the last "@" of the address (or all of it), up to case |
| `Accounts.StripTakesOuterBlanks` | camp44/crud/user.py:10-18 | stripping an entry takes away the blanks at both ends, all of them, and nothing else |
| `AccountInvariants.EveryRequestIsSound` | camp44/crud/user.py:21-166 | every request writes at most one account, keeps it apart from all others, keeps "admin" unique and off demoted users, and takes the role or the activity from an active admin only by another active admin or a cancellation |
| `AccountInvariants.RunKeepsInv` | camp44/api/v1/endpoints/admin.py:131-239 | in every reachable state a demoted user is not an admin, "admin" occurs at most once per user, and addresses, subjects, customer ids and reset tokens are unique |
| `AccountInvariants.AnActiveAdminRemains` | camp44/api/v1/endpoints/admin.py:131-239 | once an active admin exists, every run without a cancellation keeps one |
| `AccountInvariants.CancelKeepsAdminIff` | camp44/api/v1/endpoints/auth.py:444-468 | a cancellation leaves an active admin if and only if there is one without the cancelled customer id |
| `AccountInvariants.CancellationRemovesTheLastAdmin` | camp44/api/v1/endpoints/auth.py:444-468 | the failing run from an empty table: an admin signs in with the identity provider and pays, and no active admin is left when the subscription is cancelled |
| `AccountInvariants.OnlyGrantsMakeAdmins` | camp44/crud/user.py:21-50 | a demoted user, or one whose account the identity provider did not create, is an admin at the end of a run only if an active admin called make-admin for that user in it |
| `AccountInvariants.RegisteredUsersNeedAGrant` | camp44/crud/user.py:117-137 | a user who registered with a password becomes an admin only through such a grant, whatever the address |
| `AccountInvariants.GoneStaysGone` | camp44/api/v1/endpoints/admin.py:219-239 | a deleted user never reappears |
| `AccountHistory.BecomesPromotableIff` | camp44/crud/user.py:21-50 | a user whom no login promotes becomes promotable in a request if and only if the request is a grant by an active admin or a profile update that gives an account of the identity provider a free address in an admin domain |
| `AccountHistory.OnlyGrantsAndMovesMakeAdmins` | camp44/crud/user.py:21-50 | over every run, a user who is not promotable at the start is an admin at the end only through one of those two requests in it |
| `AccountHistory.ProviderUsersNeedAGrantOrAMove` | camp44/crud/user.py:89-114 | a user created by the identity provider with an address outside the admin domains becomes an admin only through one of those two |
| `AccountHistory.AMoveMakesAnAdmin` | camp44/crud/user.py:154-166 | after any such profile update the next login makes the user an admin |
| `AccountHistory.AnUnverifiedAddressIsPromoted` | camp44/api/v1/endpoints/users.py:19-25 | the failing run from an empty table: sign in, change the address, sign in again, and an unverified address has the role |
| `AccountHistory.BecomesActiveIff` | camp44/api/v1/endpoints/auth.py:568-609 | an inactive user becomes active in a request if and only if it is an activation by an active admin or a valid use of the user's reset token, and no other request changes that token |
| `AccountHistory.OnlyActivationsAndOldTokensReactivate` | camp44/api/v1/endpoints/admin.py:131-168 | over every run, a deactivated user is active again only through an activation by an active admin or through a reset token that was outstanding, and unexpired when used, at the deactivation |
| `AccountHistory.OnlyThePasswordSetLogsIn` | camp44/crud/user.py:140-151 | over every run that gives a user no other password, a login with the user's address succeeds if and only if the user is active and the password has the same 72-byte truncation as the one that was set |
| `AccountHistory.DigestStays` | camp44/crud/user.py:89-166 | no request but a reset with the user's token and a profile update with a password changes the digest of an existing user |
| `AccountTokens.AccountRunIsATokenRun` | camp44/models/user.py:45-79 | every run of account requests is, for the token protocol, a run of its environment's steps (adding, activating, deactivating and deleting users) with the same users at the end, and raises no version |
| `AccountTokens.VersionsStay` | camp44/crud/user.py:89-166 | no run of account requests changes a user's token version |
| `AccountTokens.DeactivatedUsersStayOut` | camp44/api/deps.py:28-58 | over every run, a deactivated user gets in again, with an access token or by exchanging a refresh token, only after an activation by an active admin or the use of a reset token that was outstanding |
| `AccountTokens.CancelledCustomersStayOut` | camp44/api/v1/endpoints/auth.py:444-468 | over every run after a cancellation, the user who had the customer id has lost the subscription and gets in only after a reactivation |
| `AccountTokens.DeletedUsersStayOut` | camp44/api/deps.py:28-50 | over every run, no access token of a deleted user is accepted and no refresh token exchanged |
| `AccountEffects.LoginIff` | camp44/crud/user.py:140-151 | a login succeeds if and only if an active account has the address and a digest against which the password verifies; when no account does, nothing changes; else only promotion can happen |
| `AccountEffects.PasskeyLoginIff` | camp44/api/v1/passkey.py:421-427 | a passkey login of an existing user can only promote it |
| `AccountEffects.RegisterIff` | camp44/api/v1/endpoints/auth.py:298-308 | a registration succeeds if and only if no one has the address and the password can be encoded, and adds an active account with nothing but the two |
| `AccountEffects.SetPasswordIff` | camp44/api/v1/endpoints/auth.py:568-609 | a reset succeeds if and only if some account's unexpired token is presented with an encodable password of at least eight characters; it sets the password, spends the token and activates, and nothing else |
| `AccountEffects.ForgotPasswordIff` | camp44/api/v1/endpoints/auth.py:618-681 | an active account with the address gets the drawn token for 86400 seconds; otherwise nothing changes; the reply is the same |
| `AccountEffects.UpdateIff` | camp44/crud/user.py:154-166 | a profile update succeeds if and only if the user exists, the password can be encoded and no other user has the address; what is not given stays as it was |
| `AccountEffects.OidcIff` | camp44/api/v1/oidc.py:71-108 | a callback signs in the account with the subject, else links the one with the address, else adds a verified one; then only promotion can happen |
| `AccountEffects.CancelIff` | camp44/api/v1/endpoints/auth.py:444-468 | a cancellation deactivates whoever has the customer id and takes the subscription, and nothing else; without such a user nothing changes |
| `AccountEffects.CheckoutIff` | camp44/api/v1/endpoints/auth.py:348-442 | exactly when a delivery writes, what each of its commits leaves (for a new user a token for 604800 seconds), and exactly when it is answered with success |
| `AccountEffects.AdminRequestChanges` | camp44/api/v1/endpoints/admin.py:131-239 | what each permitted admin request changes of the one account, and that it changes nothing else |
| `AccountEffects.AdminRequestMovesOneUser` | camp44/api/v1/endpoints/admin.py:131-239 | an admin request is served exactly when permitted; a refusal changes nothing; otherwise the set of active admins gains or loses at most the one user, keeps the acting admin, and no other account is touched |
| `AccountEffects.GrantSticks` | camp44/api/v1/endpoints/admin.py:171-189 | a granted role is held once and later logins leave it alone |
| `AccountEffects.DeletionFreesTheAddress` | camp44/api/v1/endpoints/admin.py:219-239 | a deleted user is gone and its address finds no one |
| `AccountEffects.NewPasswordLogsIn` | camp44/crud/user.py:117-166 | after a registration, a password reset or a profile update that sets a password, a login with the user's address and that password succeeds if the user is active, and the first two leave it active |
| `AccountEffects.ResetTokenIsSpent` | camp44/api/v1/endpoints/auth.py:568-609 | after a successful use no user carries the reset token |
| `AccountEffects.UpdateChangesTheProfileOnly` | camp44/crud/user.py:154-166 | a profile update changes the address and the password at most, the user is found under its address afterwards, a failure changes nothing, and the active admins stay the same |
| `AccountService.AccountService.EnsureAdminRole` | camp44/crud/user.py:21-50 | the role is gained only by a verified, never demoted account with an address in an admin domain, at the end of the roles and only when it is missing; nothing else of the table changes and the table's invariant is kept |
| `AccountService.AccountService.Register` | camp44/api/v1/endpoints/auth.py:298-308 | keeps the invariant and does what the specification says; a refusal changes nothing; on success the new account can become an admin only by a grant, is found by its address, and its owner can log in with the password |
| `AccountService.AccountService.Login` | camp44/api/v1/endpoints/auth.py:241-295 | keeps the invariant; succeeds exactly for an active account with the address whose digest the password verifies against; a password that verifies against none changes nothing, one that does can only promote, before the check that the user is active |
| `AccountService.AccountService.SetPassword` | camp44/api/v1/endpoints/auth.py:568-609 | keeps the invariant; succeeds exactly for an unexpired token and an acceptable password; a refusal changes nothing; on success the token is spent and the user can log in with the new password |
| `AccountService.AccountService.ForgotPassword` | camp44/api/v1/endpoints/auth.py:618-681 | keeps the invariant when the drawn token is new; an active account with the address gets the token for a day, otherwise nothing changes, and the reply never depends on the address |
| `AccountService.AccountService.OidcCallback` | camp44/api/v1/oidc.py:71-108 | keeps the invariant; finds by subject, else links by address, else creates, and then promotes; a refusal changes nothing, and on success someone carries the subject |
| `AccountService.AccountService.Update` | camp44/crud/user.py:154-166 | keeps the invariant and the set of active admins; only the address and the password that are given change, the user is found under its address and, if active, logs in with the new password; a failure changes nothing |
| `AccountService.AccountService.Activate` | camp44/api/v1/endpoints/admin.py:131-145 | served exactly for an active admin and an existing user; the user is active, and joins the active admins exactly if it has the role; a refusal changes nothing |
| `AccountService.AccountService.Deactivate` | camp44/api/v1/endpoints/admin.py:148-168 | served exactly for an active admin and another existing user; exactly that user leaves the active admins and the acting admin stays; a refusal changes nothing |
| `AccountService.AccountService.MakeAdmin` | camp44/api/v1/endpoints/admin.py:171-189 | served exactly for an active admin and an existing user; the user holds the role once, joins the active admins exactly if it is active, and later logins change nothing about it; a refusal changes nothing |
| `AccountService.AccountService.RemoveAdmin` | camp44/api/v1/endpoints/admin.py:192-216 | served exactly for an active admin and another existing user; the user loses the role, keeps its other roles, can get the role back only by a grant, and is the only one to leave the active admins; a refusal changes nothing |
| `AccountService.AccountService.Delete` | camp44/api/v1/endpoints/admin.py:219-239 | served exactly for an active admin and another existing user; the user is gone, its address is free, all others are as before and the acting admin stays; a refusal changes nothing |
| `AccountService.AccountService.Checkout` | camp44/api/v1/endpoints/auth.py:348-442 | keeps the invariant; writes, and answers with success, exactly as `CheckoutIff` says; after a success someone carries the customer id |
| `AccountService.AccountService.Cancel` | camp44/api/v1/endpoints/auth.py:444-468 | keeps the invariant; the user with the customer id, if any, is deactivated and loses its subscription, and nothing else changes |
| `CheckoutConvergence.DeliveryStep` | camp44/api/v1/endpoints/auth.py:348-442 | the first successful delivery leaves exactly one user with the address and the customer id; a failed one leaves the customer unclaimed unless only its reply was lost; other accounts are untouched |
| `CheckoutConvergence.DeliveriesConverge` | camp44/api/v1/endpoints/auth.py:348-442 | any number of deliveries of one event, failing before, between or after the commits: from the first success on exactly one user has the address and it carries the customer id; otherwise it is settled so or no one carries the id, and without a lost reply only a success settles it; other accounts are untouched; no two users share a customer id |
| `CheckoutConvergence.RetryingSettles` | camp44/api/v1/endpoints/auth.py:348-442 | however many deliveries failed, wherever they broke off, one more without a fault leaves exactly one user with the address, carrying the customer id |
| `CheckoutConvergence.NewCustomerHasTokenIff` | camp44/api/v1/endpoints/auth.py:396-442 | after any deliveries to an unknown address, the new account carries the token of the first delivery that got past its first commit, exactly when that one did not break off before its second; if none got that far the table is as before |
| `CheckoutConvergence.ARetryIssuesNoToken` | camp44/api/v1/endpoints/auth.py:381-394 | the failing deliveries: the first breaks off between its commits, the retry is answered with success, and the new user has no token |
| `CheckoutConvergence.SettledSurvivesIff` | camp44/api/v1/endpoints/auth.py:348-442 | a settled event survives a request, whatever it is, if and only if the request does not delete the user, change its address, or give it another customer id |
| `CheckoutConvergence.DeliveriesConvergeAmongOthers` | camp44/api/v1/endpoints/auth.py:348-442 | the same convergence when any other requests fall between the deliveries, as long as none of them takes the settled account away or claims the customer under another address |
| `CheckoutConvergence.RetryingSettlesAmongOthers` | camp44/api/v1/endpoints/auth.py:348-442 | after such a run, too, one more delivery without a fault settles the event |

## Left out

- HTTP routing, HTML forms, redirects, logging, email, the Base44 proxy, object storage, message queues and tracing.
- JWT signing, SHA-256, bcrypt, WebAuthn checks and rate limits: replaced by the assumptions above.
- SQLAlchemy sessions: identity map, flush order and change tracking; the in-place edits of `passkey_credentials` are not modelled.
- Naive and aware datetimes: times are integers.
- Bulk and entity CRUD and the demo booking data: they only add simple frame facts.
- Migrations, row-level security policies, settings validation and secrets.
- Access tokens without a `tv` claim, which `get_current_user` reads as version 0.
- Collisions of randomly drawn values, and the errors the unique indexes would then raise.
- Deletion of a user also deletes the user's apps; only the user and its refresh tokens are modelled.
- Display names, tenant ids and other profile fields that no modelled branch reads.
- AccountService.AccountService.Update: does not say who may call it (the user or an admin); the table's invariant does not depend on it.
- RotationRefinement.ReachableRefreshRotatesOrEmpties: is about whole transactions; with concurrent ones it is false, as `ReplayCanMissASuccessor` shows.
- Account requests run one after another; concurrent admin requests are not modelled.
