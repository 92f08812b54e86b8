# Atmos backend: a Dafny model

This project models the timed limiters, the session and account protocols, the storage ledger and the
meaning-preserving transformations of the Atmos video backend, and proves properties of them.

**How the model is built.** Time is a natural number of milliseconds that never steps backwards for one
key. SQL tables and in-process maps are Dafny maps held by classes whose methods update them; a
database transaction is one atomic method, and where interleaving matters (tokens, gateway sign-ins,
migrations, single flight) the operations are cut at their await points into a state machine whose
theorems speak of every run. The network, random tokens, other users and administrators are parameters
or steps of those machines. A run of the gateway machine is *calm* while no database call has failed, no
sign-in has crashed and no administrator has changed or deleted an account.

| file | what it models |
|---|---|
| `Wrappers`, `Texts` | shared vocabulary: optional values, the clock's unit, separators, decimal numbers |
| `LimiterSpec`, `LimiterBounds`, `LimiterRuns`, `LimiterLaw` | the limiter's reference machine (fresh, counting, blocked), its admission bounds, whole histories over two backends, and the law its answers obey |
| `RedisStore`, `SharedRedis`, `RateLimiter`, `LimiterReplay` | the Redis commands used, the late connection slot, the limiter itself (memory, Lua script, choice per call, sweeper), and the limiter driven by lists of requests |
| `RangeCharge`, `Bandwidth`, `BandwidthLaw`, `BandwidthReplay` | what a media request is charged, the per-address byte budget, the law its verdicts obey, and the middleware driven by requests of many addresses |
| `WriteThrottle` | the progress-write throttle |
| `TokenStore`, `TokenRaces` | tokens, cache and sessions: each operation alone, then all of them interleaved |
| `UniqueUsername`, `GatewayCalls`, `GatewayOutcomes`, `GatewaySignIn`, `ApprovalWindow` | gateway sign-in: the suffix loop, the database calls one at a time, what an undisturbed sign-in ends with, any number of sign-ins interleaved with failures, crashes, people and administrators, and the window before a new account is approved |
| `PercentCoding` | percent coding and the callback's query parser |
| `LikePattern` | LIKE escaping |
| `FeedQueries`, `Feed` | the two-query recommendation feed against one ordered query |
| `Ledger`, `LedgerRuns`, `VideoStore` | what users are billed against what they store |
| `Migrations`, `SingleFlight`, `Playlist` | the migration runner, the cache-stampede guard, dense playlist positions |

**Where the code and its documentation disagree.** The model follows the code. Each case has a lemma with
a concrete input and, where one exists, the exact condition.

- "At most 20 guest accounts per hour" (`backend/src/services/auth_service.rs:318`): any number can be
  opened at one instant, 19 of every 20 calls, because the block length is zero (`NoBlockNoLimit`,
  `GuestLimitOverrun`). `HeldToCapExactly` gives the exact limit for all parameters.
- "Never return an empty feed" (`backend/src/services/recommendation_service.rs:28-29`): `FeedEmptyExactly`.
- "Logout takes effect immediately", "revocations take effect immediately in-process"
  (`backend/src/repositories/user_repo.rs:12-18`, `backend/src/repositories/user_repo.rs:462-479`): true of operations that do
  not overlap (`FindUserByToken`), false when a lookup holds what it read before (`LogoutRace`,
  `RevocationRace`); `CanStillAuthenticate` and `RevocationFinalExactly` give the exact condition.
- "One session per account" (`backend/src/services/auth_service.rs:236-238`): two overlapping logins leave
  two (`LoginRace`); `LoginIsAloneExactly` says when one remains.
- "Gateway users pass without approval" (`backend/src/services/gateway_service.rs:454`): a second
  sign-in between the first one's binding and its approval is refused (`RefusedExactly`,
  `SecondIsRefused`), and a crash there strands the account (`WindowStrands`, `CrashReachesStranded`,
  `StrandedStays`).
- The quota a batch delete gives back: a group of rows whose sizes are all unknown sets the
  uploader's bill to zero (`UnknownSizeErasesBill`, `DeleteKeepsExactly`), and two overlapping deletes of
  one video both give its bytes back (`DeletedTwice`, `LateDeleteKeepsExactly`).
- The percent decoder also takes a plus sign and one hex digit after `%` (`EscapesDecoded`), which section 2.1
  of RFC 3986 does not.

## Model

| member | source | states |
|---|---|---|
| LimiterSpec.StepRespectsSame | backend/src/middleware/rate_limit.rs:188-273 | two stored phases that look alike from now on give the same answer to the next call and stay alike, so an expired entry is as good as none |
| LimiterSpec.AdmittedInsideEpoch | backend/src/middleware/rate_limit.rs:197-273 | from inside an epoch begun at `start`, before `start + n * min(window, block)` at most the epoch's remaining room plus n - 1 whole epochs are admitted |
| LimiterSpec.AdmittedSince | backend/src/middleware/rate_limit.rs:197-273 | the same from the start of the interval, for any phase the key is in |
| LimiterSpec.AdmissionBound | backend/src/middleware/rate_limit.rs:197-273 | any half-open interval of length at most n * min(window, block) admits at most n(M-1) + (M-2) calls of a key |
| LimiterBounds.ConsecutiveBound | backend/src/middleware/rate_limit.rs:215-227 | with any block length, zero included, a run of consecutive calls inside one window length that are all admitted is shorter than 2(M-1) |
| LimiterBounds.BoundIsAttained | backend/src/middleware/rate_limit.rs:197-273 | the bound is attained for every n from 1 up whenever there is a block of at least a second, by concrete call times |
| LimiterBounds.HeldToCapExactly | backend/src/middleware/rate_limit.rs:197-273 | the exact limit: a key is held to `cap` calls per window for all call times if and only if M is at most 1, or there is a block and the cap is at least n(M-1) + (M-2) with n the window over the block, rounded up |
| LimiterBounds.NoBlockNoLimit | backend/src/middleware/rate_limit.rs:253-272 | without a block, k * M calls at one instant admit k * (M-1), for every k |
| LimiterBounds.HeldToMaxExactly | backend/src/services/auth_service.rs:317-330 | "at most M per window" holds for all call times if and only if the parameters satisfy a condition checkable beforehand |
| LimiterBounds.Overrun | backend/src/middleware/rate_limit.rs:253-272 | for every choice of parameters and cap outside the exact limit, call times that beat the cap |
| LimiterBounds.GuestLimitOverrun | backend/src/services/auth_service.rs:317-335 | the guest limiter, 20 per hour with no block, holds a client to no number of accounts at all |
| LimiterRuns.HistoryAnswers | backend/src/middleware/rate_limit.rs:117-141 | the answers of any history of method calls are those of the reference machine on the same calls, as if the sweeper never ran |
| LimiterRuns.BackendsAgree | backend/src/middleware/rate_limit.rs:26-55 | the same checks and resets, with parameters free at each call and sweeps anywhere, get the same answers from memory and from the Redis script |
| LimiterRuns.SplitAdmissions | backend/src/middleware/rate_limit.rs:117-141 | each admitted call was admitted by one backend on the calls that reached it |
| LimiterRuns.FailoverBound | backend/src/middleware/rate_limit.rs:117-141 | however calls are split, with errors that may or may not have counted the call, at most twice the bound is admitted |
| LimiterRuns.FailoverBoundAttained | backend/src/middleware/rate_limit.rs:117-141 | the factor two is needed: for every n, calls split between the backends that reach twice the bound |
| LimiterRuns.HistoryFailoverBound | backend/src/middleware/rate_limit.rs:117-141 | the same for every history the limiter's methods can produce, sweeps included |
| LimiterLaw.MachineInEpoch | backend/src/middleware/rate_limit.rs:188-273 | what the limiter holds before a call is what the law, said of earlier answers alone, gives: the calls of the open window, or the block the first refused of them set |
| LimiterLaw.LawfulAnswers | backend/src/middleware/rate_limit.rs:26-55 | memory and Redis alike answer every list of checks and resets by the law: let through if no call of the epoch was refused and it comes before the epoch's M-th |
| LimiterLaw.BlockKept | backend/src/middleware/rate_limit.rs:188-273 | after the call that reaches the limit at t every call before t + block seconds is refused, whatever calls and parameters come in between |
| LimiterLaw.BlockOver | backend/src/middleware/rate_limit.rs:188-273 | the first call from then on is let through exactly if its M is at least two |
| LimiterLaw.WindowCounts | backend/src/middleware/rate_limit.rs:188-273 | the calls within the whole window of the opening call are counted together |
| LimiterLaw.WindowOver | backend/src/middleware/rate_limit.rs:188-273 | a call at the window's end or later opens a new one |
| LimiterLaw.ResetFrees | backend/src/middleware/rate_limit.rs:275-291 | the call after a reset is one on a fresh key, whatever was counted or blocked |
| RedisStore.Redis.Incr | backend/src/middleware/rate_limit.rs:38-39 | INCR starts an absent or expired key at one without a time to live, and otherwise keeps the time to live |
| RedisStore.Redis.Expire | backend/src/middleware/rate_limit.rs:40-42 | EXPIRE of zero seconds deletes the key, of a missing key does nothing |
| SharedRedis.LateCell.Publish | backend/src/services/redis.rs:49-53 | the first publisher wins and is told so; later ones change nothing |
| SharedRedis.Slot.Install | backend/src/services/redis.rs:121-136 | once the slot resolves to a connection, it resolves to that one for ever; a disabled slot never resolves |
| SharedRedis.FirstPublishedWins | backend/src/services/redis.rs:36-54 | after any list of publish attempts every holder reads the first value |
| RateLimiter.KeysApart | backend/src/middleware/rate_limit.rs:146-185 | counter and block keys of all limiter keys are pairwise distinct |
| RateLimiter.RedisPhaseAges | backend/src/middleware/rate_limit.rs:26-55 | as time passes the two Redis keys stay well formed and their meaning only runs out, as the reference phase does |
| RateLimiter.EvalScript | backend/src/middleware/rate_limit.rs:26-55 | the Lua script moves the phase its two keys stand for like the reference machine, replies accordingly, and touches no other key |
| RateLimiter.RateLimiter.Ages | backend/src/middleware/rate_limit.rs:60-115 | between calls only the clock moves: the limiter stays valid and its phases only run out, which lets histories be chained |
| RateLimiter.RateLimiter.CheckMemory | backend/src/middleware/rate_limit.rs:188-273 | the in-memory check moves its key's phase like the reference machine, gives its answer, and leaves every other entry alone |
| RateLimiter.RateLimiter.CheckRedis | backend/src/middleware/rate_limit.rs:146-185 | a Redis check answers only if the reply arrived, and counts the call exactly if the request did |
| RateLimiter.RateLimiter.CheckWith | backend/src/middleware/rate_limit.rs:117-141 | every call follows the reference machine on the route the slot and the network chose, for its key only |
| RateLimiter.RateLimiter.Reset | backend/src/middleware/rate_limit.rs:275-291 | a reset removes the key from memory, and both its keys from Redis when it is reached |
| RateLimiter.RateLimiter.CleanupExpired | backend/src/middleware/rate_limit.rs:296-309 | the sweeper keeps exactly the entries still in a window or a block, unchanged, and no key can tell it ran |
| LimiterReplay.Replay | backend/src/middleware/rate_limit.rs:117-309 | whatever the limiter is asked of any keys, with late connections, lost replies and sweeps, what one key sees is a history, and the answers it gives are those of the history |
| LimiterReplay.AnswerAlike | backend/src/middleware/rate_limit.rs:26-55 | a limiter without Redis and one whose Redis answers give a key the same answers for the same requests |
| LimiterReplay.ServeWithinBound | backend/src/middleware/rate_limit.rs:117-309 | the limiter itself lets through at most twice the bound in any interval, through any list of requests over any keys |
| LimiterReplay.ServeLawfully | backend/src/middleware/rate_limit.rs:117-291 | the limiter itself, with either backend, answers every list of checks and resets of a key by the law, whatever it is asked of other keys |
| LimiterReplay.ServeBlocking | backend/src/middleware/rate_limit.rs:188-273 | and on its answers: after the one that turns a caller down at t all are refusals until t + block seconds, and the first from then on is as on a fresh key |
| RangeCharge.ChargeInRange | backend/src/middleware/upload_bandwidth.rs:98-150 | every Range header costs between 256 KiB and 8 MiB |
| RangeCharge.FiniteRange | backend/src/middleware/upload_bandwidth.rs:138-150 | `bytes=a-b`, for any two texts the number parser takes, leading zeros and a plus sign included, costs their difference clamped, an inverted one the floor |
| RangeCharge.FiniteRangeCharge | backend/src/middleware/upload_bandwidth.rs:138-150 | the same for the decimal text of any two such numbers |
| RangeCharge.OpenRangeCharge | backend/src/middleware/upload_bandwidth.rs:138-150 | `bytes=a-` costs the open-ended amount |
| RangeCharge.FiniteRangeBytes | backend/src/middleware/upload_bandwidth.rs:14-21 | in numbers: a span between 256 KiB and 4 MiB costs itself, a shorter one 256 KiB, a longer one 4 MiB |
| RangeCharge.OtherCharges | backend/src/middleware/upload_bandwidth.rs:98-150 | a missing header, another unit and a suffix range cost 512 KiB, an open range 8 MiB |
| RangeCharge.NumbersTaken | backend/src/middleware/upload_bandwidth.rs:138-150 | which texts are numbers: those below 2^64, also behind a plus sign or a zero |
| RangeCharge.FirstRangeRead | backend/src/middleware/upload_bandwidth.rs:138-150 | only the first of several ranges is read |
| RangeCharge.SpacesIgnored | backend/src/middleware/upload_bandwidth.rs:138-150 | spaces around it do not matter |
| Bandwidth.IpBandwidth.Cleanup | backend/src/middleware/upload_bandwidth.rs:86-89 | dropping finished buckets changes no later answer for any address |
| Bandwidth.IpBandwidth.Check | backend/src/middleware/upload_bandwidth.rs:52-84 | spends from the address's open second if it has room and otherwise charges nothing; no other address can tell |
| Bandwidth.IpBandwidth.Throttle | backend/src/middleware/upload_bandwidth.rs:98-127 | an unknown peer is neither charged nor refused, any other pays for its Range header, and no other address can tell |
| Bandwidth.SpendRespectsSame | backend/src/middleware/upload_bandwidth.rs:52-84 | buckets that look alike from now on are charged alike |
| Bandwidth.SameServed | backend/src/middleware/upload_bandwidth.rs:52-89 | and serve every later run alike, so sweeps in between change nothing |
| Bandwidth.DrawnBound | backend/src/middleware/upload_bandwidth.rs:52-84 | any n seconds draw at most n + 1 budgets less the least charge |
| Bandwidth.ServedCosts | backend/src/middleware/upload_bandwidth.rs:52-84 | requests served, times the least charge, are within the bytes drawn |
| Bandwidth.AddressBound | backend/src/middleware/upload_bandwidth.rs:14-150 | in any n seconds one address is charged at most (n+1) * 500 MiB less 256 KiB and gets fewer than (n+1) * 2000 requests through, whatever headers it sends |
| BandwidthLaw.LawfulVerdicts | backend/src/middleware/upload_bandwidth.rs:52-84 | a request is let through exactly if the charges let through since its second began, with its own, are within 500 * 1024 * 1024 bytes |
| BandwidthLaw.BudgetsReached | backend/src/middleware/upload_bandwidth.rs:52-84 | both bounds are reached for every n from one up, by requests for one byte |
| BandwidthReplay.Replay | backend/src/middleware/upload_bandwidth.rs:52-127 | through any list of requests from any addresses, sweeps included, each known address gets exactly what the reference budget lets through, as if no sweep and no other address existed |
| BandwidthReplay.ServeLawfully | backend/src/middleware/upload_bandwidth.rs:52-127 | from its start the middleware answers each known address by that law, whatever others send and whenever it sweeps |
| BandwidthReplay.ServeWithinBudget | backend/src/middleware/upload_bandwidth.rs:14-127 | and in any n seconds lets it through at most (n+1) * 500 MiB less 256 KiB and fewer than (n+1) * 2000 requests |
| WriteThrottle.PlaybackService.ShouldWrite | backend/src/services/playback_service.rs:209-227 | writes by the reference rule, on a platform with any earliest instant, and pruning old records is invisible to every key |
| WriteThrottle.PlaybackService.UpdatePlaybackOpts | backend/src/services/playback_service.rs:102-116 | a forced save always happens and leaves the throttle alone |
| WriteThrottle.ReportsCovered | backend/src/services/playback_service.rs:209-227 | every report is written or follows, by less than ten seconds, a write or the record it started from |
| WriteThrottle.CoversExactly | backend/src/services/playback_service.rs:77-81 | "the first report is never throttled", and no later one goes uncovered, exactly on platforms that represent instants 10 001 ms before their clock's zero |
| WriteThrottle.CoversOnLinux | backend/src/services/playback_service.rs:77-81 | Linux, where the shipped image runs, is one of them |
| WriteThrottle.SweepingUnseen | backend/src/services/playback_service.rs:209-227 | pruning, inserted anywhere in a run of reports, changes none of the writes |
| WriteThrottle.WritesApart | backend/src/services/playback_service.rs:102-116 | any two unforced writes for one user and video are ten seconds apart |
| WriteThrottle.SameFromUnseen | backend/src/services/playback_service.rs:209-227 | records that agree from now on lead to the same writes in every later run |
| TokenStore.AuthStore.FindUserByToken | backend/src/repositories/user_repo.rs:360-391 | never accepts a revoked or deleted token, an expired one for less than the TTL, and accepts every token the database does |
| TokenStore.AuthStore.InvalidateCachedTokensForUser | backend/src/repositories/user_repo.rs:46-56 | evicts exactly one user's usable entries |
| TokenStore.AuthStore.Evict | backend/src/repositories/user_repo.rs:27-39 | the cache may drop any entries at any time without becoming unsound |
| TokenStore.AuthStore.RevokeTokensByUserId | backend/src/repositories/user_repo.rs:499-508 | keeps every row, marks the user's unexpired ones revoked and no other, and keeps the cache sound |
| TokenStore.AuthStore.DeleteTokensByUserId | backend/src/repositories/user_repo.rs:518-525 | deletes the user's tokens and keeps the cache sound |
| TokenStore.AuthStore.DeleteUser | backend/src/repositories/user_repo.rs:645-657 | deletes the user with all tokens and keeps the cache sound |
| TokenStore.AuthStore.DeleteToken | backend/src/repositories/user_repo.rs:471-486 | logout deletes just this token, if it is well formed, and keeps the cache sound |
| TokenStore.AuthStore.ResetPasswordAndRevokeTokens | backend/src/repositories/user_repo.rs:713-742 | revokes the tokens of an existing account and does nothing for a missing one |
| TokenStore.AuthStore.MergeGuestIntoUser | backend/src/repositories/user_repo.rs:187-263 | a merged guest's sessions are gone, its row only if it is a guest's, and nothing changes if either account is missing |
| TokenStore.AuthStore.CreateToken | backend/src/repositories/user_repo.rs:333-347 | a token is returned in any case and stored, for seven days, exactly if the account exists |
| TokenStore.AuthStore.Supersede | backend/src/repositories/user_repo.rs:333-508 | the new token is stored for seven days; a non-administrator's other unexpired tokens are revoked; administrators', and everybody's if the revocation fails, are kept as they are, and so are all other users' |
| TokenStore.AuthStore.Login | backend/src/services/auth_service.rs:239-308 | an approved user gets an active token, a non-administrator no other, an administrator keeps the others, and nobody else's change; an unapproved one gets none and nothing changes |
| TokenStore.AuthStore.GatewayIssue | backend/src/services/gateway_service.rs:387-409 | the same for the gateway, except that a failed revocation leaves all tokens as they were |
| TokenStore.AuthStore.UpdateEmail | backend/src/handlers/auth.rs:793-886 | after a change of address the new token is the only active one, administrators included, and nobody else's change |
| TokenStore.AuthStore.FirstSession | backend/src/services/auth_service.rs:323-352 | a new account's first token is its only one, and the single-session rule is kept |
| TokenStore.SingleSessionLasts | backend/src/repositories/user_repo.rs:333-347 | one session per non-administrator stays so as time passes |
| TokenRaces.AlwaysWitnessed | backend/src/repositories/user_repo.rs:360-391 | in every interleaving, whatever is cached or read was valid recently enough |
| TokenRaces.StalenessBound | backend/src/repositories/user_repo.rs:360-391 | a token that authenticates was valid in the database less than TTL plus the longest read-to-insert delay before |
| TokenRaces.GoneStays | backend/src/repositories/user_repo.rs:471-525 | a dead token that is neither cached nor in flight stays so through any step and does not authenticate |
| TokenRaces.NeverAgain | backend/src/repositories/user_repo.rs:471-525 | the same for every later run |
| TokenRaces.CanStillAuthenticate | backend/src/repositories/user_repo.rs:9-28 | a revoked or deleted token can authenticate again if and only if it is cached or some lookup still holds it |
| TokenRaces.RevocationFinalExactly | backend/src/repositories/user_repo.rs:46-56 | a revocation is final once its eviction is done, exactly when no lookup then holds the token |
| TokenRaces.RevocationTakesEffect | backend/src/repositories/user_repo.rs:499-525 | in every interleaving, a token of the account that was valid when its revocation wrote to the database never authenticates once the eviction is done, exactly if no lookup then holds it |
| TokenRaces.LogoutTakesEffect | backend/src/repositories/user_repo.rs:471-486 | a logout ends the token for good exactly if at its delete it is neither cached nor held by a lookup |
| TokenRaces.RevocationEnds | backend/src/repositories/user_repo.rs:499-525 | the database write ends the account's valid tokens and nobody else's |
| TokenRaces.OwnerFollows | backend/src/repositories/user_repo.rs:360-391 | whatever the cache or a lookup holds of a token names the account it was issued to |
| TokenRaces.ValidIsAccepted | backend/src/repositories/user_repo.rs:360-391 | an undisturbed lookup of a valid token answers yes and leaves it cached |
| TokenRaces.LoginIsAloneExactly | backend/src/services/auth_service.rs:281-296 | whatever falls between a login's revoke and its create, one session remains exactly when every token other logins issued to the account in between is by then revoked, deleted or expired |
| TokenRaces.ActiveWasIssued | backend/src/services/auth_service.rs:281-296 | a session a run ends with was there before or was issued in the run |
| TokenRaces.NoneActiveStays | backend/src/repositories/user_repo.rs:669-677 | an account without an active token stays without one until one is issued |
| TokenRaces.LogoutRace | backend/src/repositories/user_repo.rs:471-486 | a lookup between a logout's eviction and its delete leaves the token accepted |
| TokenRaces.RevocationRace | backend/src/repositories/user_repo.rs:499-508 | a lookup that read before the revocation and stores after its eviction leaves the token accepted |
| TokenRaces.LoginRace | backend/src/services/auth_service.rs:281-296 | two logins that both revoke before either creates leave two sessions |
| UniqueUsername.CandidatesDiffer | backend/src/services/gateway_service.rs:555-559 | the thousand candidate names of a base are pairwise distinct |
| UniqueUsername.CandidateTexts | backend/src/services/gateway_service.rs:555-559 | the candidates are the base, base_2 and so on up to base_1000 |
| UniqueUsername.UserTable.CreateUserWithUniqueUsername | backend/src/services/gateway_service.rs:547-587 | takes the first free candidate and changes nothing else; fails exactly when all thousand are taken |
| GatewayCalls.CallKeepsDb | backend/src/services/gateway_service.rs:421-587 | each database call of a sign-in keeps the unique indexes and foreign keys, rebinds no sub, and leaves accounts others are creating alone |
| GatewayCalls.CallKeepsPc | backend/src/services/gateway_service.rs:421-587 | each call leaves the sign-in knowing what its next call needs, such as that its account is bound to its sub |
| GatewayCalls.OthersKeepPc | backend/src/services/gateway_service.rs:421-587 | what a waiting sign-in knows survives any step of anybody else |
| GatewayCalls.ErrorKeepsPc | backend/src/services/gateway_service.rs:474-518 | a failed call, applied or not, leaves the sign-in with what its recovery needs |
| GatewaySignIn.StepKeepsInv | backend/src/services/gateway_service.rs:421-587 | every step of the whole system keeps the invariant |
| GatewaySignIn.SubIsFinal | backend/src/repositories/user_repo.rs:297-310 | an account bound to a sub is never bound to another; without failed calls, crashes and administrators it does not disappear |
| GatewaySignIn.OneAccountPerSub | backend/src/services/gateway_service.rs:411-519 | through any run a sub belongs to at most one account, returned tokens belong to the account holding the sub, and so successful sign-ins for one sub agree |
| GatewayOutcomes.MintStores | backend/src/repositories/user_repo.rs:333-347 | minting for an existing account stores a new usable token of it and changes nothing else |
| GatewayOutcomes.GoStores | backend/src/services/gateway_service.rs:403-408 | so amid everybody else's steps a sign-in that mints for an existing account ends with such a token |
| GatewayOutcomes.HolderSignsIn | backend/src/services/gateway_service.rs:428-437 | undisturbed, the approved holder of the sub gets a usable token; a non-administrator's other sessions end, and nothing else changes |
| GatewayOutcomes.HolderRefused | backend/src/services/gateway_service.rs:391-393 | a holder without approval is refused and nothing changes |
| GatewayOutcomes.AddressSignsIn | backend/src/services/gateway_service.rs:439-451 | somebody whose verified address belongs to an unbound approved account is bound to it and gets a usable token of it |
| GatewayOutcomes.AddressTaken | backend/src/services/gateway_service.rs:521-543 | if that account is bound to another sub the sign-in is refused and nothing changes |
| GatewayOutcomes.NewcomerSignsIn | backend/src/services/gateway_service.rs:454-518 | anybody else gets a new approved account under the first free name, with the address if nobody has it, and a usable token of it; nothing else changes |
| GatewayOutcomes.NewcomerExhausted | backend/src/services/gateway_service.rs:545-587 | unless all thousand names are taken, and then nothing changes |
| GatewaySignIn.NoOrphans | backend/src/services/gateway_service.rs:472-492 | when all sign-ins have ended without a failed call or crash, every account they created is bound, and approved if no administrator stepped in |
| GatewaySignIn.RacedFindsOwner | backend/src/services/gateway_service.rs:521-543 | "gateway sub conflict" is answered exactly when nobody holds the sub, which in a calm run never happens to a sign-in that lost a race |
| GatewaySignIn.NoTakeover | backend/src/services/gateway_service.rs:411-421 | a local account is bound only by a sign-in with a verified address that was read in the account's row, and only if it had no sub |
| GatewaySignIn.ExhaustedMeansTaken | backend/src/services/gateway_service.rs:545-587 | "username exhausted" under interference means that every candidate was taken at some time |
| ApprovalWindow.RefusedExactly | backend/src/services/gateway_service.rs:454-497 | with failed calls and crashes but no administrator, a sign-in for an account a sign-in created is refused as unapproved exactly while another stands between binding and approval or is removing the account, or the account is stranded; in a calm run exactly in the first case |
| ApprovalWindow.WindowStrands | backend/src/services/gateway_service.rs:475-497 | a crash, or a failed call that did not take effect, in that window strands the account |
| ApprovalWindow.StrandedExactly | backend/src/services/gateway_service.rs:475-497 | without administrators an account becomes stranded exactly by a failure that takes away the sign-in in charge of it while it is bound and unapproved |
| ApprovalWindow.CrashReachesStranded | backend/src/services/gateway_service.rs:475-497 | from empty tables, a first sign-in and one crash strand its account |
| ApprovalWindow.StrandedStays | backend/src/services/gateway_service.rs:494-497 | a stranded account is refused through any run in which no administrator touches it |
| ApprovalWindow.SecondIsRefused | backend/src/services/gateway_service.rs:494-497 | from empty tables, two first sign-ins of one person can end with the second refused |
| PercentCoding.UrlEncode | backend/src/services/gateway_service.rs:603-614 | the loop computes the encoding function |
| PercentCoding.UrlDecode | backend/src/services/gateway_service.rs:616-643 | the loop terminates and computes the decoding function |
| PercentCoding.DecodeEncodedFront | backend/src/services/gateway_service.rs:603-643 | decoding undoes encoding also in front of any other text |
| PercentCoding.RoundTrip | backend/src/services/gateway_service.rs:603-643 | decoding undoes encoding on every byte string |
| PercentCoding.EncodeInjective | backend/src/services/gateway_service.rs:603-614 | no two byte strings share an encoding |
| PercentCoding.EncodedPlain | backend/src/services/gateway_service.rs:603-614 | an encoding contains no `&`, `=` or `+` |
| PercentCoding.EscapesDecoded | backend/src/services/gateway_service.rs:620-631 | exactly which triplets starting with `%` decode to one byte |
| PercentCoding.EscapeDecodes | backend/src/services/gateway_service.rs:622-631 | an escape spelled in either case decodes to its byte, in front of any text |
| PercentCoding.PlusEscapeDecodes | backend/src/services/gateway_service.rs:620-631 | so does a plus sign and one hex digit |
| PercentCoding.PlainDecodes | backend/src/services/gateway_service.rs:632-640 | a plus sign decodes to a space, any other byte but the percent sign to itself |
| PercentCoding.PercentStays | backend/src/services/gateway_service.rs:627-630 | a percent sign that starts no escape stands for itself |
| PercentCoding.BarePieceSkipped | backend/src/services/gateway_service.rs:197-203 | a piece of the query without `=` is skipped |
| PercentCoding.FirstEqualsSplits | backend/src/services/gateway_service.rs:197-203 | a piece is split at its first `=`, and a later pair replaces an earlier one of its key |
| PercentCoding.QueryParses | backend/src/services/gateway_service.rs:197-203 | parsing a rendered list of pairs inserts these pairs in order |
| PercentCoding.CallbackRecovers | backend/src/services/gateway_service.rs:197-203 | for distinct keys the callback's map holds exactly the pairs that were sent |
| LikePattern.EscapeLikePattern | backend/src/services/search_service.rs:239-248 | the loop computes the escaping function |
| LikePattern.EscapedFront | backend/src/services/search_service.rs:239-248 | an escaped text in front of a pattern consumes exactly itself |
| LikePattern.MatchesExactly | backend/src/services/search_service.rs:239-248 | the escaped input matches exactly the input |
| LikePattern.MatchesPrefix | backend/src/repositories/search_repo.rs:252 | with `%` appended it matches exactly the strings starting with the input |
| LikePattern.MatchesSubstring | backend/src/services/search_service.rs:255-257 | the trigram pattern is well formed and matches exactly the strings containing the input |
| LikePattern.ChainedIsEscaped | backend/src/repositories/user_repo.rs:602-607 | the three chained replaces build the pattern of the one-pass loop |
| LikePattern.CaseInsensitiveSubstring | backend/src/services/search_service.rs:255-257 | up to case, the pattern finds exactly the texts containing the input |
| LikePattern.CaseInsensitivePrefix | backend/src/repositories/search_repo.rs:252 | up to case, the prefix pattern finds exactly the texts starting with it |
| FeedQueries.ListingUnique | backend/src/repositories/recommendation_repo.rs:81-119 | the ORDER BY of the feed queries determines the list |
| FeedQueries.ListingExists | backend/src/repositories/recommendation_repo.rs:81-119 | and every selection keyed by id has such a list |
| Feed.OrderedSplits | backend/src/repositories/recommendation_repo.rs:81-170 | a listing with watched categories first is two plain listings, one after the other |
| Feed.ExclusionRedundant | backend/src/repositories/recommendation_repo.rs:129-170 | excluding the preferred ids changes nothing in the fill query |
| Feed.TwoPhaseIsOneQuery | backend/src/services/recommendation_service.rs:56-117 | unless the start is cold, the two queries together are the first rows of one ordered query |
| Feed.FeedShape | backend/src/services/recommendation_service.rs:56-117 | ids are distinct, scores never rise, and the length is between one and the clamped limit |
| Feed.FeedContents | backend/src/services/recommendation_service.rs:56-117 | every item is local, unseen, not the excluded video, in a category and the owner's if asked, scored 2 or 1 by category, in order of score and views; one is missing only if the feed is full of videos that outrank it |
| Feed.ColdFeed | backend/src/services/recommendation_service.rs:46-72 | on a cold start the feed is the trending page |
| Feed.FeedEmptyExactly | backend/src/services/recommendation_service.rs:28-117 | the feed is non-empty if and only if something unseen is in a watched category or something trends |
| Feed.EmptyFeedExample | backend/src/services/recommendation_service.rs:28-29 | a concrete table and history with an empty feed |
| Ledger.SaveKeepsBills | backend/src/repositories/video_repo.rs:992-1074 | a billed save keeps bills within what is stored, and is exact if and only if they were |
| Ledger.UnbilledSaveKeepsBills | backend/src/repositories/video_repo.rs:942-974 | an unbilled save never overbills |
| Ledger.DeletedBytes | backend/src/repositories/video_repo.rs:894-904 | a user's stored bytes split into what a batch deletes and what it leaves |
| Ledger.DeleteNeverOverbills | backend/src/repositories/video_repo.rs:864-910 | a batch delete never leaves anybody overbilled and raises no bill |
| Ledger.DeleteKeepsExactly | backend/src/repositories/video_repo.rs:890-904 | from exact bills it keeps them exact if and only if every touched uploader had a known size in the batch or owed nothing |
| Ledger.ClampNeverActs | backend/src/repositories/video_repo.rs:890-904 | with known sizes the bill drops by exactly what was deleted |
| Ledger.UnknownSizeErasesBill | backend/src/repositories/video_repo.rs:890-904 | a concrete delete after which 100 stored bytes are billed as none |
| Ledger.LateDeleteNeverOverbills | backend/src/repositories/video_repo.rs:890-904 | a delete whose sums were read before other deletes committed never overbills |
| Ledger.LateDeleteKeepsExactly | backend/src/repositories/video_repo.rs:890-904 | from exact bills it keeps them exact if and only if, for every uploader it bills, nothing of the batch was deleted in between or nothing is left |
| Ledger.DeletedTwice | backend/src/repositories/video_repo.rs:890-904 | two overlapping deletes of one 5-byte video leave 10 stored bytes billed as 5 |
| Ledger.MergeNeverOverbillsExactly | backend/src/repositories/user_repo.rs:187-263 | moving videos between accounts keeps the bills safe if and only if the source is a guest or owes nothing |
| Ledger.ReownedBytes | backend/src/repositories/user_repo.rs:208-213 | a merge gives the target the bytes of both accounts, leaves the source none, and changes nobody else's |
| LedgerRuns.RunNeverOverbills | backend/src/repositories/video_repo.rs:864-1074 | through any run of saves, deletes, deletes with early sums and guest merges nobody is overbilled, and under one positive quota no bill passes it |
| LedgerRuns.RunStaysExact | backend/src/repositories/video_repo.rs:864-1074 | through any run of quota saves of known size and deletes every bill is exactly what is stored |
| VideoStore.VideoRepository.SaveLocalVideoWithQuota | backend/src/repositories/video_repo.rs:992-1074 | each outcome exactly by its cause, so a save with none succeeds; the whole new state, exactness kept, and the quota respected |
| VideoStore.VideoRepository.SaveLocalVideo | backend/src/repositories/video_repo.rs:942-974 | stores the row or fails on a missing uploader or a duplicate hash; bills nobody |
| VideoStore.VideoRepository.ReclaimQuota | backend/src/repositories/video_repo.rs:890-904 | the grouped update gives every uploader the bill the ledger says, null sums included |
| VideoStore.VideoRepository.BatchDeleteVideos | backend/src/repositories/video_repo.rs:864-910 | deletes exactly the named rows and counts them; each bill drops by the known bytes deleted, to zero at most, or to zero if none of the user's deleted sizes was known |
| VideoStore.VideoRepository.MergeGuestIntoUser | backend/src/repositories/user_repo.rs:187-263 | fails exactly if an account is missing or both hold a video of the same content; else the target owns both accounts' videos and bytes, no id, size or hash and nobody else's video changes, and bills stay safe exactly when the source is a guest or owes nothing |
| Migrations.CheckPrefixes | backend/src/db.rs:82-116 | start-up refuses exactly when two files share a number, and names the first such pair |
| Migrations.PrefixBefore | backend/src/db.rs:102-105 | a file's number is what stands before its first underscore |
| Migrations.StepKeepsInv | backend/src/db.rs:168-256 | every step of every instance keeps the invariant and loses no committed effect |
| Migrations.MigrationSafety | backend/src/db.rs:168-256 | however many instances start and wherever they crash, committed effects are a prefix of the files, each once and exactly those recorded; at most one instance migrates; a finished one has everything |
| Migrations.LoneInstanceFinishes | backend/src/db.rs:168-256 | an instance nobody disturbs finishes, from any number of files applied, and then all are |
| Migrations.NoteSucceeds | backend/src/db.rs:220-245 | recording a version never meets a version already recorded |
| SingleFlight.OneLoaderAtATime | backend/src/handlers/recommendations.rs:49-85 | while the lock entry is not evicted at most one request is loading |
| SingleFlight.SingleLoad | backend/src/handlers/recommendations.rs:63-85 | while neither result nor lock entry is evicted at most one load succeeds and every successful request returns its value |
| SingleFlight.LoadServesAll | backend/src/handlers/recommendations.rs:63-85 | a request whose load succeeds answers with its value, and without evictions nobody loads again and whoever looks or rechecks gets the same value |
| SingleFlight.LoneRequestServed | backend/src/handlers/recommendations.rs:63-85 | a request nobody disturbs is served, with what is cached or with what it loads |
| SingleFlight.EvictedLockAdmitsSecondLoader | backend/src/handlers/recommendations.rs:49-58 | once the lock entry is evicted during a load, a second load can run beside it |
| Playlist.RankIsIndex | backend/src/repositories/playlist_repo.rs:132-162 | the row number of a row is its index in the playlist |
| Playlist.RenumberingDense | backend/src/repositories/playlist_repo.rs:132-162 | renumbering closes every gap and keeps the order |
| Playlist.DenseTop | backend/src/repositories/playlist_repo.rs:99-130 | in a dense playlist the largest position is one less than the length |
| Playlist.PlaylistItems.AddVideo | backend/src/repositories/playlist_repo.rs:99-130 | appends, or does nothing if the video is there; density and distinct positions are kept |
| Playlist.PlaylistItems.RemoveVideo | backend/src/repositories/playlist_repo.rs:132-162 | deletes and keeps the order of the rest; an effective remove leaves positions exactly 0 to n-1, whatever gaps there were |
| Playlist.PlaylistItems.CascadeDelete | backend/migrations/018_add_playlists.sql:19 | a video deleted elsewhere leaves a gap but positions stay distinct |

## Left out

- Clocks: one non-decreasing millisecond clock; the model does not capture that in-memory limiter times are read before the map lock, nor clock drift between Redis and the server.
- Redis: key expiry is idealised to the millisecond and the script is atomic; the network appears as three outcomes (answered, request lost, reply lost).
- Reconnection backoff (`retry_connect_until_ready`): only its effect, a publish into the slot at any time, is modelled.
- Cache capacity and eviction order (moka): eviction is a step that may happen at any time in the interleaved models, and the method `Evict` of `AuthStore`.
- WriteThrottle: map keys are one string per user and video; the stored playback row is not modelled. The throttle's creation of a record that is already too old may be impossible on a platform whose earliest instant is its clock's zero; no such platform is shipped.
- PercentCoding: works on bytes; the decoder's final lossy UTF-8 conversion is not modelled.
- LikePattern: case folding is any character map that keeps the three special characters and produces none; folds that change a string's length are not covered.
- FeedQueries: each feed is computed from one snapshot of the tables; the watched categories and seen ids are inputs.
- Ledger: file sizes are assumed non-negative; a batch delete's early sums are modelled for rows that were only deleted meanwhile, not for rows that changed uploader or joined the batch between its update and its delete; `increment_storage_used` and `decrement_storage_used` are left out because their callers are not part of this model.
- Migrations: the sorted list of discovered files is an input; sorting and reading the directory are not modelled.
- TokenStore.AuthStore.FirstSession: stands for guest creation, the first administrator's registration and a new gateway user, in which the account and its token are made one after the other.
- Token hashing, random tokens, password hashes and PKCE digests are opaque fresh or distinct values; hash collisions are not considered.
- The gateway's pending and exchange maps, the media authentication cache, cookies and HTTP routing.
- GatewaySignIn: the cleaned base username is an input; a password login of an account a sign-in created is taken to need its address first, since its password is random; changing an address is taken to need a usable token.
- Token expiry in the gateway model: tokens there are only revoked or deleted.
- `reorder_videos`: its VALUES list is built without separators, and no route of the modelled code reaches it.
- Full-text ranking, trigram similarity, EXIF, validators, mail and metrics: no protocol or invariant of their own.
