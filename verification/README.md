# Guardian, modelled and verified in Dafny

Guardian coordinates Miden multisig accounts: clients propose transactions, cosigners
approve them, and a server keeps each account's state and acknowledges deltas. This
project models the parts of it that are hardest to get right and proves what they are
for, for every input, every interleaving and every reachable state.
`dafny verify dfyconfig.toml` checks the whole project.

| file | models |
|---|---|
| `Timestamps.dfy` | the lock-free timestamp loop, as a method and as a transition system of any number of interleaved calls |
| `SessionSlot.dfy`, `ReplayRetry.dfy`, `Sessions.dfy` | the session slot clients share, one client's retry loop, and all clients of a slot as a transition system |
| `ReplayFloors.dfy` | the server's replay floors and their sweep |
| `DeltaStatus.dfy` | the status of a delta, its counters, and stale worker writes against client requests |
| `CandidateQueue.dfy`, `CandidateRuns.dfy`, `CandidateHistory.dfy` | an account's candidate queue, what every interleaving of clients and the worker keeps of it, and the canonical history |
| `Signers.dfy`, `SignerRuns.dfy`, `SignerProposals.dfy` | per-signer schemes: writer, reader, registration, storage, runs of updates, and the builders of signer and threshold proposals |
| `Signatures.dfy`, `Approvals.dfy`, `Procedures.dfy`, `ProcedureThresholds.dfy`, `Execution.dfy` | validating signatures, collecting approvals, procedure roots, overrides and the gate before execution |
| `Words.dfy`, `Decimal.dfy`, `Budget.dfy`, `Payload.dfy`, `Export.dfy` | hex words, decimals, durations, proposal payloads and offline documents |
| `Seeding.dfy` | sharding, scheme plan and seed assignment of the production benchmark |

Code that updates state in place is a class or a method with its loop, proved against a
function of the old state; the theorems are about those functions. Protocols are
transition systems whose events are lock sections, exchanges, sends and answers; clocks,
answers, failures and the interleaving are arbitrary. Integers of fixed width wrap,
saturate or truncate where the code does.

What the theorems assume is in their `requires`: fresh session keys are keys not
generated before, state commitments identify states (`Network.Binding`), account ids
read back from their own hex (`AccountIds.Codec`), and the server computed a queued
delta's post-state itself when it acknowledged it (`CandidateQueue.Sound`).

## Where code and documentation differ

- Sessions are documented never to sign for a wallet that did not grant them. The client
  compares the commitment the server echoed, so this holds exactly while the server
  echoes the granting wallet (`HonestEchoesBindTheGrantor`, `FalseEchoSignsForAnother`).
- Neither that rule nor the expiry margin applies to logouts: one is signed with whatever
  session the slot holds, for any wallet and after expiry
  (`LogoutKeepsTheRuleExactlyWhen`, `LogoutSignsForAnother`).
- Timestamps are documented to be unique per client. They are, below `i64::MAX`
  (`EveryInterleavingIsSequential`, `CeilingRepeats`).
- Floors are documented to stop replays. The skew check subtracts in 64 bits, so a
  difference of 2^63 passes (`WindowIsExact`), and a session's request with such a
  timestamp is accepted again after a sweep (`WrappedTimestampIsAcceptedTwice`). With
  representable differences and a bounded lag no request is
  (`NoSessionRequestIsAcceptedTwice`); a wallet's never is (`NoWalletRequestIsAcceptedTwice`).
- An approver list is read back up to its first zero word (`ReadBack`). A configuration or
  an update that names the zero word first passes validation and leaves a reader without
  approvers (`ConfigCanHideEveryone`, `UpdateCanHideEveryone`), and nothing else does
  (`StaysNonEmpty`).
- An approval whose signer is written with `0X` would be matched and then fail the whole
  collection (`UpperPrefixStopsTheCollection`). Proposals and documents refuse such signers
  when they are read, so the branch is dead for both (`ValidatedSignersDecode`).
- A payload signed twice by one signer can be built and not be read
  (`SigningTwiceIsUnreadable`).
- Offline documents keep signers apart as strings, with and without `0x`
  (`SameWordOnlyByPrefix`); without it a signature makes a document ready and does not
  count when it is executed (`ReadyMayBeRefused`).

## Model

| member | source | states |
|---|---|---|
| Words.WordFromHex | crates/miden-multisig-client/src/keystore.rs:49-70 | Succeeds exactly on 64 hex digits, optionally after `0x`, whose four little-endian limbs are below the field modulus; returns those limbs; the error says which of the three failed first. |
| Words.ParseOfWordHex | crates/miden-multisig-client/src/transaction/mod.rs:204-210 | Every word reads back from its hex form. |
| Words.WordHexOfParse | crates/miden-multisig-client/src/keystore.rs:14-25 | Re-encoding what was read gives the digits back, in lower case after `0x`. |
| Words.FoldedReads | crates/miden-multisig-client/src/keystore.rs:14-16 | A string that equals a word's hex up to case spells that word, except under the prefix `0X`, which is refused as invalid hex. |
| Words.KeysIdentifyWords | crates/miden-multisig-client/src/proposal.rs:458-461 | Prefixed, case-folded strings are equal exactly when the words are. |
| Words.SignerCommitments | crates/miden-multisig-client/src/proposal.rs:454-471 | Accepts a list exactly when every string spells a word and the words are pairwise distinct, and returns the words in order; otherwise names the first string that spells none or repeats an earlier word. |
| Timestamps.MintAdvances | crates/client/src/client.rs:1024 | A minted value is at least the clock, never below the previous value, and above it exactly when that is below `i64::MAX`. |
| Timestamps.AtomicI64.CompareExchangeWeak | crates/client/src/client.rs:1025-1030 | Exchanges exactly when the cell holds the expected value and the failure is not spurious; otherwise reports the cell and leaves it. |
| Timestamps.NextMonotonicTimestamp | crates/client/src/client.rs:1021-1035 | Under any interference and spurious failures the loop returns at the first attempt that finds the cell unchanged, with the value minted from what it found there. |
| Timestamps.StepKeepsInv | crates/client/src/client.rs:1021-1035 | Every atomic step of any number of interleaved calls keeps the returned values equal to the sequential ones. |
| Timestamps.EveryInterleavingIsSequential | crates/client/src/client.rs:1021-1035 | In every interleaving of any number of calls, values follow exchange order, are at least each caller's clock, respect the real-time order of calls, and strictly increase exactly while they are below `i64::MAX`. |
| Timestamps.CeilingRepeats | crates/client/src/client.rs:1024 | At `i64::MAX` two calls return the same value. |
| SessionSlot.SharedSlot.Info | crates/client/src/client.rs:96-102 | Returns the session exactly when one is registered and more than 30 seconds from expiry. |
| SessionSlot.SharedSlot.ClearIf | crates/client/src/client.rs:109-114 | Empties the slot exactly when it holds a session the caller says has ended. |
| SessionSlot.SharedSlot.Clear | crates/client/src/client.rs:118-120 | Removes only the session with this key; a newer one stays. |
| SessionSlot.SharedSlot.Discard | crates/client/src/client.rs:518-522 | Removes the session exactly when it is within 30 seconds of expiry. |
| ReplayRetry.GuardianClient.AddAuthMetadata | crates/client/src/client.rs:194-235 | Mints a fresh timestamp and signs with the active session where the route allows one, else with the wallet. |
| ReplayRetry.GuardianClient.SendOnce | crates/client/src/client.rs:328-345 | One attempt: mint, sign, send, and drop the session that signed when the server rejects it. |
| ReplayRetry.GuardianClient.SendWithReplayRetryAs | crates/client/src/client.rs:316-354 | The retry loop computes `Attempts` of the old state, the clock readings and the answers. |
| ReplayRetry.GuardianClient.PushDelta | crates/client/src/client.rs:591-627 | Computes `Push`: a session-signed call, then a wallet-signed one; the delta is returned exactly when the last request was accepted with its success flag, else the server's refusal or error. |
| ReplayRetry.AttemptsFollowAnswers | crates/client/src/client.rs:316-354 | For every sequence of answers one to three requests go out, another one exactly after a replay rejection with retries left; any other answer ends the call. |
| ReplayRetry.AttemptsAreWellSent | crates/client/src/client.rs:316-354 | All requests of a call carry one message, timestamps that grow and reach the clock, and the signature that is due: the active session's, else the wallet's. |
| ReplayRetry.RejectedSessionIsDropped | crates/client/src/client.rs:337-345 | A session whose request was answered as rejected is out of the slot when the call returns. |
| ReplayRetry.PushGuarantees | crates/client/src/client.rs:591-627 | A push sends at most six requests with one message and growing timestamps, and goes to the wallet exactly after `wallet_signature_required`. |
| Sessions.StepKeepsKeys | crates/client/src/client.rs:363-427 | Every event of every client keeps generated, pending and held session keys apart; a key that left the slot does not come back in a step. |
| Sessions.KeyNeverReturns | crates/client/src/client.rs:92-121 | In every interleaving a session key occupies the shared slot for at most one interval. |
| Sessions.OnlyItsOwnEventsEndASession | crates/client/src/client.rs:449-522 | A session leaves the slot if and only if it expired, a request it signed was rejected, a revocation that captured its key succeeded, or a new grant replaced it. |
| Sessions.NewUsesAreOfTheSlot | crates/client/src/client.rs:194-217 | A session signature is made with the session then in the slot. |
| Sessions.SlotHoldsTheSessionInForce | crates/client/src/client.rs:92-121 | In every run the slot holds a session exactly when some earlier answer registered it and no event since ended it. |
| Sessions.SignsWithASessionExactlyWhen | crates/client/src/client.rs:194-217 | In every run a request is signed with a session exactly when its route takes one and that session was registered, has not ended since, is more than 30 seconds from expiry and names the client's wallet. |
| Sessions.EveryUseIsRight | crates/client/src/client.rs:527-538 | In every run each session signature is by a key the slot held, and on a request the session is more than 30 seconds from expiry and registered for the signing client's wallet; each client's signature timestamps grow. Logouts keep the rule exactly as `LogoutKeepsTheRuleExactlyWhen` says. |
| Sessions.LogoutKeepsTheRuleExactlyWhen | crates/client/src/client.rs:449-462 | A logout is signed exactly when the slot holds a session, and keeps the rule for requests exactly when the client could have signed a request with it. |
| Sessions.LogoutSignsForAnother | crates/client/src/client.rs:449-462 | A reachable run with honest echoes in which a client of another wallet signs a logout with an expired session. |
| Sessions.NobodySignsAfterTheEnd | crates/client/src/client.rs:337-345 | Once a session left the slot nobody signs with its key again, however late answers arrive. |
| Sessions.CallSendsAtMostThree | crates/client/src/client.rs:316-354 | In every run a call signs at most three requests, however clients and answers interleave. |
| Sessions.HonestEchoesBindTheGrantor | crates/client/src/client.rs:400-427 | While the server echoes the commitment of the wallet that signed the grant, every request signature is by a session granted by the signing client's own wallet. |
| Sessions.FalseEchoSignsForAnother | crates/client/src/client.rs:415-427 | And only then: after any other echo, a client whose wallet it names signs with a session that wallet never granted. |
| Sessions.FalseEchoIsReachable | crates/client/src/client.rs:415-427 | A run from the start that gets there with one false echo. |
| ReplayFloors.WindowIsExact | crates/server/src/services/mod.rs:393-416 | For every clock and timestamp: which differences pass the skew check in wrapping 64-bit arithmetic; for representable ones it is exactly the five-minute window. |
| ReplayFloors.AuthState.UpdateLastAuthTimestampCas | crates/server/src/metadata/filesystem.rs:451-502 | Fails exactly for an unknown account or when the write fails; accepts exactly timestamps above the signer's and the legacy floor and raises the floor; otherwise leaves every floor as it was. |
| ReplayFloors.AuthState.PurgeSessionFloors | crates/server/src/metadata/filesystem.rs:504-528 | Removes exactly the session floors below the cutoff and counts them; fails, and rolls back, exactly when there are some and the write fails. |
| ReplayFloors.OtherFloorsOnlyRise | crates/server/src/metadata/filesystem.rs:504-518 | In every run of requests and sweeps a wallet or legacy floor, once set, is never lost or lowered. |
| ReplayFloors.StepKeepsInv | crates/server/src/builder/handle.rs:749-790 | Requests and sweeps keep every accepted timestamp of a key below its floor, or too old to be offered again; of a session's request this asks that it is timely, of any other event nothing. |
| ReplayFloors.NoWalletRequestIsAcceptedTwice | crates/server/src/services/mod.rs:421-452 | In every run, with any clocks and timestamps, accepted timestamps of a wallet on an account strictly grow: no request is accepted twice. |
| ReplayFloors.NoSessionRequestIsAcceptedTwice | crates/server/src/services/mod.rs:421-452 | The same for a session although its floors are swept, in every run in which its own requests have a representable difference to the clock and a clock that lags the latest sweep by at most the session lifetime plus the skew; every other event is arbitrary. |
| ReplayFloors.LongerLagAcceptsTwice | crates/server/src/session.rs:294-297 | The lag bound is tight for every lifetime: one millisecond more and a request is accepted twice. |
| ReplayFloors.WrappedTimestampIsAcceptedTwice | crates/server/src/services/mod.rs:393-416 | So is representability: for every clock reading the timestamp 2^63 below it passes the skew check, and after a sweep at the same moment it passes again. |
| ReplayFloors.HigherTimestampsAreAccepted | crates/server/src/services/mod.rs:421-452 | A request in the window and above the account's initial floors and all earlier accepted timestamps of its signer is accepted, whatever happened before. |
| DeltaStatus.ApplyAllCounts | crates/server/src/delta_object.rs:316-377 | After any transitions the three counters count, modulo 2^32, all retries, the divergences since the last reset and the confirmations since the last divergence. |
| DeltaStatus.ApplyAllRequests | crates/server/src/delta_object.rs:203-220 | The request time is the one the status started with, else the first requested. |
| DeltaStatus.CandidateCountersMean | crates/server/src/delta_object.rs:203-377 | Both together for every sequence of transitions of a candidate; its timestamp never changes. |
| DeltaStatus.SettledIsFixed | crates/server/src/delta_object.rs:203-377 | Every other status is a fixed point of every transition and of the merge. |
| DeltaStatus.StepKeepsRequest | crates/server/src/delta_object.rs:229-249 | Every step keeps each outstanding snapshot without a request or with the recorded one, and the recorded one as it is. |
| DeltaStatus.FirstRequestIsNeverLost | crates/server/src/delta_object.rs:222-249 | However many workers write back stale snapshots among client requests, the first recorded abandon request is never lost or changed while the row is a candidate, and a settled row stays settled. |
| CandidateQueue.FirstUnchainedCandidate | crates/server/src/storage/mod.rs:393-405 | Finds none exactly when the whole queue chains from the stored commitment; else the first index at which it no longer does. |
| CandidateQueue.GateIsExact | crates/server/src/storage/mod.rs:474-501 | Admits exactly what leaves a chained queue within its depth and in nonce order; reports a mismatch exactly when a chained queue with room knows no state of that commitment. |
| CandidateRuns.SubmissionTakesEffect | crates/server/src/storage/filesystem.rs:1215-1310 | A submission lands exactly when the account is open, the gate admits it and no row but a parked one has its nonce; then it is the candidate at its nonce and the new tail, and a parked row it replaces is archived if archiving is on; else nothing changes. |
| CandidateRuns.RequestTakesEffect | crates/server/src/storage/filesystem.rs:1134-1177 | An abandon request on the named candidate is recorded unless an earlier one is; its counters and every other field, every other row and the rest of the account stay as they were. |
| CandidateRuns.SettlingTakesEffect | crates/server/src/storage/filesystem.rs:1426-1473 | A final status lands unless an execution owns the row or it would park a row whose abandon was requested. |
| CandidateRuns.CounterTakesEffect | crates/server/src/jobs/canonicalization/processor.rs:1402-1438 | A counter write lands with the status computed from the snapshot and the request the row carries. |
| CandidateRuns.DropTakesEffect | crates/server/src/storage/filesystem.rs:1380-1424 | A discarded candidate is gone unless an execution owns it, an expired retained row unless it is retained no more. |
| CandidateRuns.PromotesExactlyWhen | crates/server/src/storage/filesystem.rs:1312-1378 | A promotion succeeds exactly when the row still is of the kind that was read and the state sits at its base, or already at its target for a row that is not archived; then the row is canonical, the state commits to its post-state and the archive loses exactly the restored copies; else nothing changes. |
| CandidateRuns.PromotesTheVerifiedRow | crates/server/src/storage/mod.rs:503-549 | What is stamped canonical is the delta the worker verified, not one that took its nonce meanwhile; an archived row takes the place of a parked or absent one only. |
| CandidateRuns.RestoredKeeps | crates/server/src/storage/filesystem.rs:253-319 | Restoring an archived delta removes exactly its own copies from the archive. |
| CandidateRuns.PrunedHolds | crates/server/src/storage/filesystem.rs:938-957 | Pruning the archive leaves exactly the rows within their retention. |
| CandidateRuns.StepKeeps | crates/server/src/jobs/canonicalization/processor.rs:510-760 | Every lock section of clients and worker keeps the store well formed, every stored delta consistent with the network, and each of any number of snapshots the worker holds consistent with its row: a candidate is still there with at most a newer request, a parked row of that kind is the one read, an archived row is still archived or its nonce is settled for good. |
| CandidateRuns.EveryRowFollowsTheLifecycle | crates/server/src/jobs/canonicalization/processor.rs:962-1148 | In every run, with any number of snapshots outstanding and acted on in any order, every row moves only along the lifecycle: parked only without a request, abandoned only with one, promoted as the same delta, restored only from the archive. |
| CandidateRuns.CanonicalForever | crates/server/src/storage/filesystem.rs:1267-1303 | In every run a canonical row is never changed or removed. |
| CandidateRuns.RequestIsKept | crates/server/src/storage/filesystem.rs:1438-1470 | In every run a row that stays a candidate stays the same delta and keeps its first abandon request. |
| CandidateHistory.StateIsThePathReplayed | crates/server/src/storage/filesystem.rs:1340-1360 | In every run the stored state is the first state with the promoted deltas applied in order, and their commitments chain from the first to the stored one. |
| CandidateHistory.LaterStatesBuildOnEarlier | crates/server/src/storage/filesystem.rs:1340-1360 | In every run every later state is the earlier one with the deltas promoted in between applied in order: history is never rewound or replaced. |
| CandidateHistory.HistoryIsRecorded | crates/server/src/storage/filesystem.rs:1267-1360 | In every run each promoted delta is the canonical row at its nonce, and no nonce is promoted twice. |
| CandidateHistory.ReconstructTail | crates/server/src/services/candidate_chain.rs:211-279 | Replays the queue; succeeds exactly when every payload applies and the result has the tail commitment. |
| CandidateHistory.ChainedQueueReplays | crates/server/src/services/candidate_chain.rs:193-210 | In every reachable state with a chained queue the replay succeeds and reproduces the stored tail commitment. |
| CandidateHistory.OthersKeepTheChain | crates/server/src/storage/mod.rs:385-392 | Only the worker can break the chain: submissions, requests, reads and counter writes keep it, and only submissions move its tail. |
| CandidateHistory.PromotingTheHeadKeepsTheChain | crates/server/src/jobs/canonicalization/processor.rs:1952-2111 | Promoting the head of a chained queue succeeds, applies its payload, and leaves a chained queue with the same tail. |
| CandidateHistory.DepthIsBounded | crates/server/src/storage/mod.rs:454-473 | In every run the queue never exceeds the configured depth (one, where that is zero). |
| Signers.SchemeOfMeans | crates/shared/src/lib.rs:38-51 | A name parses to a scheme exactly when it spells it in any case. |
| Signers.NoChangesIff | crates/miden-multisig-client/src/signers.rs:106-126 | No change is reported exactly when no target has another scheme than its first stored approver. |
| Signers.ReaderUndoesWriter | crates/miden-multisig-client/src/signers.rs:44-93 | For all targets, approvers and proposer schemes: resolving what the writer wrote gives exactly the targets if and only if they keep the stored schemes and not both lists are empty. |
| Signers.SingleSchemeStaysUnnamed | crates/miden-multisig-client/src/signers.rs:36-43 | On an account of one scheme, targets of that scheme are written without names. |
| Signers.NamedResolvesExactly | crates/miden-multisig-client/src/signers.rs:70-126 | Named schemes are refused exactly when there is not one per commitment or one changes a stored approver's; the change list holds exactly those targets. |
| Signers.UnnamedRefusedExactly | crates/miden-multisig-client/src/signers.rs:70-126 | On distinct approvers, unnamed schemes are refused exactly when two kept approvers store different ones, and the change list is the kept targets differing from the first kept approver, in target order; otherwise all get the scheme of the first kept approver, or of the first approver where none is kept. |
| Signers.FirstKeptIsFirst | crates/miden-multisig-client/src/signers.rs:95-104 | The kept scheme is that of the earliest approver among the targets. |
| SignerProposals.EnsureAdmissibleSignerSet | crates/miden-multisig-client/src/transaction/builder.rs:79-100 | Accepts exactly distinct signers within the maximum without the GUARDIAN key; the error is that of the first check that fails, a repetition at its first occurrence. |
| SignerProposals.RefusedExactlyWhen | crates/miden-multisig-client/src/transaction/builder.rs:107-140 | On a sound account a signer is not added exactly when it is there already, is the GUARDIAN or does not fit; not removed exactly when it is not there or is the last; the threshold is not changed exactly when other signers are named, it is out of range or the same. |
| SignerProposals.PlanIsSound | crates/miden-multisig-client/src/transaction/builder.rs:317-329 | Every proposal of a sound account has an admissible signer set that keeps the stored schemes, and a threshold those signers can reach. |
| SignerProposals.ReadsTheTargets | crates/miden-multisig-client/src/account.rs:248-272 | After execution a reader finds exactly the proposed signers, but for an added zero word, which it takes for the end of the list. |
| SignerProposals.EveryRunStaysSound | crates/miden-multisig-client/src/transaction/builder.rs:309-560 | Under every sequence of requests, each executed and read back before the next, a sound account stays sound, and every proposal on the way resolves to its targets for every reader, whoever proposes it. |
| SignerProposals.CreatedIsSound | crates/contracts/src/multisig_guardian.rs:215-274 | An account created from a valid configuration that fits and names no zero word is sound. |
| Signers.ProposalsReadBack | crates/miden-multisig-client/src/proposal.rs:473-497 | Whatever the proposer's scheme, the strings of such a proposal resolve to exactly its targets for every reader of the account. |
| Signers.AuthConfigLosesNothing | crates/miden-multisig-client/src/signers.rs:133-168 | From the registered auth the ordered cosigners with their schemes and the GUARDIAN scheme are recovered for every input; the single-scheme form appears exactly when all share the GUARDIAN scheme. |
| SignerRuns.ValidateConfig | crates/contracts/src/multisig_guardian.rs:215-274 | Succeeds exactly on a threshold within one and the (32-bit) signer count, distinct signers, a foreign GUARDIAN key, matching schemes and distinct overrides in range; every error is that of the first check that fails and names the first offender. |
| SignerRuns.ValidateOverrides | crates/contracts/src/multisig_guardian.rs:255-271 | The override loop succeeds exactly on distinct roots with thresholds in range, and otherwise stops at the first offender. |
| SignerRuns.CreationReadsBack | crates/contracts/src/multisig_guardian.rs:82-87 | A reader of a created account finds the configured signers in order up to the first zero word or the maximum, each under its own scheme where the configuration names one each, else under the account's; all of them exactly when they fit and hold no zero word, none exactly when the first is zero. |
| SignerRuns.ExtractIndexedMapWords | crates/miden-multisig-client/src/account.rs:248-272 | Reads the words at 0, 1, ... up to the first zero word or the maximum. |
| SignerRuns.ReadBack | crates/miden-multisig-client/src/account.rs:248-346 | Reading back a written approver list gives a prefix of it: the whole exactly when it fits and holds no zero word, nothing exactly when it starts with one. |
| SignerRuns.UpdateKeeps | crates/miden-multisig-client/src/signers.rs:70-126 | Whatever strings an update carries, a reader finds distinct approvers after it, and every approver it keeps under its old scheme. |
| SignerRuns.NeverRemovedKeepsItsScheme | crates/miden-multisig-client/src/proposal.rs:620-671 | In every run of updates of a created account, as readers find it, the commitments stay pairwise distinct and an approver present throughout keeps its scheme. |
| SignerRuns.StaysNonEmpty | crates/miden-multisig-client/src/account.rs:257-268 | A reader finds approvers throughout if and only if the configuration does not start with the zero word and no accepted update names it first. |
| SignerRuns.ConfigCanHideEveryone | crates/contracts/src/multisig_guardian.rs:215-274 | A valid configuration in which a reader finds no approvers. |
| SignerRuns.UpdateCanHideEveryone | crates/miden-multisig-client/src/proposal.rs:620-671 | An accepted update after which a reader finds none. |
| Approvals.ApproverMeans | crates/miden-multisig-client/src/execution.rs:115-135 | The loop counts an input for an approver exactly when the signer spells its commitment up to case and the account stores that scheme for it. |
| Approvals.ChosenAre | crates/miden-multisig-client/src/execution.rs:114-141 | The inputs turned into entries are exactly the first counting one of each approver, in order; a wrong-scheme entry shadows nothing. |
| Approvals.OneEach | crates/miden-multisig-client/src/execution.rs:137-141 | There are as many entries as distinct approvers that approved. |
| Approvals.CollectSignatureAdvice | crates/miden-multisig-client/src/execution.rs:101-167 | Succeeds exactly when every chosen approval has a lower-case prefix and builds, and returns their entries in order; otherwise the error is that of the first chosen approval that does not. |
| Approvals.ValidatedSignersDecode | crates/miden-multisig-client/src/execution.rs:143-144 | A matched signer decodes exactly when it has the prefix `0x`, so decoding never fails on signers that were validated. |
| Approvals.UpperPrefixStopsTheCollection | crates/miden-multisig-client/src/execution.rs:143-144 | For every approver, the spelling with `0X` is matched and cannot be used, whatever the signature. |
| Execution.Gate | crates/miden-multisig-client/src/client/proposals.rs:449-457 | Opens exactly when every chosen approval is usable, the account is of the known contract and the number of distinct approvers that approved under their stored schemes meets every procedure the transaction calls; every refusal says which of these failed first. |
| Execution.DocumentOpensExactlyWhen | crates/miden-multisig-client/src/client/offline.rs:235-294 | For a valid document: the gate opens exactly when the signatures that count (signer with `0x`, an approver, under the stored scheme) all build and their number, each once, meets the account's threshold. |
| Execution.ReadyMeansExecutable | crates/miden-multisig-client/src/client/offline.rs:238-294 | Where every signature counts and builds and the document asks for what the account does, the document is ready exactly when the gate opens. |
| Execution.ReadyMayBeRefused | crates/miden-multisig-client/src/client/offline.rs:238-294 | For every approver: spelled without `0x` it makes a valid document ready and opens nothing that needs an approval. |
| Approvals.BindNotes | crates/miden-multisig-client/src/execution.rs:227-251 | Succeeds exactly when there is one note per id and each decodes to the note its index names; the error is at the first that does not. |
| Procedures.ParseIsName | crates/miden-multisig-client/src/procedures.rs:111-138 | A string parses to a procedure exactly when it is its name. |
| Procedures.RootIsWord | crates/miden-multisig-client/src/procedures.rs:39-63 | Each root constant spells a word. |
| Procedures.RootsDiffer | crates/miden-multisig-client/src/procedures.rs:39-63 | The seven roots are pairwise distinct. |
| ProcedureThresholds.ProcedureThreshold | crates/miden-multisig-client/src/account.rs:147-165 | Reads the override under the procedure's root, truncated to 32 bits, none when zero or missing; refuses an unpinned account. |
| ProcedureThresholds.Overrides | crates/miden-multisig-client/src/account.rs:168-176 | Lists exactly the procedures that read an override, each once, with its value. |
| ProcedureThresholds.WithProcedureThreshold | crates/miden-multisig-client/src/account.rs:374-416 | The read, retain, push and rebuild computes the map with exactly that one procedure changed. |
| ProcedureThresholds.ChangeMeans | crates/miden-multisig-client/src/account.rs:374-416 | Every known procedure reads its old value, the changed one the new value (none when zero). |
| ProcedureThresholds.UnknownRootsAreDropped | crates/miden-multisig-client/src/account.rs:379-402 | Overrides under roots this SDK does not know are gone after any change. |
| ProcedureThresholds.ReadsTheLastWrite | crates/miden-multisig-client/src/account.rs:374-416 | After any calls on a pinned account every procedure reads its last written value, else its original one: the rebuild refines a map update. |
| ProcedureThresholds.GateMeetsEveryProcedure | crates/shared/src/multisig_threshold.rs:97-129 | A count passes the gate of a transaction exactly when it meets every procedure the transaction calls, each its override else the default. |
| ProcedureThresholds.TransferTakesTheHigher | crates/shared/src/multisig_threshold.rs:72-86 | A transfer needs the higher of the thresholds of sending an asset and creating a note. |
| ProcedureThresholds.ChangeIsLocal | crates/shared/src/multisig_threshold.rs:74-106 | Changing one procedure leaves the threshold of every transaction that does not call it, and holds the others to at least the new value. |
| Decimal.ParseOfDigits | crates/qualification-driver/src/duration.rs:73-75 | Every 64-bit number parses back from its decimal form. |
| Budget.MeansOnce | crates/qualification-driver/src/duration.rs:57-88 | A budget string has at most one reading. |
| Budget.PrefixesAgree | crates/qualification-driver/src/duration.rs:49-53 | `PT` and `pt` mean the same, and what follows is read in any case. |
| Budget.ReadGroups | crates/qualification-driver/src/duration.rs:57-93 | The loop succeeds exactly on groups of digits and unit whose exact sum fits in 64 bits; overflow aside, an error means that no groups spell the text. |
| Budget.FromStr | crates/qualification-driver/src/duration.rs:38-94 | Succeeds exactly on one or more groups (after trimming and an optional ISO prefix) whose exact sum fits in 64 bits, and returns that sum; `Empty` exactly on blank text. |
| Budget.IsoMeans | crates/qualification-driver/src/duration.rs:98-113 | What is rendered means the budget it was rendered from. |
| Budget.IsoIsCanonical | crates/qualification-driver/src/duration.rs:98-113 | Renderings keep minutes and seconds below sixty, units in order, and write a zero only alone. |
| Budget.RoundTrip | crates/qualification-driver/src/duration.rs:96-113 | For every 64-bit number, parsing its rendering returns it. |
| Payload.KindOfLabel | crates/miden-multisig-client/src/proposal.rs:533-671 | Each wire label selects its own proposal type. |
| Payload.BoundBlockIsKept | crates/miden-multisig-client/src/payload.rs:118-146 | No sequence of builder calls loses the block the summary binds. |
| Payload.SetterReadsBack | crates/miden-multisig-client/src/payload.rs:166-309 | Parsing what a metadata setter wrote gives the transaction it means (amount, omitted public note type, heights, procedure name; signer changes as one update; thresholds modulo 2^32), and is refused exactly when it describes none. |
| Payload.ReadProposal | crates/miden-multisig-client/src/proposal.rs:799-937 | Succeeds exactly when the metadata describes a transaction and gives a required count, every signature is well formed and no signer, up to case, repeats; lists the signers in order and is ready exactly when a positive required count was collected. |
| Payload.BuiltPayloadReadsBack | crates/miden-multisig-client/src/proposal.rs:799-937 | After any builder calls a reader gets what the last setter means if the required count was given after it, every signature is well formed and no signer, up to case, signed twice; nothing otherwise. |
| Payload.SigningTwiceIsUnreadable | crates/miden-multisig-client/src/proposal.rs:879-916 | Two signatures of one signer, wherever among the calls, make the payload unreadable. |
| Payload.SignerPayloadResolves | crates/miden-multisig-client/src/proposal.rs:473-497 | After a signer setter with the written schemes and the required count, whatever else was called, the built metadata resolves to exactly the target signers. |
| Payload.SaltIsKept | crates/miden-multisig-client/src/payload.rs:139-146 | Nor is the last setter's salt lost. |
| Signatures.ValidateSignatures | crates/miden-multisig-client/src/export.rs:185-247 | Succeeds exactly when every signature is well formed and case-folded signers are pairwise distinct; otherwise stops at the first that is not. |
| Export.Validate | crates/miden-multisig-client/src/export.rs:249-286 | Succeeds exactly on documents of the expected account whose id is that of their summary, whose metadata describes a transaction and whose signatures are valid; the error is that of the first of these checks that fails. |
| Export.ExportedProposal.AddSignature | crates/miden-multisig-client/src/export.rs:440-464 | Appends exactly well-formed signatures of signers that have not signed, up to case; keeps the signatures valid and a ready document ready. |
| Export.StaysValid | crates/miden-multisig-client/src/export.rs:440-464 | A valid document stays valid under every sequence of attempts, keeps its header and signatures, and never becomes unready again. |
| Export.TakenOnce | crates/miden-multisig-client/src/export.rs:422-464 | After any attempts the signers are, up to case, the original ones and those of well-formed attempts. |
| Export.SameWordOnlyByPrefix | crates/miden-multisig-client/src/export.rs:240-244 | Two signers of a valid document name the same commitment exactly when they differ in the prefix only. |
| Export.UniformSignersAreDistinct | crates/miden-multisig-client/src/export.rs:185-247 | Where all signers are written with or all without prefix, they are distinct commitments. |
| Export.SpellingsCountTwice | crates/miden-multisig-client/src/export.rs:240-244 | Otherwise one commitment can be in twice, once with and once without `0x`. |
| Export.ExportUndoesImport | crates/miden-multisig-client/src/export.rs:289-398 | Exporting an imported document reproduces all but its signatures exactly when it has the current version and a canonically written account id. |
| Export.ImportUndoesExport | crates/miden-multisig-client/src/export.rs:140-174 | Importing the export with the signatures back reproduces the proposal if and only if its metadata names its summary, type and a positive required count and describes its transaction, its id is its summary's, its signatures are valid and listed as its signers, and its status is up to date. |
| Export.ImportedIsExportable | crates/miden-multisig-client/src/export.rs:359-398 | Every imported proposal is exportable, so import and export go round any number of times. |
| Export.ImportedStatusIsRefreshed | crates/miden-multisig-client/src/export.rs:359-398 | The imported status is the one the proposal's own metadata gives, and readiness of the document. |
| Seeding.AssignedAre | benchmarks/prod-server/src/distributed.rs:31-35 | A shard lists exactly its users, in order. |
| Seeding.ShardsPartition | benchmarks/prod-server/src/distributed.rs:21-35 | For every user and shard count each user is in exactly one shard. |
| Seeding.SplitUsers | benchmarks/prod-server/src/schemes.rs:9-19 | For every distribution the two counts add up to the users unless the share overshoots; from two users on no scheme with a positive percentage is left out; they are the rounded-down share where the product fits in 32 bits and needs no correction. |
| Seeding.BuildSchemePlan | benchmarks/prod-server/src/schemes.rs:4-34 | For every distribution the plan has one entry per user, or the overshooting share, with those counts. |
| Seeding.HundredNeverOvershoots | benchmarks/prod-server/src/config.rs:98-103 | No distribution the configuration admits overshoots. |
| Seeding.DoubleOvershoots | benchmarks/prod-server/src/schemes.rs:9-10 | A distribution of 200 and 0 always does, while the product fits. |
| Seeding.ShardUserPlan | benchmarks/prod-server/src/seed.rs:310-324 | Each user of the shard gets its scheme of the plan, in order. |
| Seeding.CountRequiredEntries | benchmarks/prod-server/src/seed.rs:302-308 | Counts the users of each scheme that occurs. |
| Seeding.AssignSeedEntries | benchmarks/prod-server/src/seed.rs:276-300 | Succeeds exactly when there are enough seeds of each scheme; each user gets the next unused one of its scheme. |
| Seeding.SeedsAreUsedOnce | benchmarks/prod-server/src/seed.rs:276-300 | No seed is given to two users. |
| Seeding.SeedsAreAllUsed | benchmarks/prod-server/src/seed.rs:276-300 | Every counted seed is given to a user of its scheme. |
| Seeding.SeedUsers | benchmarks/prod-server/src/seed.rs:276-308 | With exactly the counted seeds, assignment succeeds. |

## Left out

- gRPC, HTTP, TLS, node RPC, note transport, provers and the `run_retries` wrapper: delegation without state of its own.
- Falcon, ECDSA, EIP-712, hashing and the Miden VM: signatures, summaries, notes and account ids are opaque, with codecs that are inverses where a round trip needs it.
- How values are written as JSON: field names, serde defaults, and the precedence of legacy status fields when a `DeltaObject` is read.
- `Proposal::missing_signers` and the counting helpers of proposals and documents: one-line set and length expressions.
- Calls that await between lock sections are methods for one client (`ReplayRetry.dfy`) and events on values for several (`Sessions.dfy`): a method cannot be interrupted by another client.
- The filesystem store's lock sections are functions on an account value, one event each; the Postgres store, leases and fencing between servers, executions (only as an `owned` flag), pausing and release, and re-onboarding are not modelled.
- A promotion interrupted between its file writes is not an event; the branch that resumes one is modelled.
- The canonicalization worker's own decisions (verification against the chain, retry budgets, when to park) are arbitrary: it may take any step a snapshot it holds allows. One worker per account acts at a time, which its lease ensures.
- Debug builds, where overflowing counters and skew differences panic instead of wrapping.
- `str::to_lowercase` beyond ASCII: it is applied only to strings that already spell hex words.
- The online path's exact-string deduplication and sorting before collection, which the collection's own repeats.
- Keystore files, AWS and ECS clean-up, Terraform, command lines, reports and latency percentiles.
