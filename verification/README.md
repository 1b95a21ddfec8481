# A verified model of walletkit's transaction core

walletkit sends EVM transactions for one account and tracks them until they settle. This project models
the parts that carry its guarantees and proves them in Dafny 4.11, for every answer the network, the
relays, the policy engine, the key and the store may give.

`dafny verify dfyconfig.toml` checks everything.

## How the model is laid out

| file | what it models |
|---|---|
| `Types.dfy` | intents, bodies, approvals, routes, statuses, handles |
| `Nonces.dfy` | the allocator's state and its three updates, proved against the set of nonces still available |
| `NonceProtocol.dfy` | any number of clients interleaving load and compare-and-swap steps |
| `StateStore.dfy` | the in-memory store and redb's pending index, as classes |
| `NonceManager.dfy` | the retry loops of `LocalNonceManager`, with rivals committing between load and swap |
| `Lifecycle.dfy` | the pure lifecycle and its runs over observations |
| `GasOracle.dfy` | the 128-bit replacement-fee arithmetic |
| `Signing.dfy`, `Policy.dfy` | assembly, the signer's gate, the native policy engine |
| `Executor.dfy` | the cycle's snapshot and the event distilled from one handle's chain reads |
| `Wallet.dfy` | one account's wallet as a step system: send (crashing anywhere), cancel, recover, confirm, poll, refill, bump, restart |
| `WalletHandles.dfy` | what every step keeps of every handle, its history and the effect log |
| `WalletNonces.dfy` | what every step keeps of the nonces, and the one way it is lost |
| `WalletRuns.dfy` | what one step may change: continuation, evidence for a confirmation, refills |
| `WalletPromises.dfy` | the promises over every run |
| `Cancellation.dfy` | what a cancel submits, when its target stays marked, and what the mark is worth over a run |
| `WalletExact.dfy` | what each step does, field by field from its inputs: send, refill, task, recovery, pass, advance, poll, bump |
| `WalletCreations.dfy` | which steps create an id's handle, anew or for the first time |
| `WalletPolicy.dfy` | the policy engine joined to the wallet's runs |
| `WalletExamples.dfy` | runs that show where the promises end |
| `Pipeline.dfy`, `AccountExecutor.dfy` | `TransactionManager` and `AccountExecutor` as classes whose methods refine the steps |
| `Discovery.dfy` | the windowed multi-chain account scan against a one-index scan |

Hashes and EIP-2718 encodings are injective constructors, so decoding inverts encoding and two digests are
equal exactly when their preimages are. Every RPC, relay, submission, key, policy and store answer is an
argument of the step it belongs to. Statements about handles are about serialised operations, as the store
overwrites handles without a version check; only nonce state is claimed under free interleaving.

## What the code does not promise

Each of these is a lemma with the failing case and the exact condition under which the property holds.

- A bump's max fee is not capped by twice the base fee plus the tip: that sum is a lower bound. It is a cap
  exactly when the 10% raise does not exceed it (`CoverageCapsExactly`, `CoverageNeedNotCap`).
- A raise is at least 10% exactly while `11 * old <= 10 * ceil(MAX / 100)`, and strict exactly below the
  128-bit maximum, where the source's `old + 1` overflows (`RbfRaisesTenPercent`, `RbfIsStrict`, `RaiseCanFail`). The model
  wraps there, as a release build does.
- Successive allocations are consecutive exactly when the whole stretch from the first one on is available
  (`ConsecutiveIffStretch`, `AllocationsCanSkip`). Once they outlast the freed gaps, that is exactly when
  there were none (`ConsecutiveIffNoGaps`).
- The allocator stays at or above the chain's count exactly when nobody releases a nonce the chain has
  reported consumed (`FloorRun`, `FloorCanFail`).
- A certainly rejected send hands its nonce back even if the write that settles its handle failed. The
  handle then stays unsettled and the next send shares its nonce. Every other send, crash or pass keeps the
  nonces sound (`SendKeepsNoncesIff`, `StepKeepsNoncesIff`, `LeakedNonceIsShared`).
- A failed send can leave a gap, a nonce neither available nor in use: when it stops right after
  allocating, when it never broadcasts and cannot hand the nonce back, or when it is rejected, settles and
  fails or stops before handing it back; and in no other case (`SendLeavesGapIff`, `FailedSendLeavesAGap`).
  Nothing ever fills a gap (`GapsLast`).
- A cancel marks its target before pricing. The mark ends set exactly when the stored bytes cannot be
  decoded (as for a managed-relay handle, where nothing is signed), the cancel is known to be accepted, or
  the write that takes the mark back fails (`CancelMarkExactly`). So a cancel whose submission was lost in
  transit may be live although its target is unmarked (`LiveCancelIsMarkedIff`), and if it mines, the
  target passes for displaced and is sent again (`LostCancelIsRefilled`), although a cancelled transaction
  is promised never to be refilled (src/facade.rs:405). A second cancel that cannot be priced takes back the
  first one's mark too (`SecondCancelUnmarksTheFirst`). Throughout a run every possibly live cancel is
  marked exactly when no step takes such a mark back (`MarkedRunIff`), and then a refill means that no
  cancel of the displaced handle may be live (`RefillMeansNoLiveCancel`).
- redb's pending index goes stale exactly when an unsettled id is written under another account
  (`PutKeepsIndex`, `MovedAccountLeavesStaleEntry`).
- The windowed scan derives a whole window ahead, so it fails where a one-index scan would not exactly when
  something past the stop in the last window does not derive (`LookaheadCanOnlyFailPastTheStop`,
  `LookaheadCanFail`).
- `scanned_to` is the largest index looked at. For one scheme below 2^32 it is the highest index probed
  exactly when no whole gap lies before the last index of the bound, or the first window is unused, or the
  last used index found is the last of its window (`ScannedToIsProbedIff`, `ScannedToCanMissTheProbed`).
- "Foreign" speaks of the account's nonce exactly for a transaction signed here. A managed-relay handle is
  compared by its forwarder's nonce (`ForeignSpeaksOfOwnNonceIff`), so one whose receipt is not served yet
  can pass for displaced and be sent again (`RelayedRequestIsRefilled`).
- A settled handle is final only until its id is created anew, which exactly four kinds of step do; a known
  cancel writes over even a confirmed cancel of that nonce (`CreatedExactly`, `KnownCancelOverwrites`).

Where documentation and code differ, the model follows the code; besides the above, a nonce consumed by
one's own cancel also reaches the target as a foreign transaction (`LostCancelIsRefilled`), although the
comment on that event speaks of another sender's.

## Model

| member | source | states |
|---|---|---|
| Nonces.AllocateTakesLeast | src/adapters/nonce.rs:67-84 | allocation removes the least available nonce from the pool and nothing else |
| Nonces.AbsorbKeepsPool | src/adapters/nonce.rs:100-104 | absorbing freed nonces that touch the high-water mark leaves the pool as it is and restores the canonical form |
| Nonces.ReleaseReturns | src/adapters/nonce.rs:93-112 | release adds exactly the named nonce to the pool |
| Nonces.ResetRetires | src/adapters/nonce.rs:114-125 | reset removes exactly the nonces below the chain's count |
| Nonces.PoolDeterminesState | src/core/wallet/primitives/nonce.rs:5-13 | a reachable allocator state is determined by its pool |
| Nonces.ReleaseUndoesAllocate | src/adapters/nonce.rs:67-112 | releasing what was just allocated restores the state exactly |
| Nonces.ReleasesCommute | src/adapters/nonce.rs:93-112 | the order of releases does not matter |
| Nonces.AllocateManyTakesTheLeast | src/adapters/nonce.rs:74-84 | k allocations hand out the k least available nonces in order |
| Nonces.ConsecutiveIffStretch | src/adapters/nonce.rs:74-84 | any number of allocations is consecutive exactly when the whole stretch from the first one on is available |
| Nonces.ConsecutiveIffNoGaps | src/adapters/nonce.rs:74-84 | allocations outlasting the gaps are consecutive exactly when there were none |
| Nonces.AllocationsCanSkip | src/adapters/nonce.rs:74-84 | a state whose allocations skip, and one with gaps whose allocations do not |
| NonceProtocol.LinearRun | src/adapters/nonce.rs:52-125 | in every interleaving, versions rise by one, each committed state is computed from the one before it, and committed fences never decrease |
| NonceProtocol.SupersededForever | src/adapters/store/memory.rs:41-60 | a writer below a committed fence never commits again, in any continuation of the run |
| NonceProtocol.LostRacesAreOthersCommits | src/adapters/nonce.rs:67-125 | a client's failed swaps never outnumber the commits of others: system-wide progress |
| NonceProtocol.LostRaceHasItsCommit | src/adapters/nonce.rs:85-90 | every failed swap follows a commit of another client since its own load |
| NonceProtocol.AccountedRun | src/adapters/nonce.rs:67-125 | in every interleaving no nonce is held twice, and the range from the base to `next` splits exactly into held, free and retired |
| NonceProtocol.AllocationIsLeastUnused | src/adapters/nonce.rs:74-84 | every committed allocation, the first included, is the least nonce from the base up that is neither held nor retired |
| NonceProtocol.FloorStep | src/adapters/nonce.rs:93-125 | a step keeps the pool above the chain's count exactly when it releases no consumed nonce |
| NonceProtocol.FloorRun | src/adapters/nonce.rs:93-125 | the same over whole runs, as an equivalence |
| NonceProtocol.AllocationsAreAboveChain | src/adapters/nonce.rs:67-84 | then no allocation is a nonce the chain reported consumed |
| NonceProtocol.FloorCanFail | src/adapters/nonce.rs:93-125 | a run that releases a consumed nonce and loses the floor |
| NonceManager.LocalNonceManager.Allocate | src/adapters/nonce.rs:67-91 | the retry loop commits the allocation of the record it last lost to, on first use from the committing attempt's own chain read, or fails only on a fence or such a read, whatever rivals commit in between, over either store and touching no other account or table |
| NonceManager.LocalNonceManager.Release | src/adapters/nonce.rs:93-112 | the retry loop, with its inner absorb loop, commits the release of the record it last saw or leaves a record that no longer covers the nonce alone |
| NonceManager.LocalNonceManager.Reset | src/adapters/nonce.rs:114-125 | the retry loop commits the reset of the record it last saw |
| NonceManager.SameVersionSameValue | src/adapters/store/memory.rs:41-60 | an unchanged version means no rival committed |
| StateStore.InMemoryStore.LoadNonceState | src/adapters/store/memory.rs:22-32 | an absent record reads as empty at version 0 |
| StateStore.InMemoryStore.CasNonceState | src/adapters/store/memory.rs:34-61 | the in-memory swap is the abstract fenced compare-and-swap and touches one account |
| StateStore.InMemoryStore.PendingHandles | src/adapters/store/memory.rs:68-76 | lists exactly the account's unsettled handles, each once |
| StateStore.RedbStore.LoadNonceState | src/adapters/store/redb.rs:83-101 | an absent record reads as empty at version 0 |
| StateStore.RedbStore.CasNonceState | src/adapters/store/redb.rs:103-147 | redb's swap is the same abstract compare-and-swap |
| StateStore.RedbStore.PutHandle | src/adapters/store/redb.rs:149-176 | upserts the handle and moves its index entry; a right index stays right exactly when no unsettled id moves between accounts |
| StateStore.RedbStore.PendingHandles | src/adapters/store/redb.rs:178-201 | returns what the index names, which under a right index is the in-memory filter |
| StateStore.PutKeepsIndex | src/adapters/store/redb.rs:149-176 | one write keeps the index right exactly when it does not move an unsettled id between accounts |
| StateStore.IndexAfterWrites | src/adapters/store/redb.rs:149-201 | after any writes in which an id fixes its account the index is right |
| StateStore.MovedAccountLeavesStaleEntry | src/adapters/store/redb.rs:161-169 | an id written unsettled under two accounts leaves a stale entry |
| Lifecycle.TerminalStays | src/core/wallet/executor/lifecycle.rs:96-99 | a settled status survives every later observation |
| Lifecycle.BadReadsAreInvisible | src/core/wallet/executor/lifecycle.rs:100-101 | deleting every Unknown event from a run changes nothing |
| Lifecycle.ConfirmedIffOwnFinalSuccess | src/core/wallet/executor/lifecycle.rs:108-126 | a run ends Confirmed at b exactly when, before settling, it saw its own success at b final |
| Lifecycle.ClockIsStretchStart | src/core/wallet/executor/lifecycle.rs:127-137 | the replacement clock is the first foreign event of the current stretch of foreign or unusable events |
| Lifecycle.ReplacingIffInStretch | src/core/wallet/executor/lifecycle.rs:100-138 | an unsettled run is Replacing since s exactly inside such a stretch that began at head s |
| Lifecycle.ReplacedIffFinalStretch | src/core/wallet/executor/lifecycle.rs:127-137 | a run ends Replaced exactly when a strictly later foreign event of the stretch finds its start final |
| Lifecycle.OwnMinedSettles | src/core/wallet/executor/lifecycle.rs:108-126 | from any unsettled status, unbroken sight of our transaction settles exactly when some observation finds it final |
| Lifecycle.ForeignMinedSettles | src/core/wallet/executor/lifecycle.rs:127-137 | from any unsettled status, unbroken sight of a foreign one settles Replaced exactly when an observation after the clock started finds its start final |
| Lifecycle.OwnLastHeadDecides | src/core/wallet/executor/lifecycle.rs:142-149 | under the depth rule and a head that does not move back, the last head alone decides whether unbroken sight of our transaction has settled |
| Lifecycle.ForeignLastHeadDecides | src/core/wallet/executor/lifecycle.rs:127-149 | and whether unbroken sight of a foreign one has |
| Lifecycle.UnsettledClosedForm | src/core/wallet/executor/lifecycle.rs:100-139 | an unsettled run is Mined where the last word is our transaction, Replacing where it is a foreign one, else Sent if the nonce was ever seen consumed and as it started if not |
| Lifecycle.FailedIffOwnFinalRevert | src/core/wallet/executor/lifecycle.rs:113-119 | a run ends Failed exactly when, before settling, it saw its own revert final |
| GasOracle.RbfIsStrict | src/adapters/gas_oracle.rs:42-46 | the raise is strict exactly below the 128-bit maximum |
| GasOracle.RbfRaisesTenPercent | src/adapters/gas_oracle.rs:42-46 | the raise is 10% exactly while saturation does not bite, in particular up to MAX/110 |
| GasOracle.BumpIsSound | src/adapters/gas_oracle.rs:38-72 | a bump raises both fees strictly, covers base-fee growth, keeps the tip within the max fee and the max fee within the ceiling |
| GasOracle.BumpIsLeast | src/adapters/gas_oracle.rs:38-72 | below saturation a bump asks for the least tip and the least max fee that replace the old ones and cover twice the base fee, and is refused exactly above the ceiling |
| GasOracle.CoverageCapsExactly | src/adapters/gas_oracle.rs:50-55 | the max fee is at most the coverage exactly when the 10% raise is |
| GasOracle.CoverageNeedNotCap | src/adapters/gas_oracle.rs:50-55 | fees whose bump exceeds the coverage |
| GasOracle.EnvelopeBoundsBumps | src/adapters/gas_oracle.rs:38-72 | n bumps from fee f under cap c satisfy 11^n f <= 10^n c, for both fees |
| GasOracle.DefaultEnvelopeBound | src/core/wallet/primitives/policy.rs:18-26 | under the default envelope fees climbing from at least 1 climb at most 320 times, the first included |
| Signing.SignsExactlyTheAuthorized | src/adapters/signers.rs:98-147 | the signer signs exactly what an unexpired approval of that intent admits, as far as its key answers |
| Policy.DecideOutcome | src/adapters/policy/native.rs:179-204 | the loop allows exactly when no rule denies, some rule allows or it is a self-send cancel, and the payload hashes; the first denial names its rule |
| Policy.OrderDoesNotMatter | src/adapters/policy/native.rs:179-204 | permission depends on the set of rules only |
| Policy.TransactionsNeedAListedTarget | src/adapters/policy/native.rs:53-150 | under the built-in restrictive rules a transaction passes exactly when its target is listed and its value within every limit |
| Policy.MessagesNeedAnOptIn | src/adapters/policy/native.rs:98-105 | under the built-in restrictive rules a message passes exactly when some rule opts in |
| Policy.TypedDataNeedsAListedContract | src/adapters/policy/native.rs:122-137 | typed data passes exactly when its contract is listed, it names a chain and it can be encoded |
| Policy.CancelsMustBeSelfSends | src/adapters/policy/native.rs:187-196 | a cancel passes exactly when it sends nothing to its own account with no data |
| Policy.ValidateAgreesWithEvaluate | src/adapters/policy/native.rs:206-244 | a dry run and an evaluation agree, and an approval binds the payload asked about |
| Policy.ApprovedIsWhatGetsSigned | src/adapters/signers.rs:130-147 | an approval given for one transaction signs no other intent's body |
| Policy.BumpKeepsPermission | src/core/wallet/executor/mod.rs:467-478 | re-asking at bump time never refuses what the built-in rules permitted, and binds the same payload |
| Executor.InnerIsFirstMatch | src/core/wallet/primitives/gasless/meta_context.rs:72-79 | a self-relayed request succeeded exactly when its first matching forwarder event says so |
| Executor.EventMeaning | src/core/wallet/executor/mod.rs:324-354 | own-mined exactly on an anchored newest receipt; open or foreign exactly on no receipt and the nonce count |
| Executor.AnchoredIsReported | src/core/wallet/executor/mod.rs:319-337 | an anchored newest receipt is reported, however low or high the nonce count reads |
| Executor.DistillEvent | src/core/wallet/executor/mod.rs:324-337 | the newest-first loop computes that event |
| Executor.CycleMeaning | src/core/wallet/executor/mod.rs:295-317 | a snapshot is accepted exactly when all three reads answer, the head has not moved back and no tag lies above it; a tag makes finality go by the tag, none by depth |
| WalletHandles.StepKeeps | src/core/wallet/executor/mod.rs:155-479 | every step keeps, for every handle: identity, one transaction at climbing fees within the envelope, route discipline, status equal to the run over its observations, refills within creations; and keeps the effect log sound |
| WalletHandles.RunKeeps | src/core/wallet/transaction_manager.rs:175-565 | so every reachable world satisfies that invariant |
| WalletHandles.SendKeeps | src/core/wallet/transaction_manager.rs:175-227 | a send keeps it, crashing at any point |
| WalletHandles.BumpKeeps | src/core/wallet/executor/mod.rs:380-444 | a bump keeps it |
| WalletHandles.AdvanceKeeps | src/core/wallet/executor/mod.rs:205-289 | an advance keeps it, refill included |
| WalletHandles.CancelKeeps | src/core/wallet/transaction_manager.rs:376-484 | a cancel keeps it |
| WalletNonces.SendKeepsNoncesIff | src/core/wallet/transaction_manager.rs:487-565 | a send keeps held and possibly live nonces out of the pool and unsettled sends distinct exactly when it does not hand a nonce back after failing to settle its rejected handle |
| WalletNonces.StepKeepsNoncesIff | src/core/wallet/executor/mod.rs:187-289 | the same equivalence for every step |
| WalletNonces.SendLeavesGapIff | src/core/wallet/transaction_manager.rs:143-145 | a send leaves its nonce neither available nor in use in exactly three cases: stopping after allocation, not broadcasting without handing it back, being rejected and settled without handing it back |
| WalletExamples.FailedSendLeavesAGap | src/core/wallet/transaction_manager.rs:549-557 | a rejected send that cannot hand its nonce back leaves a gap |
| WalletExamples.LeakedNonceIsShared | src/core/wallet/transaction_manager.rs:549-557 | a rejected send whose second write fails shares its nonce with the next one |
| WalletNonces.StepKeepsGap | src/adapters/nonce.rs:67-125 | no step of any kind makes a gap's nonce available or used |
| WalletNonces.StepFloor | src/core/wallet/executor/mod.rs:187-199 | no step, leaking or not, makes a nonce below a committed mined count available |
| WalletRuns.StepIsSound | src/core/wallet/executor/mod.rs:155-479 | one step: histories only grow, a new confirmation has its evidence in that step, a refill happens exactly where a handle not marked cancelled is persisted Replaced |
| WalletRuns.ConfirmationHasEvidence | src/core/wallet/executor/mod.rs:215-232 | a transition to Confirmed stands on a successful, anchored, final receipt of a recorded broadcast, and on the inner call for a self-relay |
| WalletRuns.EvidenceConfirms | src/core/wallet/executor/mod.rs:205-232 | with that evidence the advance does confirm |
| WalletRuns.SendLeavesHoldersAlone | src/core/wallet/transaction_manager.rs:221-226 | a send leaves every unsettled transaction signed here as it is |
| WalletRuns.AdvanceTouchesOnlyItsOwn | src/core/wallet/executor/mod.rs:196-199 | an advance, with its refill, leaves every other unsettled transaction signed here as it is |
| WalletPromises.RunExtends | src/core/wallet/executor/mod.rs:155-479 | over any run, an id not created anew keeps its identity, nonce and envelope, only adds broadcasts, and is untouched once settled |
| WalletPromises.RunKeepsNonces | src/core/wallet/transaction_manager.rs:487-565 | with terminal writes succeeding, every run with any crashes keeps the nonces sound |
| WalletPromises.RunIsSoundIff | src/core/wallet/transaction_manager.rs:487-565 | throughout a run the nonces are sound exactly when no step leaks |
| WalletPromises.SendsStayAboveMined | src/core/wallet/executor/mod.rs:191-195 | across crashes and restarts a send never takes a nonce below the highest mined count any pass of the run committed |
| WalletPromises.GapsLast | src/core/wallet/transaction_manager.rs:143-145 | a gap is for good in every continuation of the run |
| WalletPromises.LiveNonceNeverReturns | src/core/wallet/transaction_manager.rs:535-548 | a nonce whose broadcast may once have been live is never available again |
| WalletPromises.UnsettledSendsNeverShareANonce | src/core/wallet/transaction_manager.rs:221-226 | two unsettled sends never share a nonce |
| WalletPromises.NoFalseConfirmed | src/core/wallet/executor/mod.rs:205-354 | in any run a stored Confirmed was made by a step holding its evidence, in a pass whose own reads make the block final: at or below the finalized block they name, else deep enough under the head they read |
| WalletPromises.FinalReadsConfirm | src/core/wallet/executor/mod.rs:205-232 | on that evidence and those reads an advance that can write does confirm |
| WalletExact.ConfirmedSelfRelayRan | src/core/wallet/executor/mod.rs:503-511 | a handle created by a self-relayed send is confirmed only by a step whose receipt first reports that signer's and nonce's call as a success |
| WalletExact.SendStores | src/core/wallet/transaction_manager.rs:487-565 | a send that gets to its first write takes the least nonce offered, stores exactly the handle its inputs describe, signs and submits it, leaves it pending, sent or failed by what the network said, and hands the nonce back only on a certain refusal |
| WalletExact.SendStoresNothing | src/core/wallet/transaction_manager.rs:175-227 | any other send changes no handle and submits nothing, and costs a nonce exactly when one was taken and not handed back |
| WalletExact.RefillStores | src/core/wallet/executor/mod.rs:283-289 | a refill stores what a plain public send of the displaced intent stores |
| WalletExact.TaskStores | src/core/wallet/transaction_manager.rs:244-268 | a managed-relay request is stored as it came |
| WalletExact.RecoverExactly | src/core/wallet/executor/mod.rs:165-181 | a recovery submits the stored bytes on the stored route exactly for a pending or sent handle that has bytes, and changes nothing else |
| WalletExact.BeginCycleExactly | src/core/wallet/executor/mod.rs:187-195 | a pass begins exactly on consistent reads and a working allocator, remembers the head, and removes from the pool what the chain has mined and nothing else |
| WalletExact.AdvanceExactly | src/core/wallet/executor/mod.rs:215-232 | an advance stores the status its reads judge, Dropped for a cancelled replacement, and that alone; a settled handle loses its cached approval |
| WalletExact.PollExactly | src/core/wallet/executor/mod.rs:239-266 | inclusion records the hash, failure settles, anything else waits |
| WalletExact.BumpGoes | src/core/wallet/executor/mod.rs:380-444 | a stuck, approved, raisable transaction is submitted at the raised fees, publicly exactly once its private route has had its cycles, and recorded exactly when the network has it and the write succeeds |
| WalletExact.BumpRests | src/core/wallet/executor/mod.rs:380-411 | in every other case a bump does nothing |
| WalletPromises.ConfirmedForGood | src/core/wallet/executor/lifecycle.rs:96-99 | a step with that evidence confirms, and the handle never changes again until its id is created anew, which CreatedExactly characterises |
| WalletPromises.ReplacedCarriesHistory | src/core/wallet/executor/mod.rs:215-232 | a stored Replaced or Dropped has a final foreign stretch among its persisted observations; Dropped was marked cancelled |
| WalletPromises.UnsettledStatusMeaning | src/core/wallet/executor/mod.rs:215-232 | the status of an unsettled stored handle, read off its recorded observations |
| WalletPromises.BroadcastsAreOneTransaction | src/core/wallet/executor/mod.rs:380-444 | every recorded broadcast has the stored chain, nonce, gas limit, target, value and input, within the envelope; the last is what is stored |
| WalletPromises.BumpsAreBounded | src/core/wallet/executor/mod.rs:387-440 | the envelope bounds the bumps of any stuck transaction |
| WalletPromises.RoutesAreKept | src/core/wallet/executor/mod.rs:417-440 | a non-escalating handle stays on its route; an escalating one changes once, to public, after exactly max(cycles, 1) recorded private broadcasts |
| WalletPromises.SubmissionsFollowTheRoute | src/core/wallet/executor/mod.rs:165-181 | send, recover and cancel submit on the stored route; only a bump of an escalating handle may go public |
| WalletPromises.CancelsCanDisplace | src/core/wallet/transaction_manager.rs:386-393 | every cancel submitted has its target's chain, nonce and route, sends nothing to its own account at 21000 gas, and pays more than the stored fees |
| WalletPromises.SignaturesAreApproved | src/core/wallet/signing.rs:53-69 | every signature of a run covers a body built from an intent bound by an unexpired, admitting approval |
| WalletPromises.PersistedBeforeBroadcast | src/core/wallet/transaction_manager.rs:528-535 | what a send or recovery broadcasts was stored before, byte for byte, unsettled |
| WalletPromises.RefillAtMostOncePerCreation | src/core/wallet/executor/mod.rs:227-231 | refills of an id never outnumber its creations, and lag while it is unsettled |
| WalletPromises.RefillTakesALaterNonce | src/core/wallet/executor/mod.rs:271-289 | a refill follows a persisted replacement of a handle not marked cancelled, and its child's nonce is above every committed mined count, so later than the displaced one's, with another id |
| WalletPromises.RecordedHeadsAreSteady | src/core/wallet/executor/mod.rs:295-317 | while an executor lives, the observations recorded of a handle only grow and their heads never move back |
| WalletPromises.OwnSightSettlesStored | src/core/wallet/executor/mod.rs:215-232 | under unbroken sight of its own transaction and the depth rule, a stored handle is settled exactly when the last recorded head is deep enough |
| WalletPromises.ForeignSightSettlesStored | src/core/wallet/executor/mod.rs:215-232 | under unbroken foreign sight a stored handle ends replaced or dropped exactly when an observation followed the clock's start and the last recorded head is deep enough |
| WalletPromises.ForeignSpeaksOfOwnNonceIff | src/core/wallet/executor/mod.rs:333-336 | a foreign verdict compares the nonce of the handle's own broadcasts exactly when it was signed here; for a managed-relay handle it compares the forwarder's |
| WalletExamples.RelayedRequestIsRefilled | src/core/wallet/executor/mod.rs:333-336 | a relayed request that nothing displaced is sent again |
| WalletCreations.CreatedExactly | src/core/wallet/primitives/handle.rs:14-19 | an id is created in exactly four kinds of step: a send at the nonce it takes, a refill, a managed-relay handle, a known and recorded cancel |
| WalletCreations.NoSendOverwritesTheLive | src/core/wallet/transaction_manager.rs:221-226 | while nothing leaks, no send or refill writes over a handle whose nonce may have been live |
| WalletCreations.KnownCancelOverwrites | src/core/wallet/transaction_manager.rs:420-438 | a known cancel stores a handle on its target's chain, nonce and route that displaces it, over whatever was stored for the cancel of that nonce |
| WalletPolicy.StepKeepsPolicy | src/core/wallet/executor/mod.rs:409-479 | every approval in the cache and behind a signature is one the engine gave for what a path asks |
| WalletPolicy.EverySignatureIsPermitted | src/core/wallet/transaction_manager.rs:209-219 | in a run decided by the native engine, every signature of a send, refill, bump or cancel covers an intent the rules permit, within its fee caps and time to live |
| Cancellation.CancelAttempts | src/core/wallet/transaction_manager.rs:446-484 | a cancel submits at most twice, the second time only after an underpriced first, and succeeds exactly when the last is known accepted |
| Cancellation.CancelMarkExactly | src/core/wallet/transaction_manager.rs:399-441 | for every target, a cancel included: when the mark ends set, when the id is created anew, and what is submitted |
| Cancellation.LiveCancelIsMarkedIff | src/core/wallet/transaction_manager.rs:399-418 | a possibly live cancel leaves its target marked except exactly when the mark is taken back after an outcome not known accepted, or the cancel takes over the id of a target that is itself a cancel |
| Cancellation.MarkedStepIff | src/core/wallet/transaction_manager.rs:376-441 | one step keeps every possibly live cancel marked exactly when it takes no such mark back |
| Cancellation.MarkedRunIff | src/core/wallet/transaction_manager.rs:376-441 | the same over whole runs, as an equivalence |
| Cancellation.RefillMeansNoLiveCancel | src/facade.rs:402-406 | in a run that takes no such mark back, a refill means that no cancel of the displaced handle may be live |
| WalletExamples.LostCancelIsRefilled | src/core/wallet/transaction_manager.rs:411-418 | a cancel lost in transit is unmarked, mines, and its target is sent again |
| WalletExamples.SecondCancelUnmarksTheFirst | src/core/wallet/transaction_manager.rs:411-418 | a second cancel that cannot be priced takes back the mark of a live first one |
| Pipeline.TransactionManager.Send | src/core/wallet/transaction_manager.rs:175-227 | the pipeline refines the send step, and answers with a handle exactly when it made a submission that may be live |
| Pipeline.TransactionManager.BuildSignSubmit | src/core/wallet/transaction_manager.rs:487-565 | build, sign, persist, submit and conclude refine the step's tail |
| Pipeline.TransactionManager.PersistTask | src/core/wallet/transaction_manager.rs:244-268 | a managed-relay handle is stored unsigned under the relay's nonce |
| Pipeline.TransactionManager.BroadcastCancel | src/core/wallet/transaction_manager.rs:446-484 | the repricing loop is one attempt, or two when the first was underpriced |
| Pipeline.TransactionManager.Cancel | src/core/wallet/transaction_manager.rs:376-441 | flag, broadcast, un-flag or record refine the cancel step |
| Tracking.AccountExecutor.PendingIds | src/adapters/store/memory.rs:68-76 | lists the account's unsettled handles, each once |
| Tracking.AccountExecutor.Recover | src/core/wallet/executor/mod.rs:165-181 | the pass submits, in order, exactly the stored bytes of every pending or sent handle of the account that has them |
| Tracking.AccountExecutor.ReadCycle | src/core/wallet/executor/mod.rs:295-317 | accepted exactly on consistent reads, taken from them field by field; otherwise skipped or failed, and the head memory never moves back |
| Tracking.AccountExecutor.AdvanceOnChain | src/core/wallet/executor/mod.rs:215-232 | distil, transition, persist and settle refine the advance step |
| Tracking.AccountExecutor.PollTask | src/core/wallet/executor/mod.rs:239-266 | polling a task refines the step |
| Tracking.AccountExecutor.OnSettled | src/core/wallet/executor/mod.rs:271-289 | drops the cached approval and refills a displaced intent |
| Tracking.AccountExecutor.Confirm | src/core/wallet/executor/mod.rs:187-200 | the pass reconciles the allocator and advances each pending handle once, or gives up exactly on a failed read or reset |
| Tracking.CopiesStayCurrent | src/core/wallet/executor/mod.rs:196-198 | reading a handle again at its turn equals working on the copy listed when the pass began, for every transaction signed here |
| Tracking.AccountExecutor.BumpApproval | src/core/wallet/executor/mod.rs:450-479 | the approval used admits the bumped fees |
| Tracking.AccountExecutor.Bump | src/core/wallet/executor/mod.rs:380-444 | refines the bump step |
| Tracking.AccountExecutor.Escalate | src/core/wallet/executor/mod.rs:360-370 | the pass is one bump step per pending handle |
| Tracking.AccountExecutor.Tick | src/core/wallet/executor/mod.rs:155-159 | a tick is a run of steps over exactly the handles pending at each pass, so every promise over runs holds of ticks; what should be out at its start is rebroadcast, and nothing else is |
| Discovery.ScanFailsExactly | src/adapters/accounts.rs:185-240 | the one-index scan fails exactly when an index up to its stop does not derive |
| Discovery.LooksWhileGapFree | src/adapters/accounts.rs:215-231 | the scan looks at an index exactly when no whole gap lies before it |
| Discovery.FoundIffDiscoverable | src/adapters/accounts.rs:185-231 | an address is found exactly when some scheme has it used at an index no whole gap lies before |
| Discovery.FlagsMeaning | src/adapters/accounts.rs:211-236 | the bound flag exactly when some scheme has no whole gap before it, the partial flag exactly when some index looked at had an outage, the reported index the largest looked at |
| Discovery.ScannedToIsProbedIff | src/core/accounts/primitives.rs:235-236 | the reported index is the highest probed exactly when, of what the chains report, no whole gap lies before the bound's last index, or the first window is unused, or the last used index found ends its window |
| Discovery.ScannedToCanMissTheProbed | src/core/accounts/primitives.rs:235-236 | a scan that reports less than it probed |
| Discovery.HidingOnlyLoses | src/adapters/accounts.rs:199-231 | hiding usage never adds an account, never lengthens a scan and never makes it fail |
| Discovery.OutagesOnlyHide | src/adapters/accounts.rs:199-213 | the same for any failed batches of any chains |
| Discovery.DeriveWindow | src/adapters/accounts.rs:189-196 | derives a window or fails exactly when an index in it does not derive |
| Discovery.QueryWindow | src/adapters/accounts.rs:199-213 | unions usage over the chains and flags outages |
| Discovery.VisitWindow | src/adapters/accounts.rs:215-231 | visiting a window is the one-index scan over it, with the same stop |
| Discovery.ScanWindow | src/adapters/accounts.rs:188-239 | derive, query and visit together advance the one-index scan by one window |
| Discovery.DiscoverScheme | src/adapters/accounts.rs:186-239 | one scheme's windowed scan equals the one-index scan, and fails exactly when a needed window does not derive |
| Discovery.RankByIndex | src/adapters/accounts.rs:242-243 | the accounts sorted by index, one per address, nothing lost |
| Discovery.Discover | src/adapters/accounts.rs:174-250 | the whole discovery returns the accounts and flags of the one-index scan, for every gap limit, start and bound |
| Discovery.LookaheadCanOnlyFailPastTheStop | src/adapters/accounts.rs:189-196 | where the windowed scan fails and the one-index scan does not, exactly |
| Discovery.LookaheadCanFail | src/adapters/accounts.rs:189-196 | a windowed scan that fails where the one-index scan does not |

## Left out

- The transport, HTTP, ENS, multicall, read and pricing adapters, the facade, errors and logging: no rules of their own about transactions.
- The private relay and Gelato clients: a submission is an outcome class, a relay poll one of pending, included, failed.
- The PostgreSQL store: it follows the same compare-and-swap and overwrite contract as the two modelled stores.
- The WebAssembly and MoonPay policy plugins: any rule is a function from request to verdict.
- Key loading, mnemonics, ECDSA, keccak, RLP and EIP-712 encoding: hashes and encodings are injective constructors.
- Typed-data and message signing as operations, and building the forwarder request: only their place in the policy engine is modelled.
- Concurrent `send` or `cancel` on a handle that a tick is working on: the source gives no guarantee for it.
- 64-bit overflow of the allocator's counter, of depth plus one and of the scan's index arithmetic: integers there are unbounded; the 128-bit fee arithmetic is exact.
- A failed store write is taken to write nothing, and a failed listing of pending handles to end the pass before it begins.
- The text of a rejected submission's error: the stored reason is a constant.
- Several accounts in one store: the wallet model follows one account and its handles, besides managed-relay handles of any; the stores are modelled for many.
- Tracking.AccountExecutor.Confirm: each handle is read again when its turn comes, where the source works on copies listed at the start of the pass. By CopiesStayCurrent the two agree for every transaction signed here, in a pass that leaks no nonce; they can differ for a managed-relay handle whose id an earlier refill of the same pass takes.
- WalletPromises.RunKeepsNonces: assumes that terminal writes succeed; WalletPromises.RunIsSoundIff gives the exact condition and WalletExamples.LeakedNonceIsShared the failure without it.
