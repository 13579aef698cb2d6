# Aegis RWA ledger: a verified model

The Aegis contract keeps a ledger of one tokenised real-world asset: who administers it, who may
hold it, whether it may move, how much of it exists, and an event log that off-chain systems read.
This project models the whole contract as one state machine, proves what every run of it keeps, and
proves an imperative version of it, entry point by entry point, against that machine.

## How the model is laid out

| file | contents |
|---|---|
| Types, Storage | addresses, fixed-width integers, error codes, outcomes, events; the ledger entries as one `State` value |
| AccessControl, Lifecycle, TransitionGuards, Compliance, Issuance, Restrictions, Caps, Config, AssetOps, Eligibility | one module per source file: the checks of each entry point in the order the code makes them, the writes of a success, and the pre-flight evaluators |
| Contract | `Call`, `Invocation` (a call and its signers), `Guard` (how it ends), `Effect`, `Step`, `Run`, `Reachable` |
| Ledger | class `Ledger`: one field per storage entry, updated in place by one method per entry point, with the source's loops; `Invoke` is the host that rolls back failures |
| Sums, Invariants | the sum of a balance table; what every reachable state satisfies |
| AuditTrail, AuditExact | an auditor that sees only events, and the proof that it accepts exactly the logs the contract can produce |
| History | what the log alone proves about the past |
| Agreement, Batch, Refusals | pre-flight evaluators against enforcement; batches against single calls; refusals across the board |
| Precedence, Reports, Clearance | why any call fails, as one order of precedence over objections read off the ledger; what each report says; what a committed compliance call leaves behind |
| Frames, Custody, Governance, Recovery, Liquidity, Witnesses | what a step leaves alone; value over runs; cap governance; no lockout; which refusals are final; reachable counterexamples |

Conventions. An invocation ends in `Ok`, a typed `Err`, a `Panic` carrying a contract error code, or
a `Trap` carrying none (missing authorisation, checked-arithmetic overflow, a failed assertion).
`require_auth` is an input: the set of addresses that signed. Whatever is not `Ok` is rolled back by
the host. An entry that the code only reads with a default is stored as that default. Balances and
supply are unbounded integers whose additions are range-checked as `overflow-checks = true` makes
them (Cargo.toml:19); that they stay within i128 is proved, not assumed. Everything that a run can
reach starts from `Initial()`, the freshly deployed contract, and goes on by any invocation with any
arguments and any signers.

The auditor (`Legal`, `Apply`, `Replay` in AuditTrail) is an independent description of the
contract: its rules read the events and the state replayed so far and never mention an entry point,
a check order or an error code. `AuditIsExact` connects the two in both directions, so a write that is
wrong, missing or under the wrong condition on either side breaks a proof.

The outcomes have an independent description too. Precedence lists every objection to a call under
the number a client sees, from the ledger and the call alone and in no order, and one ranking of all
of them. `FirstObjectionDecides` proves that a call succeeds iff nothing objects and otherwise fails
with the objection ranked first, for every entry point; a batch is reduced to its rows by
`BatchAgreement`. `StepEvents` does the same for effects: a successful call appends exactly the events
it announces, and applying them gives the new ledger.

## Where the documentation and the code disagree

The model follows the code. Each line names the lemma that states what does hold.

- The evaluators and the transfer eligibility check are documented never to panic
  (src/restrictions.rs:19, 209, 255; src/eligibility.rs:93-95). The additions in their cap checks can
  overflow. `TransferEvaluatorTrapsIff` and `MintEvaluatorTrapsIff` give the exact conditions,
  `TransferEvaluatorCanTrap` and `MintEvaluatorCanTrap` a reachable ledger.
- A pre-flight reason is documented to be the reason the revert reports (src/restrictions.rs:45-49).
  Enforcement reports finer codes for Pending and Blocked parties, and the mint evaluator ignores the
  separation policy. `TransferCodeExact` and `MintCodeExact` give the exact conditions;
  `PendingSenderMisannounced`, `BlockedRecipientMisannounced` and `SeparationPreemptsAmount` are
  reachable ledgers.
- An allowed mint can still trap, because no evaluator checks that the supply fits:
  `AllowedMintCanTrap`, with the exact condition in `MintTrapsIff`.
- A refusal by the separation check is documented to guarantee a mint that reverts with its code
  (src/issuer.rs:481-483). It does iff the contract is not paused: `IssuanceCodeExact`,
  `PausePreemptsSeparation`.
- Only retirement is documented as terminal, every other reason as recoverable
  (src/restrictions.rs:96-100). An amount that is not positive never recovers, a pause (for a mint,
  also a missing role) hides a retirement, and a mint beyond the range of the supply never becomes
  possible: `TransferTerminalExact`, `MintTerminalExact`, `ZeroNeverRecovers`, `RetirementHiddenByPause`.
- `can_receive` is documented for a transfer or mint of one unit (src/eligibility.rs:44-46). For a
  mint the supply decides too: `MintEligibility`, `ReceiverWithoutMint`.
- The active admin's table entry is listed as always being Admin (docs/storage-audit-map.md:125).
  `set_role` and `remove_role` can be aimed at the admin itself: `AdminEntryIntactIff`,
  `AdminEntryOverwritten`. The admin keeps every duty all the same; what the checks rely on is the other
  direction, that nobody but the admin has it (`ReachableInv`).
- Renouncing is called irreversible (src/admin.rs:264, docs/admin-roles.md:61) and
  `contract_initialized` is said to be emitted exactly once (docs/events.md:220). `initialize` only
  tests for a stored admin, which renouncing removes: `RenunciationIsReversible`,
  `InitialisedOncePerRenunciation`.
- Renouncing does not withdraw an outstanding admin offer, so a handoff can answer the offer of an
  earlier admin: `StaleOfferAccepted` is a reachable ledger, `HandoffWasOffered` the exact condition.
- docs/events.md:42 lists `admin_transferred` for `renounce_admin`; the code emits only
  `admin_renounced` (src/admin.rs:278-284).
- The contract's API page says that any administrative call before initialisation reverts with
  NotInitialized. `accept_admin` looks at the candidate first: `UninitialisedRefusal`,
  `AcceptanceBeforeInitialisation`.
- The same page, and the comment at src/admin.rs:294, say that state-changing calls are blocked
  while the contract is paused. `PausedRefusal` lists the calls that do not, `PausedStep` what they can
  still change; `RetirementHiddenByPause` is such a run.
- The compliance guard documents initialisation before the pause (src/compliance_guards.rs:213-217)
  and codes the pause first. The verdicts differ only in a state no run reaches:
  `DocumentedOrderAgrees`.
- The comments on the cap checks name codes 7004 and 7003 (src/supply_cap.rs:49, src/holding.rs:51);
  the codes are 5002 and 5003 (src/errors.rs:71-73), and the model uses these.
- docs/error-codes.md:65-69 gives 6001 for a refused lifecycle move, 6002 for blocked metadata, and 7002
  for Blocked only; the code raises 6004, 6006, and 7002 for Draft as well. Code 2001 is also raised
  for a missing configuration proposal and 5000 for a malformed one, and the cap entry points abort
  without a number (docs/error-codes.md:8-16 says that calls now revert with one):
  `FirstObjectionDecides`.

## Model

| member | source | states |
|---|---|---|
| Invariants.ReachableInv | src/asset.rs:236-312 | every reachable ledger: balances non-negative and summing exactly to a supply within i128; a stored Admin role only on the current admin; paused implies an admin; caps and candidates non-negative, a pending cap differing from the active one; active and pending config valid; whitelist flag mirrors Approved, Approved has a recorded approver, no stored status is Unknown |
| Invariants.StepKeepsInv | src/lib.rs:59-115 | the same invariant is kept by every invocation, whoever signs it and however it ends |
| Invariants.TransferNeverOverflows | src/asset.rs:289-308 | conservation alone rules out overflow in both the debit and the credit, also when sender and receiver are one |
| AuditTrail.StepEvents | docs/events.md:36-70 | a successful call appends exactly the events announced for it, and unless it is a cancellation these are legal one after another and rebuild its whole effect |
| AuditExact.AuditIsExact | docs/events.md:36-70 | a log passes the event rules if and only if some reachable ledger has exactly that log |
| AuditExact.LogRebuildsLedger | src/compliance.rs:203-247 | replaying the committed log from deployment rebuilds every entry of the ledger (balances, supply, statuses, flags, approvers, roles, admin, status, policy, active caps and config), only cancelled proposals excepted |
| AuditExact.LogHasRun | docs/events.md:36-70 | for a log that passes, one invocation per event reproduces the log and ends in exactly the replayed state |
| AuditExact.EventCaused | docs/events.md:36-70 | each legal event in a sound state is what one invocation, signed by the address the event names, does there |
| History.FourEyes | src/issuer.rs:331-340 | every committed mint was preceded by an approval of its recipient, and under an enforced independent-approver policy the latest one was by somebody other than the minter |
| History.ApproverIsLatest | src/issuer.rs:208-212 | the approver record is the caller of the latest event that moved the address into Approved |
| History.MintsFollowRules | src/asset.rs:199-265 | every mint in the log obeyed every control in force at its point of the log: pause, authority, separation, amount, status, clearance, both caps, range of the supply |
| History.Quarantine | src/compliance.rs:140-157 | between entering Blocked and any later approval, by whichever entry point, lies a Blocked-to-Pending event whose caller was then the admin |
| History.StatusChain | src/compliance.rs:140-157 | the changes of one address form a chain along the matrix that begins at Unknown and never returns to it |
| History.LegacyEventsAreTruthful | src/compliance.rs:433-499 | when a legacy whitelisted (revoked) event is emitted the address then is (is not) Approved, whether or not the call moved it |
| History.BalancesFromEvents | src/lib.rs:147-160 | a balance is what was minted to and received by the address minus what it sent; the supply is all that was minted |
| History.InitialisedOncePerRenunciation | src/lib.rs:127-144 | the contract has been initialised once per renunciation, and once more if it has an admin now |
| History.AdminFromEvents | docs/events.md:213-218 | the admin lifecycle events alone determine the admin |
| History.HandoffWasOffered | src/admin.rs:222-261 | every handoff answers the standing offer, made to the new admin by the admin of that time; it is the outgoing admin's own offer iff no other address was the last to initialise since the offer, in particular if nobody renounced |
| History.AdminEntryIntactIff | src/admin.rs:129-187 | the active admin's table entry is Admin iff no role event has targeted that admin since the seat was last taken |
| Agreement.TransferAgreement | src/restrictions.rs:213-248 | on every reachable ledger a signed transfer ends exactly as the evaluator announces, traps included, refined only by Pending and Blocked; 7000, 7001 and 7002 stand for Paused, Retired, and Draft or Blocked |
| Agreement.TransferEvaluatorTrapsIff | src/restrictions.rs:213-248 | the transfer evaluator traps iff everything before the cap check passes, a holding cap is active and its addition overflows |
| Agreement.TransferCodeExact | src/restrictions.rs:113-128 | a refused transfer fails with the announced code iff the first non-compliant party is neither Pending nor Blocked |
| Agreement.MintAgreement | src/asset.rs:199-252 | on every reachable ledger a signed mint ends as the two evaluators together announce: the first failure in pause, role, separation, amount, lifecycle, clearance, supply cap, holding cap; each separation code stands for its own rule of the policy |
| Agreement.MintSucceedsIff | src/restrictions.rs:256-294 | while the new supply fits i128 a signed mint succeeds iff both evaluators allow it, and the evaluator does not trap |
| Agreement.MintEvaluatorTrapsIff | src/restrictions.rs:256-294 | on reachable ledgers the mint evaluator traps iff everything before the caps passes, the new supply does not fit, and either a supply cap is active or a holding cap is and the new balance does not fit |
| Agreement.MintTrapsIff | src/asset.rs:241-252 | a signed mint traps on arithmetic iff it passes every check before the caps and the new supply does not fit, unless the holding cap refuses it first |
| Agreement.MintCodeExact | src/restrictions.rs:256-294 | the announced code of a refused mint is the code of the failure iff pause, role or an allowed separation decides and the recipient is neither Pending nor Blocked |
| Agreement.IssuanceCodeExact | src/issuer.rs:386-401 | on reachable ledgers a signed mint that the separation check refuses fails with the announced code iff the contract is not paused |
| Agreement.DutiesAreEnforced | src/issuer.rs:84-136 | on every reachable ledger the four duties coincide with the checks enforced elsewhere, and only the admin holds both issuance and compliance |
| Agreement.DutiesDecideSuccess | src/issuer.rs:84-136 | pausing, unpausing, policy changes and yield succeed for a signer iff it has the duty and the remaining conditions hold |
| Agreement.ClearanceDecided | src/compliance_guards.rs:191-209 | a signed status change succeeds iff the caller has the compliance duty (governance out of Blocked), nothing is paused, and the matrix allows it |
| Agreement.GuardAgreement | src/compliance_guards.rs:274-325 | the pre-flight check predicts success, the exact error code, and whether a signed submission panics or returns an error; both follow the ledger: pause, admin, authority, a change of nothing, the matrix |
| Agreement.DocumentedOrderAgrees | src/compliance_guards.rs:213-271 | the documented and the coded check order give the same verdict iff the contract is not paused without an admin, which no run reaches |
| Agreement.LegacyAgreement | src/compliance.rs:433-499 | the legacy wrappers follow the verdict of the common guard and tolerate exactly the no-ops |
| Agreement.EligibilityAgreement | src/eligibility.rs:58-109 | the sender may send and the receiver may receive iff a transfer of one unit is unrestricted, also to oneself |
| Agreement.MintEligibility | src/eligibility.rs:58-89 | some signed mint to an address succeeds iff it may receive, the caller may issue to it, and the supply has room for one unit under its cap and within i128 |
| Agreement.TransferEligibilityAgreement | src/eligibility.rs:107-109 | the boolean verdict is true, false or missing exactly when the signed transfer succeeds, fails with a code, or traps |
| Agreement.RemainingCapacityIsExact | src/eligibility.rs:58-89 | under an active cap the reported capacity is exactly the largest amount the holding check passes |
| Batch.BatchAgreement | src/compliance.rs:385-413 | a signed, non-empty batch commits iff every pre-flight row is allowed; otherwise it fails as the first row that is not would fail on its own (4006 for a repeated user), with the announced code |
| Batch.EmptyBatch | src/compliance.rs:385-413 | an empty batch by anyone succeeds and changes nothing, except that it fails while paused |
| Batch.BatchIsSequence | src/compliance.rs:396-410 | a batch that commits ends in the state, log included, of its rows submitted one by one |
| Batch.BatchInAnyOrder | src/compliance.rs:396-410 | the rows submitted one by one in any order all succeed and end in that same state, up to the order of the log |
| Batch.BatchLog | src/compliance.rs:376-384 | one event per row, in input order, each carrying the status the row started from |
| Refusals.UnsignedRefusal | src/asset.rs:199-201 | no call of any kind commits without its caller's authorisation |
| Refusals.PausedRefusal | src/admin.rs:13-27 | with an admin, a paused contract refuses with ContractPaused exactly the calls that the pause gates |
| Refusals.UninitialisedRefusal | src/admin.rs:76-81 | on reachable ledgers without an admin, a signed call fails with NotInitialized iff it is one that asks for the admin |
| Precedence.FirstObjectionDecides | docs/error-codes.md:40-79 | on reachable ledgers every call but a batch succeeds iff no objection holds, and fails with the first in one contract-wide order of precedence; its number, and whether it panics or returns, are determined by the objection, and no two objections to a call tie |
| Precedence.AssetCode | src/asset.rs:123-133 | the lifecycle check raises 7000's error iff Paused, 7001's iff Retired, 7002's iff Draft or Blocked |
| Precedence.SeparationCode | src/issuer.rs:281-357 | for whoever may issue, the separation check raises duty conflict, self-issuance or approver conflict in this order, each iff its rule of the policy is broken; without a recipient only the first |
| Reports.TransferReasons | src/restrictions.rs:213-248 | every reason a transfer can be announced as refused for, and exactly when |
| Reports.MintReasons | src/restrictions.rs:256-294 | on reachable ledgers, every reason a mint can be announced as refused for, and exactly when |
| Reports.ReasonCodes | src/restrictions.rs:113-128 | the number each reason is announced under, and no other reason has it |
| Reports.SeparationReasons | src/issuer.rs:301-343 | on reachable ledgers, each verdict of the separation check and exactly when, with and without a recipient |
| Reports.SeparationCodes | src/issuer.rs:281-290 | the number each separation verdict is announced under, and no other verdict has it |
| Reports.TransitionReport | src/compliance_guards.rs:274-292 | every field of the pre-flight report: whom and what it is about, each verdict and exactly when, its number |
| Reports.RowReport | src/compliance_guards.rs:365-386 | a batch row reports what the change alone would, unless its user came up before: then refused with 4006 |
| Reports.SnapshotReport | src/eligibility.rs:58-89 | the eligibility snapshot agrees with the ledger and with what the log tells (balance, cap), its capacity completes the balance to the cap, and a pause or an inactive asset means that no mint or transfer has any effect |
| Clearance.WhitelistCommitted | src/compliance.rs:433-456 | after a committed legacy approval the user is Approved and whitelisted, the approver is the caller iff the call approved it, nothing else moved, and the log grew by the change, if any, and the legacy event |
| Clearance.RevocationCommitted | src/compliance.rs:477-499 | after a committed legacy revocation Pending and Approved are Revoked and other statuses stay, the approver record stays, nothing else moved, and the log grew by the change, if any, and the legacy event |
| Clearance.ChangeCommitted | src/compliance.rs:358-372 | after a committed status change the user has the requested, different status, the flag and approver follow, nothing else moved, and one event was logged |
| Custody.StepMovesBalance | src/asset.rs:269-318 | a step lowers a balance only by a transfer its owner signed, raises it only as mint or transfer recipient, and only while Approved, Active and not paused |
| Custody.StepMovesSupply | src/asset.rs:249-252 | supply never falls and grows only by a mint, by the minted amount |
| Custody.SupplyOnlyGrows | src/asset.rs:249-252 | over every run supply never falls |
| Custody.FrozenBalance | src/compliance.rs:292-311 | over a run segment in which an address is never Approved its balance is constant |
| Custody.NoDebitWithoutSignature | src/asset.rs:269-271 | over every run without an address's signature its balance never falls |
| Custody.RetiredForever | src/lifecycle.rs:92-110 | once retired, status, supply and every balance are fixed over every run and neither evaluator ever allows a movement again |
| Custody.StepWithinCaps | src/holding.rs:62-77 | under an active cap no step takes a balance (supply) above the larger of its old value and the cap |
| Custody.HoldingEnvelope | src/holding.rs:62-77 | a balance within an unchanged holding cap stays within it over every run |
| Custody.SupplyEnvelope | src/supply_cap.rs:56-71 | a supply within an unchanged cap stays within it over every run |
| Custody.PausedStep | src/lifecycle.rs:139-183 | while paused, a step other than unpause changes nothing, or is the admin's signed move of the asset status away from Active |
| Custody.PauseFreeze | src/admin.rs:299-337 | between a pause and the next unpause only the asset status changes, never to Active, and the log grows only by such events of the admin |
| Custody.PausedHasAnAdmin | src/admin.rs:266-313 | a reachable paused contract has an admin, although initialize has no pause check |
| Governance.CapFollowsGovernance | src/supply_cap.rs:96-182 | over every run: acceptances and cancellations directly follow a proposal, the active cap is the latest uncancelled proposal before the latest acceptance, the candidate is the proposal still standing, and no proposal equals the cap then active |
| Governance.ConfigFollowsGovernance | src/config.rs:60-158 | over every run the same for the configuration: the active one is the latest uncancelled proposal before the latest acceptance (no minimum and 100 rows before any), the candidate is the proposal still standing, and no malformed proposal is recorded |
| Governance.AmendmentsChain | src/holding.rs:136-168 | each amendment event starts from the value of the one before, changes it, and takes the value of the proposal event directly before it |
| Governance.ActiveCapIsLatestAmendment | src/supply_cap.rs:130-161 | the active cap is the value of the latest amendment event |
| Governance.CancellationIsSilent | src/supply_cap.rs:167-182 | a cancellation clears the candidate and leaves the log unchanged, which is why the log cannot tell pending proposals |
| Recovery.NoLockout | src/issuer.rs:36-38 | from every reachable ledger that is not retired, the admin alone (after a renunciation: anyone) has a run of its own signed calls after which its mint of any positive amount the supply has room for, to anyone, succeeds and adds exactly that amount |
| Recovery.MintStillPossibleIff | src/asset.rs:199-265 | some run can still mint an amount to an address iff the amount is positive, the asset is not retired and the supply has room |
| Liquidity.TransferStillPossibleIff | src/restrictions.rs:96-103 | some run can still transfer an amount between two given addresses iff the amount is positive and the asset is not retired, whatever balances, supply, caps, statuses and pause are now |
| Liquidity.TransferTerminalExact | src/restrictions.rs:96-103 | the announced reason is terminal exactly when the transfer can never succeed, iff the amount is positive and no pause hides a retirement |
| Liquidity.MintTerminalExact | src/restrictions.rs:96-103 | the same for mints, where the supply must also have room and a missing role hides a retirement too |
| Recovery.RenunciationIsReversible | src/admin.rs:266-287 | after a renunciation any signer can initialise again and become admin; initialise succeeds iff no admin is stored |
| Witnesses.AllowedMintCanTrap | src/restrictions.rs:256-294 | a reachable ledger on which both evaluators allow a mint that traps |
| Witnesses.TransferEvaluatorCanTrap | src/restrictions.rs:213-248 | a reachable ledger on which the transfer evaluator, and with it the eligibility check, traps |
| Witnesses.MintEvaluatorCanTrap | src/restrictions.rs:256-294 | a reachable ledger on which the mint evaluator traps |
| Witnesses.PendingSenderMisannounced | src/compliance.rs:304-311 | a reachable ledger on which a transfer is announced as refused with 4000 and fails with 4004 |
| Witnesses.BlockedRecipientMisannounced | src/compliance.rs:292-299 | a reachable ledger on which a mint is announced as refused with 4001 and fails with 4003 |
| Witnesses.SeparationPreemptsAmount | src/issuer.rs:301-357 | a reachable ledger on which a mint is announced as refused with 5000 and fails with 3007 |
| Witnesses.PausePreemptsSeparation | src/issuer.rs:479-483 | a reachable ledger on which the separation check announces 3000 and the mint fails with 3004 |
| Witnesses.ReceiverWithoutMint | src/eligibility.rs:58-89 | a reachable ledger on which an investor may receive and nobody can mint to it |
| Witnesses.RetirementHiddenByPause | src/restrictions.rs:96-103 | a reachable ledger, retired while paused, that announces a recoverable reason for a transfer that can never succeed |
| Witnesses.ZeroNeverRecovers | src/restrictions.rs:96-103 | a zero transfer on a fresh contract is announced as recoverable and can never succeed |
| Witnesses.StaleOfferAccepted | src/admin.rs:266-287 | a reachable ledger whose latest handoff answered the offer of an admin who had renounced since |
| Witnesses.AdminEntryOverwritten | src/admin.rs:129-156 | a reachable ledger whose active admin holds another role in the table |
| Witnesses.AcceptanceBeforeInitialisation | src/admin.rs:222-235 | accepting the seat of a fresh contract fails with the missing-offer error |
| Lifecycle.TransitionTable | src/lifecycle.rs:92-110 | the status table in rules: Retired is final, Draft never returns, any other status can become Active, only Active and Paused can be suspended, blocked or retired |
| TransitionGuards.TransitionMatrix | src/compliance.rs:140-157 | the matrix in rules: no self-moves, never to Unknown, out of Blocked only to Pending, Unknown is never revoked |
| Restrictions.ReasonsRoundTrip | src/restrictions.rs:113-151 | reasons and errors are mapped to each other without loss in both directions |
| AssetOps.MintGuardIff | src/asset.rs:199-252 | the conditions of a successful mint, free of any order |
| AssetOps.TransferGuardIff | src/asset.rs:269-312 | the conditions of a successful transfer, free of any order |
| LedgerObject.AllowedTransitions | src/compliance.rs:160-176 | the loop returns exactly the statuses one allowed move away, each once, in declaration order |
| LedgerObject.DutiesOfRole | src/issuer.rs:99-114 | the loop returns exactly the duties of a role, each once, in declaration order |
| LedgerObject.HasDuplicateUser | src/compliance.rs:267-276 | the loop finds whether an earlier row names the same user |
| LedgerObject.Ledger.constructor | src/lib.rs:59-115 | a fresh ledger has every entry at its absent-key default, and satisfies the invariant |
| LedgerObject.Ledger.Initialize | src/lib.rs:127-144 | ends as its guard says; success seats the admin and its role, failure changes nothing |
| LedgerObject.Ledger.SetRole | src/admin.rs:129-156 | ends as its guard says; success assigns one role, failure changes nothing |
| LedgerObject.Ledger.RemoveRole | src/admin.rs:161-187 | ends as its guard says; success clears one role and logs the old one, failure changes nothing |
| LedgerObject.Ledger.TransferAdmin | src/admin.rs:197-217 | ends as its guard says; success records the candidate, failure changes nothing |
| LedgerObject.Ledger.AcceptAdmin | src/admin.rs:222-261 | ends as its guard says; success moves the seat and the Admin role and clears the candidate, failure changes nothing |
| LedgerObject.Ledger.RenounceAdmin | src/admin.rs:266-287 | ends as its guard says; success empties the seat and leaves the candidate, failure changes nothing |
| LedgerObject.Ledger.Pause | src/admin.rs:299-313 | ends as its guard says; success pauses, failure changes nothing |
| LedgerObject.Ledger.Unpause | src/admin.rs:319-337 | ends as its guard says; success unpauses, failure changes nothing |
| LedgerObject.Ledger.UpdateAssetMetadata | src/asset.rs:161-194 | ends as its guard says; success replaces the three strings and nothing else, failure changes nothing |
| LedgerObject.Ledger.MintAsset | src/asset.rs:199-265 | ends as its guard says; every coded failure leaves the ledger untouched, and only the trap of the supply addition leaves a credited balance behind |
| LedgerObject.Ledger.CreditMint | src/asset.rs:236-265 | the in-place credit and supply update: the two range checks, the whole new state of a success, and what each trap leaves behind |
| LedgerObject.Ledger.Transfer | src/asset.rs:269-318 | ends as its guard says, which under conservation is the outcome of the checks alone; every failure leaves the ledger untouched |
| LedgerObject.Ledger.MoveBalance | src/asset.rs:289-318 | the in-place debit then credit, the receiver's balance read after the debit, and what each trap leaves behind |
| LedgerObject.Ledger.DistributeYield | src/asset.rs:323-351 | ends as its guard says; success only logs, failure changes nothing |
| LedgerObject.Ledger.SetAssetStatus | src/lifecycle.rs:139-183 | ends as its guard says, the pause gating moves to Active only; success replaces the status, failure changes nothing |
| LedgerObject.Ledger.WriteStatus | src/compliance.rs:203-217 | writes the status and keeps the legacy flag equal to Approved |
| LedgerObject.Ledger.ApplyTransition | src/compliance.rs:221-247 | the whole effect of a status change: status, flag, approver on the way into Approved, one event |
| LedgerObject.Ledger.SetComplianceStatus | src/compliance.rs:358-372 | ends as its guard says; success is one status change, failure changes nothing |
| LedgerObject.Ledger.BatchSetComplianceStatus | src/compliance.rs:385-413 | the two passes end as the batch guard says; success applies every row in order and returns their number, failure changes nothing |
| LedgerObject.Ledger.WhitelistUser | src/compliance.rs:433-456 | ends as its guard says; success leaves the user Approved and the legacy event last in the log, failure changes nothing |
| LedgerObject.Ledger.RevokeWhitelist | src/compliance.rs:477-499 | ends as its guard says; success leaves the user neither Pending nor Approved and the legacy event last in the log, failure changes nothing |
| LedgerObject.Ledger.CheckComplianceBatch | src/compliance_guards.rs:345-386 | the loop reports one row per update, in input order, with repeated users patched to refused |
| LedgerObject.Ledger.SetIssuerSeparationPolicy | src/issuer.rs:425-451 | ends as its guard says, never gated by the policy itself; success replaces the policy, failure changes nothing |
| LedgerObject.Ledger.ProposeCap | src/supply_cap.rs:96-124 | ends as its guard says; success records the candidate only, failure changes nothing |
| LedgerObject.Ledger.AcceptCap | src/holding.rs:136-168 | ends as its guard says; success promotes and clears the candidate, failure changes nothing |
| LedgerObject.Ledger.CancelCap | src/supply_cap.rs:167-182 | ends as its guard says; success clears the candidate and logs nothing, failure changes nothing |
| LedgerObject.Ledger.ProposeConfig | src/config.rs:60-93 | ends as its guard says, malformed configurations refused; success records the candidate only, failure changes nothing |
| LedgerObject.Ledger.AcceptConfig | src/config.rs:98-133 | ends as its guard says; success promotes and clears the candidate, failure changes nothing |
| LedgerObject.Ledger.CancelConfig | src/config.rs:138-158 | ends as its guard says; success removes the pending proposal and logs nothing, failure changes nothing |
| LedgerObject.Ledger.Administrate | src/admin.rs:129-337 | every failure of an administrative entry point leaves the ledger untouched even before any rollback |
| LedgerObject.Ledger.Operate | src/asset.rs:161-351 | every failure of an asset entry point leaves the ledger untouched even before any rollback, a mint's arithmetic trap alone excepted |
| LedgerObject.Ledger.Comply | src/compliance.rs:358-499 | every failure of a compliance entry point leaves the ledger untouched even before any rollback |
| LedgerObject.Ledger.Govern | src/supply_cap.rs:96-182 | every failure of a policy, cap or config entry point leaves the ledger untouched even before any rollback |
| LedgerObject.Ledger.Invoke | src/lib.rs:118-166 | the object makes exactly the steps of the state machine, with the host's rollback, and keeps the invariant |

## Left out

- The capability descriptors (src/capabilities.rs): constant tables and key lookups.
- Any effect of `min_transfer_amount` and `max_batch_size`: only src/config.rs reads them, so they gate nothing; the model keeps them as governed values.
- The thin read entry points and record-building views (`get_*`, `is_whitelisted`, schema versions, `check_issuance`): they return a storage entry or wrap an evaluator that is modelled.
- Unused functions: `transition_is_valid` (src/asset.rs:86), `require_asset_operable` (src/lifecycle.rs:80), `require_any_role` (src/admin.rs:109).
- The Soroban host: signature checking, authorisation trees, storage classes and rent, XDR encoding, logging, the u32 bound on vector lengths. Authorisation is an input and rollback is `Invoke`.
- src/holding.rs and src/supply_cap.rs hold the same three governance entry points; they are one method each, taking a `CapKind`.
- LogRebuildsLedger: a pending cap or config proposal is rebuilt only up to cancellation, because cancelling emits no event; CancellationIsSilent shows that no reading of the log could do better.
- The off-chain projection of holders from the legacy events alone: only that each legacy event is truthful when emitted is proved.
- LedgerObject.Ledger.Comply: drops the row count of a batch, which BatchSetComplianceStatus itself states.
