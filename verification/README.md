# Live OS: verified models of the ledger, voting, event-chain and procurement cores

This project models the services that decide who holds credits, who is admitted, what is bought and what the public
event ledger says, and proves what every run of them keeps. The application keeps its state in database tables and runs
each service in one transaction, so the models follow one pattern:

* a **value model** (`CreditLedger`, `Voting`, `Procurement`, `RoleLifecycle`): the committed tables as one value, and
  every service as a function to the next tables and an outcome, in which a refusal leaves the tables as they were;
* **run theorems** about any sequence of these steps (`CreditRuns`, `CreditOrders`, `Voting`, `VotingExecution`,
  `ProcurementSafety`, `RoleLifecycle`, `EventAppend`);
* **effects** (`CreditEffects`, `ProcurementEffects`, and in `Voting` and `VotingExecution`): what a caller of one service
  may rely on, said without its branches;
* **service classes** (`CreditService`, `VotingService`, `ProcurementService`, `RoleService`, `EventAppend.EventTable`,
  `Selector.EvidenceLog`) that update the tables step by step, with savepoints where the code has them. The invariant of
  the run theorems is their `Valid()`: every public method requires it, keeps it, takes the modelled step and has the
  stated effect. Methods named `..Locked` and the like work inside such a call, where tables may disagree for a while.

| file | subject |
|---|---|
| `Common.dfy`, `Json.dfy` | shared values: options, blank stripping, JSON values |
| `CreditLedger.dfy`, `CreditEffects.dfy`, `CreditService.dfy` | double-entry credit ledger, task budgets, redemption orders |
| `CreditConservation.dfy`, `CreditRuns.dfy`, `CreditOrders.dfy` | conservation, replay, reversals, budgets, frozen credits |
| `CreditKeys.dfy` | made-up keys never collide; a used key tells its call |
| `CreditFailures.dfy` | runs from empty books to the states in which a promise about credits fails |
| `Selector.dfy`, `Tally.dfy` | selector language with evidence; eligibility and the count of ballots |
| `Voting.dfy`, `VotingExecution.dfy`, `VotingService.dfy` | life of an admission proposal: freezing, ballots, resolution, execution |
| `PublicPayload.dfy`, `EventChain.dfy`, `EventAppend.dfy` | payload validator, hash chain, concurrent appenders |
| `Procurement.dfy`, `ProcurementSafety.dfy`, `ProcurementEffects.dfy`, `ProcurementService.dfy` | tiered approval, offers, receipt, stock, credentials |
| `RoleLifecycle.dfy`, `RoleProjection.dfy`, `RoleService.dfy` | role assignments, covenanter numbers, projected tuples |
| `PlanTree.dfy`, `PlanGroups.dfy` | grouping of plan nodes under their nearest stage |

`dafny verify dfyconfig.toml` checks the whole project.

## What the code does not keep, and exactly when it does

* Two orders closed under one caller-supplied key can post one row for both. Closing keeps FROZEN equal to the open
  orders if and only if the closing row is not already posted under the key (`CloseKeepsFrozenIff`,
  `SharedCancelKeyFails`); default keys never clash (`DefaultKeysKeepFrozen`). `SharedCancelKeyRun` starts from empty
  books and ends with an amount frozen for no order.
* A keyed reversal whose key is in use posts nothing and re-points the earlier reversal. A reversal undoes its original
  if and only if its key was unused (`ReversalUndoesIffKeyUnused`, `SharedReversalKeyFails`, `SharedReversalKeyRun`).
* Reversal rows carry no task. Reversing keeps TASK_LOCKED equal to the sum over tasks if and only if the original left
  that account alone (`ReversalKeepsSplitIff`, `ReversedLockRun`).
* Finalizing at or after the deadline leaves voting if and only if every snapshot member with a ballot can be checked:
  reachable, and, if active and not excluded, under a selector that still validates (`FinalizeLeavesVotingIff`). A rule
  naming a professional domain that is archived during voting blocks it (`ArchivedDomainRun`).
* An executed admission leaves the applicant with a covenanter number but not always with a term in force. The conflict
  check looks at the coming year only, and the role service returns any active assignment that has not ended. The
  applicant holds a term in force if and only if no active one begins a year or more from now
  (`ExecutionAdmitsApplicant`); `FutureTermRun` ends executed and admitted without one.
* The policy text says that any one of governance or finance may approve a single-tier purchase
  (core/proposal_services.py:10); the ordering guards refuse finance until governance has approved
  (`SingleTierNeedsGovernance`). The model follows the guards.
* The whole-chain verifier and the single-event check agree on a verified chain exactly at dict payloads
  (`LocalAcceptsIffDict`), and on events that pass the single check exactly when all payloads are dicts
  (`ChainAcceptsIffDicts`). An empty list as payload gives a table for each check that it passes and the other refuses
  (`FalsyPayloadSplitsChecks`).
* The actor columns of public events are outside their hash (`ActorCoveredIffLegacy`).

## Modelling decisions

* Row identifiers are positions in their table. Generated order ids are fresh values, and the digest of an idempotency
  key is represented by the key itself, so distinct keys give distinct order ids.
* The event hash is any injective function on JSON values with non-empty results, passed as a parameter; Python's `str`
  on non-string JSON values is another parameter. JSON objects are unordered, as in section 4 of RFC 8259.
* Clocks, permissions, authority, reachability of the authorization service, merchants' current rates, the standing of
  members and the exceptions that strike the admission adapter are inputs of each step and may change arbitrarily between
  steps. Role assignments are part of the case: others may create and revoke them between any two steps.
* An exception of the adapter is a domain error, which is recorded as a failed execution, or any other, which undoes the
  whole call.
* Decimal quantities and amounts are reals. Text enumerations are datatypes, so the refusals of unknown transaction,
  item and offer types, roles and ballot choices have no counterpart.
* `TotalIgnoresReversalLinks` and the lemmas built on it treat all rows as posted: no service sets the void status.

## Model

| member | source | states |
|---|---|---|
| CreditLedger.NormaliseIdempotent | core/credit_services.py:63-67 | normalising a key twice gives the same key, so posting may normalise again what its callers did |
| Common.StripTakesBlanks | core/credit_services.py:63-67 | stripping takes blanks off both ends and nothing else; nothing is left exactly of a text that is all blanks |
| CreditLedger.KeyIsTrimmed | core/credit_services.py:63-67 | a key is what stands between surrounding blanks; a missing or blank one is none |
| CreditService.CreditTables.PostCreditTransaction | core/credit_services.py:232-332 | under a free key a positive amount goes from source to target and nothing else moves; under a used key nothing is posted and only the row that made the same movement can be returned |
| CreditService.CreditTables.IssueCreditsToPool | core/credit_services.py:345-365 | keeps the laws; a positive amount enters the issuance pool from nowhere, exactly when the pool exists |
| CreditService.CreditTables.LockTaskCreditBudget | core/credit_services.py:403-459 | keeps the laws; under a free key succeeds exactly when the pool covers the amount, which moves to TASK_LOCKED and onto this task alone |
| CreditService.CreditTables.UnlockUnusedTaskCreditBudget | core/credit_services.py:462-511 | keeps the laws; under a free key succeeds exactly up to what its task has left, which moves back to the pool |
| CreditService.CreditTables.TransferMemberCredits | core/credit_services.py:517-583 | keeps the laws; under a free key succeeds exactly between two members when the sender can pay |
| CreditService.CreditTables.PassiveDeduct | core/credit_services.py:589-619 | keeps the laws; moves any positive amount to BURN, whatever the balance |
| CreditService.CreditTables.ReverseCreditTransaction | core/credit_services.py:625-660 | keeps the laws; an unreversed row can be reversed under a free key, the reported row points at it, and its effect is gone exactly when the key was free |
| CreditService.CreditTables.PostTaskReward | core/credit_services.py:666-756 | keeps the laws; pays from the locked budget up to its remainder, or from the pool for genesis, under the key of its own entry |
| CreditService.CreditTables.CreateRedemptionOrder | core/credit_services.py:762-901 | keeps the laws; an earlier keyed order is returned unchanged; a new pending order freezes its amount, exactly when merchant, rate, balance, account and key allow |
| CreditService.CreditTables.FreezeForOrder | core/credit_services.py:867-901 | the order row is written before the freeze and rolled back with it |
| CreditService.CreditTables.CancelRedemptionOrder | core/credit_services.py:904-942 | keeps the laws; an open order closes exactly when the account is there and the key is free or carries the closing row; FROZEN falls by its amount, to the member, exactly when that row was not posted before |
| CreditService.CreditTables.FulfillRedemptionOrder | core/credit_services.py:945-985 | the same towards BURN, and never when the merchant has no rate: burn and status are then both undone |
| CreditService.CreditTables.ReportRedemptionOrderIssue | core/credit_services.py:1019-1040 | keeps the laws; exactly an open order becomes disputed, no credits move and the open total stays |
| CreditConservation.Conservation | core/credit_services.py:142-153 | over any duplicate-free complete list of accounts the balances add up to sourceless minus targetless amounts |
| CreditConservation.TaskSplit | core/credit_services.py:368-400 | the TASK_LOCKED balance is the sum of the per-task remainders |
| CreditConservation.TaskWithinAccount | core/credit_services.py:368-400 | no task has more locked than the shared account holds |
| CreditConservation.RepointKeepsTotals | core/credit_services.py:658-659 | pointing a reversal at an original changes no balance |
| CreditRuns.PostedCallMoves | core/credit_services.py:10-22 | a call that posts moves its amount along the documented route, changes its own budget and nothing else |
| CreditRuns.RunKeepsWell | core/credit_services.py:273-332 | in every run keys stay distinct, no row is reversed twice, and rows are only appended |
| CreditRuns.CallOnUsedKey | core/credit_services.py:83-92 | a key in use decides a call: same movement returned, any other refused, tables unchanged |
| CreditRuns.KeyedReplay | core/credit_services.py:418-446 | repeating a successful keyed call after any later run returns its row and changes nothing; another movement under the key is refused |
| CreditRuns.ReversalUndoesIffKeyUnused | core/credit_services.py:649-660 | a successful reversal removes the original's effect from every balance exactly when its key was unused |
| CreditRuns.SharedReversalKeyFails | core/credit_services.py:649-659 | two equal rows reversed under one key: the second posts nothing and frees the first |
| CreditRuns.ReversalParity | core/credit_services.py:625-660 | n successive reversals all succeed; balances are restored for even n, the original is gone for odd n |
| CreditRuns.TaskBudgetsAddUp | core/credit_services.py:368-511 | in every reversal-free run TASK_LOCKED equals the sum over tasks and every summand is non-negative |
| CreditRuns.ReversalKeepsSplitIff | core/credit_services.py:649-657 | a reversal keeps that equality exactly when its original did not touch TASK_LOCKED |
| CreditOrders.CloseKeepsFrozenIff | core/credit_services.py:921-941 | closing an open order keeps FROZEN equal to the open orders exactly when the closing row was not already posted |
| CreditOrders.CancelKeepsFrozenIff | core/credit_services.py:904-942 | the same for cancelling |
| CreditOrders.FulfillKeepsFrozenIff | core/credit_services.py:945-985 | the same for fulfilling |
| CreditOrders.SharedCancelKeyFails | core/credit_services.py:921-935 | two equal orders cancelled under one key: the second unfreezes nothing and the equality breaks |
| CreditOrders.PlacedIdIsNew | core/credit_services.py:804-889 | a call that goes on to place an order never meets an existing order or freeze row |
| CreditOrders.FrozenEqualsOpenOrders | core/credit_services.py:762-985 | in every ordinary run without shared closing keys FROZEN equals the open orders and no account is negative |
| CreditOrders.DefaultKeysKeepFrozen | core/credit_services.py:921-976 | with default closing keys the same holds without that condition |
| CreditEffects.StepIsLawful | core/credit_services.py:232-1040 | any call keeps the books in order and only extends them; without a reversal budgets stay kept; ordinary calls under unshared keys keep FROZEN equal to the open orders |
| CreditEffects.PostServes | core/credit_services.py:232-332 | under a free key posting succeeds exactly for a positive amount and moves it from source to target; under a used key nothing changes |
| CreditEffects.LockServes | core/credit_services.py:403-459 | under a free key a lock succeeds exactly when the pool covers it; pool, TASK_LOCKED and this task's budget change by the amount and nothing else does |
| CreditEffects.UnlockServes | core/credit_services.py:462-511 | under a free key an unlock succeeds exactly up to what its task has left; nothing but the two accounts and this budget changes |
| CreditEffects.RewardServes | core/credit_services.py:666-756 | a reward succeeds under its free entry key exactly within its task's remainder, or for genesis without that limit; budgets fall only outside genesis |
| CreditEffects.TransferServes | core/credit_services.py:517-583 | under a free key a transfer succeeds exactly between two members when the sender can pay, and nobody else's balance changes |
| CreditEffects.ReverseTakesBack | core/credit_services.py:625-660 | an unreversed row can be reversed under a free key; a successful reversal points at it and takes its effect back exactly under a free key |
| CreditEffects.CreatePlaces | core/credit_services.py:762-901 | an earlier keyed order is returned unchanged; otherwise a new pending order moves its amount to FROZEN and adds it to the open total, exactly when it can be placed; never with a merchant that is inactive or not served |
| CreditEffects.CancelCloses | core/credit_services.py:904-942 | an open order is cancelled exactly when the account is there and the key is free or carries the row; the open total falls by its amount, and so does FROZEN unless the row was already posted |
| CreditEffects.FulfillCloses | core/credit_services.py:945-985 | the same for fulfilling, towards BURN, and never without the merchant's rate |
| CreditEffects.RunIsInOrder | core/credit_services.py:232-1040 | after every run the books are in order |
| CreditKeys.RewardKeyTells | core/credit_services.py:690 | two ledger entries never share a reward key |
| CreditKeys.ServicesDiffer | core/credit_services.py:889-976 | keys made up for rewards, freezes, cancellations and fulfilments never coincide |
| CreditKeys.NewEntryIsRewarded | core/credit_services.py:666-756 | in every run whose callers leave made-up keys alone, an entry without a row is rewarded whenever the budget allows |
| CreditKeys.TwoEntriesAreBothRewarded | core/credit_services.py:688-756 | so two entries of one task are both paid when the remainder covers both |
| CreditKeys.OpenOrderCanBeCancelled | core/credit_services.py:904-942 | in every such run an open order can be cancelled without a key and its amount returns to its member |
| CreditKeys.OpenOrderCanBeFulfilled | core/credit_services.py:945-985 | and fulfilled, its amount burnt, unless its merchant has no rate: then it is refused |
| CreditKeys.NewOrderCanBePlaced | core/credit_services.py:762-901 | and a member who can pay places a new order without a key |
| CreditKeys.KeyTellsItsCall | core/credit_services.py:273-332 | after any later run a call under the key of a successful lock, unlock, transfer or reward returns its row exactly when every argument agrees, and is refused otherwise |
| CreditKeys.KeyedOrderReplay | core/credit_services.py:801-841 | after any later run a repeated keyed order returns the same order and row and changes nothing; another member, amount or content is refused |
| CreditKeys.AccountsAreThere | core/credit_services.py:98-116 | after the set-up no call is ever refused for want of a system account |
| CreditKeys.PostedRowTells | core/credit_services.py:10-22 | a posted row has the type of its service and the task, entry, order and key of its call |
| CreditFailures.SharedCancelKeyRun | core/credit_services.py:921-935 | a run from empty books: two orders cancelled under one key leave an amount frozen for no order |
| CreditFailures.SharedReversalKeyRun | core/credit_services.py:649-659 | a run from empty books: two issues reversed under one key leave one amount and one row unreversed |
| CreditFailures.ReversedLockRun | core/credit_services.py:649-657 | a run from empty books: a reversed lock empties TASK_LOCKED while its task still shows its budget |
| Selector.EvaluationIsMeaning | core/electorate_rule_services.py:40-118 | on a validated selector evaluation never raises and returns the plain Boolean meaning, read off the JSON itself |
| Selector.AllOnJson | core/electorate_rule_services.py:93-97 | `all` answers true exactly when every child does |
| Selector.AnyOnJson | core/electorate_rule_services.py:98-102 | `any` answers true exactly when some child does |
| Selector.NotOnJson | core/electorate_rule_services.py:103-104 | `not` answers true exactly when its child answers false |
| Selector.TestsOnJson | core/electorate_rule_services.py:105-116 | a test holds exactly when the member has the role code, the participation status or the professional domain it names |
| Selector.ValidOnJson | core/electorate_rule_services.py:40-76 | what validation asks of each form: one condition, known values, at least one child, depth at most 8 |
| Selector.EvidenceIsTrue | core/electorate_rule_services.py:105-118 | every recorded atom tells the truth about the facts |
| Selector.EvidenceIsCertificate | core/electorate_rule_services.py:91-118 | any facts that agree with the recorded atoms give the same answer and the same evidence |
| Selector.EvidenceLog.EvaluateNode | core/electorate_rule_services.py:91-118 | appends exactly the evaluator's evidence to the list and returns its answer |
| Selector.EvidenceLog.EvaluateChildren | core/electorate_rule_services.py:93-102 | the short-circuit loop over children does the same |
| Tally.RaisesIffUnanswerable | core/electorate_rule_services.py:121-146 | checking a member raises exactly when unreachable, or active and not excluded under an invalid selector |
| Tally.AllowedIff | core/electorate_rule_services.py:121-150 | a member is allowed exactly when reachable, not the applicant, in standing, and satisfying a valid selector |
| Tally.TallyIsLastBallotWins | core/unified_proposal_services.py:213-246 | the two-pass tally is the last-ballot-wins count of qualified snapshot members; the choices add up to the participation, at most the snapshot |
| Tally.RecastReplaces | core/unified_proposal_services.py:341-354 | a further ballot replaces the voter's choice, adds no voter and keeps revisions growing |
| Tally.TallyFailsIff | core/unified_proposal_services.py:231-239 | the tally raises exactly when some snapshot member with a ballot cannot be checked |
| Voting.RunsAreCoherent | core/unified_proposal_services.py:249-459 | in every run status, resolution, execution record and application tell one story, with counts that met the frozen thresholds; executed iff record succeeded iff admitted, rejected or expired iff declined |
| VotingExecution.ExactlyOnceExecution | core/unified_proposal_services.py:384-459 | for any pattern of domain errors and crashes the adapter's writes are committed by exactly one execute action if executed and never otherwise; one record at most, none running |
| VotingExecution.ExecutionAdmitsApplicant | core/member_admission_proposal_adapter.py:36-83 | the first successful execution admits the bound applicant on another's authority, with a number and the only active covenanter assignment; a term is in force iff no active one begins a year or more from now |
| VotingExecution.FutureTermRun | core/member_admission_proposal_adapter.py:53-69 | a run from creation that ends executed and admitted while the applicant has no term in force |
| VotingExecution.ExecutionIsSafe | core/unified_proposal_services.py:384-459 | whatever the adapter meets, the case stays coherent, no record is left running and the domain changes only by a completed admission |
| VotingExecution.ExecuteAnswers | core/unified_proposal_services.py:384-459 | a call is refused exactly without permission or in another status, is a repetition when executed, executes exactly when the applicant may be admitted and no fault strikes, and otherwise fails, or crashes without a trace |
| VotingExecution.AdapterAnswers | core/member_admission_proposal_adapter.py:36-69 | the adapter completes exactly for a bound applicant other than the actor, in standing, without an active term overlapping the coming 365 days |
| Voting.AdapterKeeps | core/member_admission_proposal_adapter.py:36-83 | a completed adapter run leaves one admission, a covenanter number and role tables that are kept |
| VotingExecution.ExecutedIsFinal | core/unified_proposal_services.py:396-400 | after execution nothing changes but the link to a member and what others do to role tables |
| Voting.FrozenForever | core/unified_proposal_services.py:131-140 | from voting start on, rule, thresholds, deadline and snapshot never change and ballots are only added |
| Voting.StartFreezes | core/unified_proposal_services.py:176-198 | starting copies the rule's parameters and the snapshot holds exactly the reachable members in standing who satisfy the selector, without the applicant |
| Voting.StartAnswers | core/unified_proposal_services.py:163-210 | a draft starts exactly when its rule is for its type and every known member can be checked; a case in voting stays as it is |
| Voting.AttachAnswers | core/unified_proposal_services.py:125-140 | a rule is attached exactly before voting and only if it is for this type |
| Voting.NewCaseAnswers | core/unified_proposal_services.py:66-122 | a new proposal is a draft with its rule or waits for one; a rule for another type is refused |
| Voting.ApplicantTakesNoPart | core/unified_proposal_services.py:333-340 | in every run without rebinding the applicant is in no snapshot, on no ballot and never counted |
| Voting.FinalizeLeavesVotingIff | core/unified_proposal_services.py:369-381 | a permitted finalization past the deadline leaves voting exactly when no voter is unanswerable |
| Voting.ResolveGivesDue | core/unified_proposal_services.py:249-316 | a resolution attempt gives the status that the last ballots and the clock call for and records that count, or raises exactly when a voter is unanswerable |
| Voting.CastIsLastWord | core/unified_proposal_services.py:319-366 | a ballot is taken exactly while voting lasts from a qualified snapshot member; it replaces the voter's last word alone and leaves the status then due |
| Voting.FinalizeGivesDue | core/unified_proposal_services.py:369-381 | finalizing past the deadline gives the due status with its count, and in all other cases changes nothing |
| Voting.ArchivedDomainBlocksFinalize | core/electorate_rule_services.py:63-67 | an archived domain in the rule blocks finalization once a snapshot member has voted |
| Voting.ArchivedDomainRun | core/electorate_rule_services.py:136-146 | from creation on: the only qualified voter abstains, the domain is archived, and finalization past the deadline is refused |
| Voting.OpenVoteIsUndecided | core/unified_proposal_services.py:249-269 | while eligibility facts stay fixed, a proposal in voting has reached no threshold |
| Voting.LastBallotDecides | core/unified_proposal_services.py:319-366 | so a resolution at ballot time is caused by that ballot |
| VotingService.ProposalRows.GenerateElectorSnapshot | core/electorate_rule_services.py:240-269 | the walk over the members yields exactly those the rule admits, or gives up when a check raises |
| VotingService.ProposalRows.StartElectorateVoting | core/unified_proposal_services.py:163-210 | keeps the case coherent; the snapshot holds exactly the members who belong; parameters and status are taken back when it fails |
| VotingService.ProposalRows.CastElectorateBallot | core/unified_proposal_services.py:319-366 | keeps the case coherent; the ballot becomes the voter's last word and the status is the one then due, or nothing changed |
| VotingService.ProposalRows.FinalizeElectorateProposal | core/unified_proposal_services.py:369-381 | keeps the case coherent; past the deadline leaves voting with the due status unless a voter is unanswerable |
| VotingService.ProposalRows.ExecuteElectorateProposal | core/unified_proposal_services.py:384-459 | keeps the case coherent; says exactly when a call is refused, executes, fails or crashes; the adapter's writes stay exactly when it executed, a crash leaves no trace, no record is left running |
| VotingService.ProposalRows.ExecuteLocked | core/unified_proposal_services.py:400-459 | the record runs while the adapter does and ends succeeded or failed; a crash leaves it running for the transaction to undo |
| VotingService.ProposalRows.RunInSavepoint | core/unified_proposal_services.py:416-418 | any exception of the adapter takes all its writes back |
| VotingService.ProposalRows.ExecuteMemberAdmission | core/member_admission_proposal_adapter.py:36-83 | the adapter's checks and writes in order over the role tables, up to where it raises |
| PublicPayload.ValidIffEveryPathOk | core/event_ledger.py:246-267 | the recursive check accepts exactly when every reachable object is free of denied keys and every reachable commitment is flat |
| PublicPayload.FindViolation | core/event_ledger.py:246-267 | a refused payload has a path to its violation |
| PublicPayload.AcceptedPayloadIsPublic | core/event_ledger.py:211-243 | an accepted payload has no denied key on any path outside private commitments |
| PublicPayload.ValidIffPublishable | core/event_ledger.py:211-267 | a payload is accepted exactly when it has the public schema, a subject with type, ref and label, action, stage and summary, none blank, a facts object, a commitments list, and clean paths |
| PublicPayload.PrivateKeyIsRefused | core/event_ledger.py:17-90 | a payload with any of the private keys on a path outside commitments is refused |
| EventChain.VerifyEventChain | core/event_ledger.py:341-386 | the loop accepts exactly the linked chains and raises exactly at the first event whose hash input cannot be built |
| EventChain.ChainedIffLocal | observer/event_context.py:840-882 | on dict payloads a chain verifies exactly when numbered 1..n with every event passing its own check |
| EventChain.LocalAcceptsIffDict | observer/event_context.py:840-882 | in a verified chain an event passes the single check exactly when its payload is a dict |
| EventChain.ChainAcceptsIffDicts | core/event_ledger.py:341-386 | a numbered table of events that pass the single check verifies exactly when all payloads are dicts |
| EventChain.FalsyPayloadSplitsChecks | observer/event_context.py:842 | for each of the two checks a one-event table that it passes and the other refuses |
| EventChain.EqualInputsAgree | core/event_ledger.py:108-179 | equal hash inputs are of one version and agree on every covered field |
| EventChain.TamperEvidence | core/event_ledger.py:341-386 | two verified chains with the same last hash have equal length and agree on all that is hashed, versions mixed or not |
| EventChain.ActorCoveredIffLegacy | core/event_ledger.py:108-130 | rewriting the actor or the actor's role goes unnoticed exactly on events with a payload of the public schema |
| EventChain.SubjectCoveredUnlessNamed | core/event_ledger.py:108-204 | rewriting the internal subject id goes unnoticed exactly on public events that name their subject in the payload |
| EventAppend.PreparedIsConsistent | core/event_ledger.py:295-326 | a prepared event continues the chain it was read from and carries the request |
| EventAppend.ConflictIffChainGrew | core/event_ledger.py:299-331 | an insert is refused exactly when somebody committed since the read |
| EventAppend.InterleavingNeverForks | core/event_ledger.py:297-334 | under every interleaving the table verifies after each step and grows only at its end; reported successes stay in place |
| EventAppend.FailureNeedsRival | core/event_ledger.py:299-331 | an attempt succeeds exactly when the table did not change between its read and its insert |
| EventAppend.EventTable.AppendEvent | core/event_ledger.py:274-334 | refuses exactly payloads that are not publishable; otherwise succeeds exactly when one of three attempts meets no rival, its event carries the request and stands at the end |
| EventAppend.EventTable.InsertWithRetries | core/event_ledger.py:298-334 | the retry loop behind it |
| EventAppend.EventTable.TryOnce | core/event_ledger.py:301-329 | one attempt: read, rivals commit, insert unless a unique column is taken |
| ProcurementSafety.EndToEnd | core/procurement_services.py:304-477 | in every run an offer's quantity enters the stock of its resource at most once and only on an executed proposal: governance approved, above 500 finance after it, above 5000 a second governance after that, all different members; fulfilled means received, stocked and credited once |
| ProcurementSafety.ComputedTierFits | core/proposal_services.py:45-70 | major exactly for quotes above 5000, standard exactly above 500 up to 5000, single otherwise |
| ProcurementSafety.ExecutedIsApprovedByAmount | core/proposal_services.py:268-441 | an executed proposal was approved in order by as many members as its offer's amount calls for |
| ProcurementSafety.TermsNeverChange | core/procurement_services.py:99-215 | resource, submitter, type, quantity and amount of an offer never change |
| ProcurementSafety.StockingComesAfterApproval | core/procurement_services.py:320-369 | the step that stocks an offer finds its proposal executed on ordered approvals |
| ProcurementSafety.ApprovedIsFilledInOrder | core/proposal_services.py:88-142 | an approved proposal has its groups filled by different members in the order governance, finance, second governance |
| ProcurementSafety.ApproveKeepsVotes | core/proposal_services.py:268-336 | an approval keeps votes orderly and the status equal to whether all groups are filled |
| ProcurementSafety.AdjustmentKeepsStock | core/resource_services.py:39-78 | stock stays the opening stock plus all recorded movements and never negative; every row tells the stock before and after it |
| ProcurementSafety.DailyLimitKept | core/procurement_services.py:131-139 | no member ever has more than five offers on one resource and day |
| ProcurementSafety.SingleTierNeedsGovernance | core/proposal_services.py:303-306 | finance can never open a single-tier proposal |
| ProcurementEffects.SubmitOffers | core/procurement_services.py:99-215 | an offer is taken exactly when it may be; it has the terms of the call, an open proposal of the tier of quantity times price, no approvals, no stock row and no credential |
| ProcurementEffects.ApproveAdds | core/proposal_services.py:268-336 | an approval is taken exactly when it may be: finance by a finance reviewer after governance, governance by an administrator, nobody twice; approved exactly when all needed roles have approved, then in order |
| ProcurementEffects.ApproveAnswers | core/proposal_services.py:268-306 | exactly when an approval is taken |
| ProcurementEffects.RolesAsked | core/proposal_services.py:88-159 | finance slots need a finance reviewer, governance slots an administrator, and only major proposals have a second one |
| ProcurementEffects.GroupsTell | core/proposal_services.py:88-142 | who must have approved, tier by tier |
| ProcurementEffects.DeclineTurnsDown | core/proposal_services.py:339-399 | a proposal is turned down exactly when it may be, together with its submitted offer; the approvals of every proposal stay |
| ProcurementEffects.ExecuteCarriesOut | core/proposal_services.py:402-441 | executed exactly by administrators or finance reviewers on an approved proposal whose offer is not refused; then with full and ordered approvals and an accepted offer; repeating changes nothing |
| ProcurementEffects.AdjustmentIsRecorded | core/resource_services.py:17-78 | recorded exactly when a reason is given and the resource exists and stays non-negative; recorded movements and stock change by the same amount |
| ProcurementEffects.ReceiptReceives | core/procurement_services.py:304-395 | an offer is received exactly once, accepted and with its proposal executed on ordered approvals; its one stock row and its quantity appear exactly when it is received as accepted |
| ProcurementEffects.MarkCompletes | core/procurement_services.py:401-477 | completed exactly when accepted, received and unpaid; it then has exactly one credential in its submitter's name, is settled and was stocked once |
| ProcurementService.ProcurementTables.SubmitResourceOffer | core/procurement_services.py:99-215 | keeps all safe; taken exactly when it may be, with the terms of the call and an open proposal of the tier of quantity times price, unapproved, unstocked and uncredited |
| ProcurementService.ProcurementTables.ApproveProposal | core/proposal_services.py:268-336 | keeps all safe; takes exactly the approvals that the authority, the order of roles and earlier approvals allow, and approves exactly when all needed roles have |
| ProcurementService.ProcurementTables.RejectProposal | core/proposal_services.py:339-399 | keeps all safe; proposal and offer are turned down together or neither, no approval is added or lost |
| ProcurementService.ProcurementTables.ExecuteProposal | core/proposal_services.py:402-441 | keeps all safe; executes exactly for authorized actors on approved proposals, with full and ordered approvals, and leaves the offer accepted; repeating changes nothing |
| ProcurementService.ProcurementTables.RecordResourceAdjustment | core/resource_services.py:17-78 | recorded exactly when a reason is given and stock stays non-negative; stock and recorded movements change by the same amount |
| ProcurementService.ProcurementTables.RecordOfferReceipt | core/procurement_services.py:304-395 | keeps all safe; an offer is received once, on an executed proposal, and its quantity enters its resource's stock exactly when accepted |
| ProcurementService.ProcurementTables.MarkOfferPaidOrDonated | core/procurement_services.py:401-477 | keeps all safe; a fulfilled offer was received and stocked once, is settled, and has its one credential in the submitter's name |
| RoleLifecycle.CreateYieldsTheActive | core/role_assignment_services.py:74-112 | a successful call returns the only active assignment of the member and role: the live one untouched if there is one, else a new one with the requested term or 36500 days; others at most expire |
| RoleLifecycle.CreateIsAppointment | core/role_assignment_services.py:56-125 | what a caller may rely on: nothing, or one active assignment, made anew exactly when none was live, a number for a covenanter, and the tables kept |
| RoleLifecycle.CreateAnswers | core/role_assignment_services.py:35-72 | an appointment goes through exactly when the role is no plain one under a built-in name and, unless skipped, the member is enabled and, where needed, a covenanter now |
| RoleLifecycle.IssueKeepsOrder | core/credential_services.py:313-359 | issuing keeps the numbers 1..n with one per member and leaves the member with a number |
| RoleLifecycle.RunKeeps | core/role_assignment_services.py:57-145 | in every run one active assignment per member and role, every covenanter numbered once, numbers never withdrawn |
| RoleProjection.CleanupJustifies | core/openfga_projection_services.py:140-159 | if the store held only derived tuples of the member, every surviving one is justified by a current assignment; none justified is lost, others are untouched |
| RoleProjection.SharedTupleSurvives | core/openfga_projection_services.py:155-158 | a tuple also derived from a current assignment is never deleted |
| RoleProjection.TuplesByRole | core/openfga_projection_services.py:68-99 | which relation and object each role yields |
| RoleProjection.CurrentIff | core/openfga_projection_services.py:102-123 | exactly when an assignment is current |
| RoleProjection.RevokedDeliberatorGoes | core/openfga_projection_services.py:140-159 | after revoking a member's only deliberator assignment a cleanup takes the deliberator tuple away |
| RoleProjection.CurrentCovenanterStays | core/openfga_projection_services.py:140-159 | a cleanup leaves the covenanter tuple of a member who is a covenanter now |
| RoleService.RegistryTables.IssueCovenanterNumber | core/credential_services.py:313-359 | a member without a number gets the next one, n + 1, and numbers stay 1..n with one per member |
| RoleService.RegistryTables.ExpireAssignments | core/role_assignment_services.py:76-84 | exactly the active assignments that ended by the start become expired |
| RoleService.RegistryTables.CreateRoleAssignment | core/role_assignment_services.py:56-125 | keeps the tables; goes through exactly when the member may be appointed; returns the one active assignment, made anew exactly when none was live, and numbers a covenanter |
| RoleService.RegistryTables.RevokeRoleAssignment | core/role_assignment_services.py:128-145 | keeps the tables and the numbers; the assignment is in force at no time any more, no other is touched, and revoking the active one leaves member and role without a live one |
| RoleService.RegistryTables.RemoveNonCurrentProjections | core/openfga_projection_services.py:140-159 | deletes exactly the tuples from stale assignments and from no current one; what survives of the member is justified, nothing justified is lost; fails only when it could not delete |
| PlanTree.NearestStage | observer/mainline_context.py:332-355 | the bounded search finds k exactly when the first stage is met after k steps |
| PlanTree.FindNearestStageAncestor | observer/mainline_context.py:332-355 | the walk with its cycle check returns what the plain search finds, on cyclic parents too |
| PlanTree.AncestorDepth | observer/mainline_context.py:358-381 | the second walk counts exactly the steps to the nearest stage |
| PlanTree.NoStageInCycle | observer/mainline_context.py:347-349 | meeting an id again before a stage means that no stage will be met |
| PlanGroups.BuildStages | observer/mainline_context.py:252-329 | the three passes produce the groups of the specification |
| PlanGroups.EveryNodeOnce | observer/mainline_context.py:252-329 | with distinct ids and any parents the groups show every node exactly once |
| PlanGroups.PlacedUnderNearest | observer/mainline_context.py:295-327 | a child shown stands under its nearest stage at the recorded depth; ungrouped nodes meet no stage within 100 steps |
| PlanGroups.ReachedStageShowsNode | observer/mainline_context.py:295-327 | a non-stage node whose walk first meets a stage after k steps, k at most 100, is shown under that stage at depth k |
| PlanGroups.GroupsInOrder | observer/mainline_context.py:294-327 | one group per stage in order, marked exactly when current, then at most one group without a stage |
| PlanGroups.StagesInOrder | observer/mainline_context.py:264-272 | stages keep the order of the plan |
| PlanGroups.ChildrenInOrder | observer/mainline_context.py:295-309 | children keep the order of the plan |

## Left out

- Views, forms, administration, dashboards, settings, themes and simulations: no modelled state.
- Event rows appended by each service: the chain is modelled on its own, and a failing append rolls the service back.
- Settlement records of fulfilled orders: only the refusal for a missing rate is kept.
- Lifetime contribution and the display of balances: plain sums over the same rows.
- Creation of electorate proposals under a dedupe key, publication of rules, and activation of waiting proposals: one
  proposal is followed from its creation, and any rule parameters are allowed.
- Proposal types other than procurement acceptance and member admission, and payment approvals, whose finance vote the
  ordering guards can never accept.
- Second acceptance proposals created for one offer outside its submission.
- Writing tuples on commit when an assignment is made or ended: the tuple store is modelled only for the lazy cleanup.
- Row locks: the interleaving of appenders assumes none, and the other services are atomic steps.
- Evaluation of selector objects with several keys: validation refuses them before evaluation, and the evaluator model
  treats them as unknown.
- The path in the payload validator's error message, and messages in general.
- Deletion of events by the role baseline reset.
