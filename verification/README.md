# CodeMigrator control plane: a Dafny model

This project models the deterministic control plane of CodeMigrator and proves properties of it over every
input, every message sequence and every interleaving.  `dafny verify dfyconfig.toml` checks all of it.

| modules | what they model |
|---|---|
| IntegrationProtocol, IntegrationQueue | moving the verified Git ref between durable intents and receipts, under rival drivers and crashes; the in-memory FIFO in front of it |
| CandidateChain, RunMachine, RunSafety, RunEffects, RunActors, RunWallets | the Run actor as a state machine over its mailbox, its event ledger and its store; what every message does, as a reference; its handlers; its wallet |
| DraftLedgers, DraftFactLog, DraftObjects, DraftValidation, TaskKeys | the event-sourced Draft ledger and its restore, the owner that commits its facts one at a time, the exploration skeleton, the task keys |
| ScopePatterns, WriteScopes, SourceCoverage, PlanGuards, PlanGraph, PlanFreezing | scope patterns, plan acceptance, freezing and dependency projection |
| Scheduling, DispatchRounds, RoundReports | the fair scheduler, the execution rounds over it and what they report to the actor |
| CasProtocol | reference counting of content-addressed objects under per-digest locks |
| JsonNesting, GrammarCaches, Canonical, SseReplay, Reachability, Ripple, TextOffsets | fast forms against simple ones: depth scanner, LRU cache, canonical bytes, event replay, closures and the ripple preview, offsets |
| Sorting, TextSorting, Counting, Options | shared notions |

Objects whose methods update fields in the source are classes here, and their methods are proved against
functions of the old state; loops are loops with invariants; the main results are lemmas about those functions.
A handler's `ok` parameter is the store accepting or refusing its transaction.  Message fields such as `sound`
and `durable`, and `committed` of a claim, stand for checks of stored AgentRun records, digests and receipts that
read nothing of the modelled state.  Protocols between concurrent parties are step relations: one move is one
step of one party between two of its awaited calls.

Findings, each with its condition proved:

* `$` in a scope pattern also matches before a final newline, so the containment decision can accept an exclude
  that matches a path the include does not (`ScopePatterns.PatternContainmentExact`).  Without such a gap it is
  exact, and so is the gate over all includes for every exclude that does not end in a newline
  (`ScopePatterns.ExcludesContainedExact`).
* An intent is stored before its parents are checked, and the first intent of a Run is not compared with the
  baseline; an intent that fails either never completes and keeps every other integration of the Run out
  (`IntegrationProtocol.RecoveryExact`, `IntegrationProtocol.StuckForEver`).
* `adopted_advice_ids` repeats when a confirmed identifier was already adopted (`RunSafety.AdoptedRepeatsExactly`).
* A superseded candidate receipt is accepted again when its expected commit is current again
  (`CandidateChain.SupersededExact`), which takes commits that are each other's parent.  When commits only grow
  it never is (`CandidateChain.PastReceiptExact`).
* A dispatch start takes a Run that verifies or reports back to executing, and nothing else ever takes a Run back
  (`RunSafety.GoesBackExactly`).
* A round that finds queued work its plan no longer offers stops with an error when that work comes first; so does
  the round after a recovered terminal whose item is still queued (`DispatchRounds.StaleStrays`,
  `DispatchRounds.RecoveredStrays`).  Without such work no round does (`DispatchRounds.RoundExact`).
* `commit_answer` does not ask whether the question's own fact was committed; after a failed question commit it
  writes an answer that no restore accepts (`DraftFactLog.CommitAnswerExact`).
* `release` reads the key before it takes the lock; a key that is released and bound to two digests can lose a
  referenced object (`CasProtocol.SafeExactlyWhenImmutable`).
* A large module that is itself a file in a directory goes to a domain it does not lie in
  (`DraftValidation.DomainExact`, `DraftValidation.NestedFileExample`).
* Restoring accepts two equal consecutive revisions, which live operations never make
  (`DraftLedgers.RestoredIsReachable`).
* A stream that starts ahead of a ledger without a terminal event can be sent ids that are not owed
  (`SseReplay.OwedExactlyWhenAnchored`, `SseReplay.AheadOfLedger`).
* The task-key parsers accept decimal digits of any script (`TaskKeys.RevisionKeyExact` is exact on ASCII keys,
  the only ones an AgentRun may carry).
* Positions read back with `splitlines` are wrong below a line break that is not a line feed
  (`TextOffsets.PositionRoundTrip`).

## Model

| member | source | states |
|---|---|---|
| IntegrationProtocol.VerifiedRefSafety | src/codemigrator/runtime/integration_driver.py:34-98 | Over every interleaving of any number of drivers, crashes and rival writes of intents: receipts form one chain of stored intents, the ref stands at the last receipt or exactly one persisted intent ahead and never returns to a commit, and a driver that reports success has its receipt |
| IntegrationProtocol.MoveKeeps | src/codemigrator/runtime/integration_driver.py:39-98 | Every single step of a driver, a crash, a new driver or a change of the Run keeps the protocol invariant |
| IntegrationProtocol.InvHoldsAlong | src/codemigrator/runtime/integration_driver.py:34-98 | The invariant holds after every sequence of moves from any state that satisfies it |
| IntegrationProtocol.NoReturn | src/codemigrator/runtime/integration_driver.py:72-80 | As ancestry has no cycle, the ref never takes the same value twice |
| IntegrationProtocol.SwapIsPending | src/codemigrator/workspace/git.py:390-399 | A compare-and-swap that succeeds belongs to the one pending intent and starts at the end of the receipt chain |
| IntegrationProtocol.PersistKeeps | src/codemigrator/runtime/actor.py:493-525 | A new intent is the only pending one and continues the chain |
| IntegrationProtocol.CompleteKeeps | src/codemigrator/runtime/actor.py:527-594 | Completing an intent appends exactly its receipt to the chain, or finds it there |
| IntegrationProtocol.RecoveryExact | src/codemigrator/runtime/integration_driver.py:34-98 | Running the driver again on any stored intent without receipt, with nobody interfering, completes it exactly once and moves the ref at most once, exactly when the actor admits it, its commit extends the expected one and it is anchored to a receipt or the baseline; otherwise the call is rejected or reports inconsistency and nothing changes |
| IntegrationProtocol.NewIntentExact | src/codemigrator/runtime/integration_driver.py:34-98 | A call with a new intent, with nobody interfering, ends in exactly one of three ways: rejected without effect when the actor does not admit it or it may not follow what is stored; stored and stuck when its commit has other parents or no anchor; completed otherwise, with its receipt last and the ref at its commit |
| IntegrationProtocol.EveryListIntegrates | src/codemigrator/runtime/integration_driver.py:34-98 | A Run integrates slice after slice: the drivers of any list of intents that lead on from the baseline by commits with exactly that parent, run one after the other, all complete; the receipts are that list and the ref went through all its commits |
| IntegrationProtocol.RivalsAllComplete | src/codemigrator/runtime/integration_driver.py:34-98 | Rivals for one intent: any number of drivers of an intent that one alone would complete, started, interleaved and crashing in any way; each that ends reports success, and between them they store the intent, move the ref and write the receipt at most once each |
| IntegrationProtocol.OtherIntentIsRejected | src/codemigrator/runtime/store.py:984-988 | A key that is stored with another intent is rejected and nothing changes |
| IntegrationProtocol.StuckForEver | src/codemigrator/runtime/actor.py:493-525 | A stored intent with the wrong parents or no anchor never gets a receipt, whatever any drivers do afterwards, and as the one pending intent it keeps every other receipt out too |
| IntegrationProtocol.StuckByParents | src/codemigrator/runtime/integration_driver.py:39-54 | A reachable intent that is stored and anchored, whose commit has other parents: the driver stores it before it looks at the parents |
| IntegrationProtocol.StuckUnanchored | src/codemigrator/runtime/actor.py:493-525 | A reachable intent that is stored and whose commit is sound, but that nothing ties to the baseline |
| IntegrationProtocol.FirstIntentIsStored | src/codemigrator/runtime/actor.py:493-525 | Any well-formed first intent of an executing Run is stored, whatever its commits are |
| IntegrationProtocol.ReplayChangesNothing | src/codemigrator/runtime/integration_driver.py:39-49 | Running the driver again on a receipted intent changes nothing |
| IntegrationProtocol.CompletedIsReceipted | src/codemigrator/runtime/integration_driver.py:34-98 | A success of the imperative driver, under any interference, leaves its intent receipted and the invariant intact |
| IntegrationProtocol.IntegrationHost.Await | src/codemigrator/runtime/integration_driver.py:39-98 | While a driver waits everything else may move, and its own place in the code does not |
| IntegrationProtocol.IntegrationHost.Act | src/codemigrator/runtime/integration_driver.py:39-98 | One atomic action of a driver is one step of the relation |
| IntegrationProtocol.IntegrationHost.Integrate | src/codemigrator/runtime/integration_driver.py:34-98 | The driver code, for any schedule of the others, is one driver of the step relation and ends with its outcome; when the schedule leaves it undisturbed, world and outcome are those of the driver alone, which for new and stored intents are given exactly |
| IntegrationProtocol.IntegrationHost.Replayed | src/codemigrator/runtime/integration_driver.py:40-49 | A known receipt settles the call, by equality with the intent |
| IntegrationProtocol.IntegrationHost.Reconcile | src/codemigrator/runtime/integration_driver.py:57-98 | The bounded loop of two attempts refines the step relation |
| IntegrationProtocol.IntegrationHost.Classified | src/codemigrator/workspace/git.py:806-822 | Reading the ref settles the call or leaves the driver exactly at its next attempt |
| IntegrationProtocol.IntegrationHost.Complete | src/codemigrator/runtime/integration_driver.py:65-66 | Completion adopts the head or is refused, as one step |
| IntegrationQueue.IntegrationCoordinator.constructor | src/codemigrator/runtime/integration.py:31-35 | An empty channel with nothing active |
| IntegrationQueue.IntegrationCoordinator.Enqueue | src/codemigrator/runtime/integration.py:37-41 | An item of a Run that is not cancelled goes to the end; others are refused; the account of the channel holds |
| IntegrationQueue.IntegrationCoordinator.EnqueueRepair | src/codemigrator/runtime/integration.py:65-74 | Only a marked repair without generation and with a decision enters, at the end of the same queue |
| IntegrationQueue.IntegrationCoordinator.CancelRun | src/codemigrator/runtime/integration.py:43-47 | Exactly the items of the Run leave, its active item stops, and no item of it enters again |
| IntegrationQueue.IntegrationCoordinator.RevokeSlice | src/codemigrator/runtime/integration.py:49-61 | Exactly the unstarted items of the slice leave; the active item is never withdrawn; the answer says whether any left |
| IntegrationQueue.IntegrationCoordinator.MarkProspectivePassed | src/codemigrator/runtime/integration.py:78-96 | Exactly the items of the named slot are marked; no item moves or changes otherwise |
| IntegrationQueue.IntegrationCoordinator.RegisterVerifiedHead | src/codemigrator/runtime/integration.py:98-106 | A known head is never replaced by registration |
| IntegrationQueue.IntegrationCoordinator.StartNext | src/codemigrator/runtime/integration.py:108-127 | Only the passed queue head of the Run starts, only when nothing is active, and from the head that the Run's last finished item left; without one, from the registered head or the given one |
| IntegrationQueue.IntegrationCoordinator.Complete | src/codemigrator/runtime/integration.py:129-141 | Success moves exactly the active item to the finished ones and records the head it left as the head of its Run; failure only clears the slot |
| IntegrationQueue.FilterAccounts | src/codemigrator/runtime/integration.py:43-61 | Withdrawing items conserves them: accepted is finished, queued and removed together, in the accepted order |
| IntegrationQueue.KeepExact | src/codemigrator/runtime/integration.py:43-61 | Withdrawing leaves every other item, as often as it was there and in order |
| IntegrationQueue.FinishAccounts | src/codemigrator/runtime/integration.py:129-141 | Finishing the queue head keeps the account |
| IntegrationQueue.FinishedInOrder | src/codemigrator/runtime/integration.py:28-152 | Each Run's items finish in the order they were accepted, and no accepted item is lost or duplicated |
| CandidateChain.AcceptClaims | src/codemigrator/runtime/actor.py:916-941 | The claim loop computes exactly the admission of the whole round, and refuses it at the first refused claim |
| CandidateChain.RefusedRound | src/codemigrator/runtime/actor.py:916-917 | One refused claim refuses its whole round, whatever follows |
| CandidateChain.AdmitKeeps | src/codemigrator/runtime/actor.py:972-1057 | An admitted claim expects its AgentRun's baseline, moves its pair from the current commit, and stays the only current fact of its pair |
| CandidateChain.AdmitAllKeeps | src/codemigrator/runtime/actor.py:916-941 | So does a whole round |
| CandidateChain.AdmitAllKeepsPairs | src/codemigrator/runtime/actor.py:916-941 | A pair with an accepted fact keeps one |
| CandidateChain.CurrentAfterAdmit | src/codemigrator/runtime/actor.py:918-931 | An admitted claim changes the current fact of its own pair and of no other |
| CandidateChain.AcceptedReplays | src/codemigrator/runtime/actor.py:1023-1036 | A claim just accepted can be replayed without effect |
| CandidateChain.NewRoundExact | src/codemigrator/runtime/actor.py:920-941 | A round of claims with new receipts is accepted exactly when every claim starts from what the state and the claims before it left; its facts are then the claims in order, and the last one of each pair is current |
| CandidateChain.NewClaimExact | src/codemigrator/runtime/actor.py:972-1057 | A claim with a new receipt is admitted exactly when its checkpoint is committed and moves its baseline, which is where its pair stands if it has a fact; it then is the one new fact |
| CandidateChain.PastReceiptExact | src/codemigrator/runtime/actor.py:1023-1057 | What becomes of any receipt accepted before, over the whole history, when commits only grow: the last one of its pair changes nothing and every earlier one is refused |
| CandidateChain.SupersededIsRefused | src/codemigrator/runtime/actor.py:1037-1057 | When commits only grow, a superseded receipt is refused for ever |
| CandidateChain.CyclicReplay | src/codemigrator/runtime/actor.py:1037-1057 | Otherwise it can come back: a concrete cycle of two commits |
| RunSafety.EveryRunIsSound | src/codemigrator/runtime/actor.py:123-1540 | Over every message sequence and every pattern of store failures: memory equals store; Verifying, Reporting, Completed and PartiallyCompleted have a plan, Planning has none; calls are disabled exactly in Failed and Cancelled, where no dispatch is active; cancellation and budget failure name exactly those statuses; dispatch keys, pending advice and failed slices do not repeat; continuations lie in generations 0 to 2, are at most 3 and are counted by the ledger; the ledger names the current status last, the one plan and at most one warning; usage decides warning and failure; candidates form chains; verified heads advance only for accepted pairs |
| RunSafety.StepKeeps | src/codemigrator/runtime/actor.py:437-451 | Every single message keeps all of that |
| RunSafety.CreationKeeps | src/codemigrator/runtime/actor.py:1123-1160 | Creation establishes it |
| RunSafety.CommitKeeps | src/codemigrator/runtime/actor.py:1529-1540 | A commit with its status note keeps it, given what its events report |
| RunSafety.CancelKeeps | src/codemigrator/runtime/actor.py:1167-1206 | Cancellation keeps it |
| RunSafety.ConfirmKeeps | src/codemigrator/runtime/actor.py:1224-1245 | A confirmation keeps it |
| RunSafety.SegmentKeeps | src/codemigrator/runtime/actor.py:1247-1291 | A stopped segment keeps it: a continuation is counted and reported together |
| RunSafety.StartKeeps | src/codemigrator/runtime/actor.py:1319-1347 | A dispatch start keeps it |
| RunSafety.FinishKeeps | src/codemigrator/runtime/actor.py:1349-1382 | A dispatch result keeps it |
| RunSafety.SpendKeeps | src/codemigrator/runtime/actor.py:1384-1439 | A budget event keeps it: one warning ever, and exhaustion fails the Run |
| RunSafety.RecoverKeeps | src/codemigrator/runtime/actor.py:1441-1470 | A recovery keeps it |
| RunSafety.AdviseKeeps | src/codemigrator/runtime/actor.py:1472-1527 | Advice keeps it |
| RunSafety.PlanKeeps | src/codemigrator/runtime/actor.py:729-795 | Plan acceptance keeps it; its receipt is never already in the store |
| RunSafety.AgentEndedKeeps | src/codemigrator/runtime/actor.py:644-704 | A terminal AgentRun keeps it |
| RunSafety.IntegratedKeeps | src/codemigrator/runtime/actor.py:527-594 | An integration receipt keeps it, for an accepted candidate only |
| RunSafety.RoundKeeps | src/codemigrator/runtime/actor.py:874-970 | An execution round keeps it |
| RunSafety.RunsOnlyAdvance | src/codemigrator/runtime/actor.py:123-1540 | Over any further messages: a terminal status stays, an accepted plan stays, stopped calls stay stopped, usage only grows, the ledger and the accepted candidates are append-only, and the version counts the changes |
| RunSafety.StepEvolves | src/codemigrator/runtime/actor.py:1529-1540 | One message changes the state by exactly one version, or not at all; creation starts at version 1 |
| RunSafety.RefusedTransactionChangesNothing | src/codemigrator/runtime/actor.py:1534-1540 | A message whose transaction the store refuses changes nothing, in memory or in the store |
| RunSafety.NoKnownReceipt | src/codemigrator/runtime/store.py:913-926 | No handler commits an AgentRun receipt the store already has, so memory never runs ahead of the store |
| RunSafety.EachKeyTakesEffectOnce | src/codemigrator/runtime/actor.py:453-474 | Over the whole life of a Run, of all workflow commands with one receipt key at most one takes effect, however much later a repetition arrives and whatever else it says |
| RunSafety.EffectIsReceipted | src/codemigrator/runtime/actor.py:453-474 | A workflow command that changes the Run leaves its receipt key in the ledger |
| RunSafety.GoesBackExactly | src/codemigrator/runtime/actor.py:1319-1347 | A message takes a Run back to an earlier stage exactly when it starts a new dispatch while the Run verifies or reports |
| RunSafety.ForwardWithoutDispatch | src/codemigrator/runtime/actor.py:123-1540 | Without dispatch starts no message sequence ever takes a Run back |
| RunSafety.AdoptedRepeatsExactly | src/codemigrator/runtime/actor.py:1224-1245 | Adopted advice stays without repetition across a message exactly when the message does not confirm, with success, an identifier already adopted |
| RunSafety.AdoptedTwice | src/codemigrator/runtime/actor.py:1472-1527 | A reachable Run whose adopted advice repeats |
| RunSafety.FinishRemovesOne | src/codemigrator/runtime/actor.py:1349-1382 | Finishing removes that dispatch, no other, and frees its key |
| RunSafety.RoundIsAtomic | src/codemigrator/runtime/actor.py:874-970 | A round with one invalid claim changes nothing |
| RunSafety.CandidatesFormChains | src/codemigrator/runtime/actor.py:972-1057 | In every reachable state each pair's accepted facts form one chain that ends in its only current fact |
| RunEffects.EffectExact | src/codemigrator/runtime/actor.py:123-1540 | When each of the seventeen messages takes effect, and the new state after it field by field, with everything it leaves alone: the active dispatches of others, the usage, the plan, the candidates, the advice, the continuations |
| RunEffects.RecordExact | src/codemigrator/runtime/actor.py:123-1540 | What each message puts on the ledger and among the receipts, in order, with the note of a changed status; also what is noted although nothing changes; and nothing at all when the store refuses |
| RunEffects.ReactionExact | src/codemigrator/runtime/actor.py:437-451 | Both together for every message, creation included, and every answer of the store |
| RunEffects.EndsExactlyAs | src/codemigrator/runtime/actor.py:1085-1113 | Over every message sequence a Run is completed exactly when a full report took effect, partially completed exactly when a partial one did, cancelled exactly when a cancellation did, and failed exactly when its usage reached a limit |
| RunEffects.EveryRunCanComplete | src/codemigrator/runtime/actor.py:123-1540 | Created, planned, with one last round, verified and reported under unused keys, every Run ends as the report says |
| RunEffects.CanFinish | src/codemigrator/runtime/actor.py:833-1113 | An executing Run whose last round is accepted is finished by a verification and a report, as the report says |
| RunEffects.CanExecute | src/codemigrator/runtime/actor.py:729-795 | Creation, the start of a planner and its plan lead every Run to Executing with that plan |
| RunActors.RunActor.constructor | src/codemigrator/runtime/actor.py:128-165 | A fresh actor holds nothing |
| RunActors.RunActor.Commit | src/codemigrator/runtime/actor.py:1529-1540 | State, events and the status note, when the status changes, in one transaction; a refused store changes nothing |
| RunActors.RunActor.HandleCreate | src/codemigrator/runtime/actor.py:1123-1160 | Creation keeps the invariant and happens once, in Planning |
| RunActors.RunActor.HandleCancel | src/codemigrator/runtime/actor.py:1167-1206 | A positive answer means Cancelled without dispatches, a negative one that nothing changed; the invariant is kept |
| RunActors.RunActor.HandleSessionInput | src/codemigrator/runtime/actor.py:1208-1222 | Session input is one step of the machine and keeps the invariant |
| RunActors.RunActor.ConfirmAdviceInput | src/codemigrator/runtime/actor.py:1224-1245 | The state changes exactly when the advice was pending, which is then adopted and no longer pending |
| RunActors.RunActor.StartDispatch | src/codemigrator/runtime/actor.py:1293-1347 | A positive answer means the dispatch is active, a negative one that nothing changed; the invariant is kept |
| RunActors.RunActor.FinishDispatch | src/codemigrator/runtime/actor.py:1349-1382 | The answer is whether it matched an active dispatch, even when the store then failed; a finished dispatch is gone |
| RunActors.RunActor.HandleBudget | src/codemigrator/runtime/actor.py:1384-1439 | A budget event is one step of the machine, through the loop-free failure steps, and keeps the invariant |
| RunActors.RunActor.HandleRecovery | src/codemigrator/runtime/actor.py:1441-1470 | A recovery is one step of the machine, its notes in order, and keeps the invariant |
| RunActors.RunActor.HandleAdvice | src/codemigrator/runtime/actor.py:1472-1527 | A change adopts the advice or leaves it pending, for this Run only; the invariant is kept |
| RunActors.RunActor.CommitReceipt | src/codemigrator/runtime/store.py:904-975 | The store's receipt transaction: a known receipt leaves the store as it is, one of another category changes nothing, and a new one is written with state and events exactly when the store works and the version is the next |
| RunActors.RunActor.AcceptPlanCommand | src/codemigrator/runtime/actor.py:729-795 | A plan is taken only in Planning, from a sound receipt, and leads to Executing with that plan |
| RunActors.RunActor.RecordAgentRunStarted | src/codemigrator/runtime/actor.py:618-642 | A start is recorded once |
| RunActors.RunActor.RecordAgentRunTerminal | src/codemigrator/runtime/actor.py:644-704 | An end is recorded once, and only of a started AgentRun |
| RunActors.RunActor.RecordIntegrationCompleted | src/codemigrator/runtime/actor.py:527-594 | The verified head advances once for an intent, and only for an accepted candidate |
| RunActors.RunActor.CommitVerification | src/codemigrator/runtime/actor.py:1059-1083 | Verification leads from Verifying to Reporting, once for a key |
| RunActors.RunActor.CommitReport | src/codemigrator/runtime/actor.py:1085-1113 | A report leads from Reporting to PartiallyCompleted when it is partial and to Completed when it is not, once for a key, and the ledger says so |
| RunActors.RunActor.CheckTerminals | src/codemigrator/runtime/actor.py:898-915 | A round's terminal AgentRuns check exactly when every one has its receipt, its record and its start; those without an end event get one |
| RunActors.RunActor.HandleRoundFinished | src/codemigrator/runtime/actor.py:833-970 | A round takes all of its claims or none, and leads to Verifying exactly when it is complete |
| RunActors.RunActor.Handle | src/codemigrator/runtime/actor.py:437-451 | One message of the mailbox is one step of the machine, has exactly the effect and the notes of the reference, keeps the invariant and only advances the Run |
| RunActors.SegmentMeans | src/codemigrator/runtime/actor.py:1247-1291 | A segment that stops is continued and counted, or its slice fails |
| RunActors.SpendMeans | src/codemigrator/runtime/actor.py:1384-1439 | What is spent is added up, and exhaustion, nothing else, fails the Run |
| RunActors.RecoverMeans | src/codemigrator/runtime/actor.py:1441-1470 | A recovery clears the dispatches and keeps the status |
| RunWallets.RunWallet.constructor | src/codemigrator/runtime/budget.py:52-56 | An empty wallet |
| RunWallets.RunWallet.Record | src/codemigrator/runtime/budget.py:66-93 | Usage is the total of the receipts delivered so far, the first of each identifier counted once; the answer says whether that total stays below every limit |
| RunWallets.RunWallet.Admit | src/codemigrator/runtime/budget.py:62-64 | Admission is granted exactly while the receipts delivered, each counted once, stay below every limit, and exactly if they did after every earlier delivery too |
| RunWallets.RefusalIsFinal | src/codemigrator/runtime/budget.py:62-93 | Once the deliveries reach a limit, no further deliveries ever bring admission back |
| RunWallets.TotalIgnoresOrder | src/codemigrator/runtime/budget.py:66-83 | Any order of the same receipts has the same total |
| RunWallets.DeliveryOrderIrrelevant | src/codemigrator/runtime/budget.py:66-83 | Delivered in any order and with any repetition, the same receipts come to the same usage |
| DraftLedgers.RestoreExact | src/codemigrator/runtime/draft.py:80-141 | Restoring succeeds with a ledger if and only if the facts, in whatever order, are exactly those of that ledger and the ledger is consistent: restore is the inverse of export |
| DraftLedgers.ReachableIsConsistent | src/codemigrator/runtime/draft.py:143-249 | Every ledger the live operations reach is consistent, and consecutive revisions change the artifacts |
| DraftLedgers.ReachableRestores | src/codemigrator/runtime/draft.py:80-249 | Every reachable ledger is restored from its own exported facts |
| DraftLedgers.ConsistentIsReachable | src/codemigrator/runtime/draft.py:143-249 | Every consistent ledger whose consecutive revisions differ is reached by some sequence of live operations |
| DraftLedgers.RestoredIsReachable | src/codemigrator/runtime/draft.py:80-249 | A restored ledger is reachable live exactly when consecutive revisions differ |
| DraftLedgers.RestoreAcceptsRepetition | src/codemigrator/runtime/draft.py:92-109 | Restoring accepts a repeated revision that no live operation produces |
| DraftLedgers.FreezeExact | src/codemigrator/runtime/draft.py:131-140 | A persisted freeze receipt is accepted exactly when the rest of the ledger yields it |
| DraftLedgers.FreezeIgnoresOrder | src/codemigrator/runtime/draft.py:192-227 | The order in which the questions are listed does not change the receipt |
| DraftLedgers.ReviseExact | src/codemigrator/runtime/draft.py:150-159 | Revising is accepted exactly for the latest revision of an open ledger; equal artifacts change nothing, others become the next revision with its snapshot |
| DraftLedgers.CreateExact | src/codemigrator/runtime/draft.py:143-148 | Creating is accepted exactly while the ledger is open, and makes the first revision or revises the latest one |
| DraftLedgers.AskExact | src/codemigrator/runtime/draft.py:161-171 | A question is accepted exactly when it targets the latest revision and is known as it stands, or new while the ledger is open; it is then held, and nothing else changes |
| DraftLedgers.ReplyExact | src/codemigrator/runtime/draft.py:173-190 | An answer is accepted exactly when it targets the latest revision and a question of it with a choice that it offers, and is known as it stands or new while the ledger is open; it is then held, and nothing else changes |
| DraftLedgers.LiveFreezeExact | src/codemigrator/runtime/draft.py:192-227 | Freezing is accepted exactly for the latest revision, again or with pointers to all of its questions, each once and each answered; the receipt is of that revision and points to them in order |
| DraftLedgers.FrozenIsFinal | src/codemigrator/runtime/draft.py:143-249 | A frozen ledger never changes again |
| DraftLedgers.ReviseKeeps | src/codemigrator/runtime/draft.py:143-159 | Creating and revising keep consistency and never repeat the artifacts |
| DraftLedgers.AskKeeps | src/codemigrator/runtime/draft.py:161-171 | A question keeps consistency |
| DraftLedgers.ReplyKeeps | src/codemigrator/runtime/draft.py:173-190 | An answer keeps consistency |
| DraftLedgers.FreezeKeeps | src/codemigrator/runtime/draft.py:192-227 | Freezing keeps consistency |
| DraftLedgers.QuestionsAccepted | src/codemigrator/runtime/draft.py:111-116 | Questions of known revisions without repetition are all taken |
| DraftLedgers.AnswersAccepted | src/codemigrator/runtime/draft.py:118-129 | Answers that match their questions without repetition are all taken |
| DraftFactLog.EveryPrefixRestores | src/codemigrator/runtime/draft_graph.py:234-301 | When commits stop at the first store failure, every prefix of the committed facts restores, over all command sequences |
| DraftFactLog.ExecuteExact | src/codemigrator/runtime/draft_graph.py:678-806 | Any one command keeps every prefix of the log loadable, if and only if it is not an answer that is about to be written without its question in the log |
| DraftFactLog.CommitAnswerExact | src/codemigrator/runtime/draft_graph.py:787-806 | Committing an answer keeps the log loadable exactly when a write (the live ledger takes the answer, the store has none, is open and works) finds its question committed before it |
| DraftFactLog.QuestionSaved | src/codemigrator/runtime/draft_graph.py:724-758 | A question commit that succeeds leaves a log that loads with that question |
| DraftFactLog.AnswerSaved | src/codemigrator/runtime/draft_graph.py:787-806 | An answer commit that succeeds leaves a log that loads with that answer, if its question was committed |
| DraftFactLog.FreezeSaved | src/codemigrator/runtime/draft_graph.py:268-301 | A freeze commit that succeeds leaves a log that loads as exactly the frozen live ledger |
| DraftFactLog.RevisionsGoExactly | src/codemigrator/runtime/draft_graph.py:234-266 | Persisting the current revision succeeds exactly when all live revisions are persisted, or all but one, the log is open and the store works |
| DraftFactLog.QuestionGoesExactly | src/codemigrator/runtime/draft_graph.py:724-758 | A question commit succeeds exactly when its revision goes and the question either is persisted already or can be asked live and the log is open and the store works |
| DraftFactLog.AnswerGoesExactly | src/codemigrator/runtime/draft_graph.py:787-806 | An answer commit succeeds exactly when the live ledger takes the answer and it is persisted already or the log is open and the store works |
| DraftFactLog.FreezeGoesExactly | src/codemigrator/runtime/draft_graph.py:268-301 | A freeze commit succeeds exactly when the live ledger is frozen, its questions and answers are persisted, at most one revision is not, and the log is open and the store works or the freeze is persisted already; the log then loads as the live ledger |
| DraftFactLog.FreezeReachesLog | src/codemigrator/runtime/draft_graph.py:268-301 | After any commands with a working store, saving a live freeze leaves a log that loads as exactly the frozen live ledger if and only if at most one live revision was not persisted before |
| DraftFactLog.AnswerAfterFailedQuestion | src/codemigrator/runtime/draft_graph.py:724-806 | A failed question commit followed by its answer leaves a log that never restores |
| DraftFactLog.OrphanAnswerBreaks | src/codemigrator/runtime/draft.py:118-123 | An answer without its question in the log can never be loaded |
| DraftFactLog.LoadExact | src/codemigrator/runtime/draft_graph.py:678-722 | A log loads as a ledger exactly when it holds that ledger's facts and the ledger is consistent |
| DraftFactLog.PersistRevisionKeeps | src/codemigrator/runtime/draft_graph.py:234-266 | Persisting the current revision keeps the log loadable below the live ledger; success means all live revisions are persisted |
| DraftFactLog.PersistRevisionCases | src/codemigrator/runtime/draft_graph.py:234-266 | Persisting is a no-op when up to date and otherwise adds exactly one next revision or fails |
| DraftFactLog.CommitQuestionKeeps | src/codemigrator/runtime/draft_graph.py:724-758 | Committing a question keeps the log loadable |
| DraftFactLog.PersistFreezeKeeps | src/codemigrator/runtime/draft_graph.py:268-301 | Persisting the freeze keeps the log loadable |
| DraftFactLog.FreezeAgainstOthers | src/codemigrator/runtime/draft_graph.py:268-301 | Whatever other owners commit between the reading of the log and the commit, as long as they keep it loadable: the own freeze is only written onto the facts that were read, and success means that the log is frozen by exactly the live receipt |
| DraftFactLog.RestoredKeeps | src/codemigrator/runtime/draft_graph.py:303-306 | Restoring makes the live ledger the persisted one |
| DraftFactLog.WorkingStoreSyncs | src/codemigrator/runtime/draft_graph.py:234-806 | With a working store, live and persisted questions and answers always agree |
| DraftObjects.DraftLedger.CurrentRevision | src/codemigrator/runtime/draft.py:55-58 | The current identifier names the last revision |
| DraftObjects.DraftLedger.NewRevision | src/codemigrator/runtime/draft.py:229-243 | A new revision is numbered next and becomes current |
| DraftObjects.DraftLedger.ReviseRevision | src/codemigrator/runtime/draft.py:150-159 | Revising: a no-op on equal snapshots, a conflict on a stale or frozen target |
| DraftObjects.DraftLedger.CreateRevision | src/codemigrator/runtime/draft.py:143-148 | Creating: the first revision, or a revision of the current one |
| DraftObjects.DraftLedger.AppendQuestion | src/codemigrator/runtime/draft.py:161-171 | Asking: idempotent on the same question, a conflict on another one |
| DraftObjects.DraftLedger.AnswerQuestion | src/codemigrator/runtime/draft.py:173-190 | Answering: idempotent on the same answer, a conflict on another one |
| DraftObjects.DraftLedger.FreezeRevision | src/codemigrator/runtime/draft.py:192-227 | Freezing is all or nothing; without pointers it takes every current question |
| DraftObjects.CheckRevisions | src/codemigrator/runtime/draft.py:92-109 | Revisions are accepted exactly when contiguous, distinct and with their own snapshots |
| DraftObjects.CollectQuestions | src/codemigrator/runtime/draft.py:111-116 | The question loop of restore |
| DraftObjects.CollectAnswers | src/codemigrator/runtime/draft.py:118-129 | The answer loop of restore |
| DraftObjects.RestoreLedger | src/codemigrator/runtime/draft.py:80-141 | Restore as loops over the facts: a ledger object with exactly the restored contents, or nothing |
| DraftObjects.DraftFlowOwner.RestoreFromLog | src/codemigrator/runtime/draft_graph.py:303-306 | After a restore the live ledger is a new object that equals what the log loads as, or the old one when the log does not load; a durable owner stays durable |
| DraftObjects.DraftFlowOwner.LoadPersisted | src/codemigrator/runtime/draft_graph.py:678-722 | The facts are sorted by kind and the ledger rebuilt from them: a new object with exactly the loaded contents, or nothing when they are inconsistent |
| DraftObjects.DraftFlowOwner.AppendFact | src/codemigrator/runtime/store.py:528-584 | A fact reaches the end of the log exactly when the store works and the Draft is not frozen; otherwise the log is unchanged, and a frozen Draft makes the owner hold only what the log loads as |
| DraftObjects.DraftFlowOwner.PersistCurrentRevision | src/codemigrator/runtime/draft_graph.py:234-266 | Keeps every prefix of the log loadable; a durable owner succeeds exactly when at most one live revision is missing and can be written, and the log then loads with exactly the live revisions |
| DraftObjects.DraftFlowOwner.CommitQuestionFact | src/codemigrator/runtime/draft_graph.py:724-758 | Keeps every prefix of the log loadable, over the loops that rebuild the persisted ledger; says exactly when a durable owner succeeds, and success means that the log loads with the question |
| DraftObjects.DraftFlowOwner.CommitAnswerFact | src/codemigrator/runtime/draft_graph.py:787-806 | Keeps every prefix of the log loadable exactly when a write finds its question committed; says exactly when a durable owner succeeds, which then means that the log loads with the answer |
| DraftObjects.DraftFlowOwner.PersistFreezeReceipt | src/codemigrator/runtime/draft_graph.py:268-301 | Without rival writes every prefix of the log stays loadable, a durable owner succeeds exactly when the live ledger is frozen, the rest is persisted up to one revision and the store works, and the log then loads as exactly the frozen live ledger; with rival writes, the freeze is not written and the owner holds what the log loads as |
| TaskKeys.RevisionKeyExact | src/codemigrator/runtime/draft_graph.py:1634-1675 | On ASCII keys a parser returns a revision exactly for the keys the printer prints with it |
| TaskKeys.PrintedKeyReads | src/codemigrator/runtime/draft_graph.py:1634-1675 | Printing and reading back is the identity |
| TaskKeys.RoundKeyExact | src/codemigrator/runtime/draft_graph.py:1624-1685 | The same for coordinator rounds |
| TaskKeys.KeysAreDisjoint | src/codemigrator/runtime/draft_graph.py:1646-1685 | No key is read by two parsers |
| TaskKeys.ForeignDigitsRead | src/codemigrator/runtime/draft_graph.py:1678-1685 | A non-ASCII digit is read as a number that prints differently |
| DraftValidation.BuildDomainSkeleton | src/codemigrator/runtime/draft_validation.py:20-105 | The loops return exactly the grouped skeleton when all modules are well formed, disjoint and within the fanout, and refuse otherwise; in what is returned every file of a split module stands in the domain of its first directory below the module |
| DraftValidation.SkeletonIsExact | src/codemigrator/runtime/draft_validation.py:20-105 | Whatever is returned holds every input file exactly once |
| DraftValidation.SkeletonIsCovered | src/codemigrator/runtime/draft_validation.py:20-142 | End to end: the check accepts a built skeleton against its own input, and against a list of paths exactly when that is a rearrangement of the input |
| DraftValidation.SkeletonConserves | src/codemigrator/runtime/draft_validation.py:69-99 | Grouping neither drops nor duplicates a file |
| DraftValidation.DomainExact | src/codemigrator/runtime/draft_validation.py:78-99 | A file goes to the domain of its first directory below its module, or to the module itself when there is none, and lies below its domain, exactly unless the module is itself a file in a directory |
| DraftValidation.GroupedByDirectory | src/codemigrator/runtime/draft_validation.py:69-99 | Grouping a large module: every domain holds files of its directory and only those, no domain is empty, none occurs twice, they are in order, and so are their files |
| DraftValidation.SharedDomain | src/codemigrator/runtime/draft_validation.py:78-99 | Two files of a large module share a domain exactly when they lie in the same directory below it, or both in none |
| DraftValidation.SkeletonIsWellGrouped | src/codemigrator/runtime/draft_validation.py:20-105 | So it is for every module of a skeleton, while a small module stays one domain |
| DraftValidation.NestedFileExample | src/codemigrator/runtime/draft_validation.py:78-99 | A valid module that is itself a file in a directory goes to a domain it does not lie in |
| DraftValidation.GroupModule | src/codemigrator/runtime/draft_validation.py:78-99 | The grouping loop of one large module: by first directory below the module |
| DraftValidation.Duplicates | src/codemigrator/runtime/draft_validation.py:211-218 | Exactly the repeated paths, once each and sorted |
| DraftValidation.ValidateExactCoverage | src/codemigrator/runtime/draft_validation.py:108-142 | Valid exactly when both file multisets are equal and duplicate-free; the report names exactly the missing, unknown and repeated files |
| ScopePatterns.PatternContainmentExact | src/codemigrator/core/scope.py:68-81 | The containment decision agrees with inclusion of the matched paths exactly when no newline gap lies between the patterns; inclusion always implies the decision |
| ScopePatterns.NewlineGapExample | src/codemigrator/core/scope.py:48-53 | Two patterns that pass validation, where the decision accepts and inclusion fails, through the final newline of `$` |
| ScopePatterns.ExcludesContainedExact | src/codemigrator/core/scope.py:84-87 | Every excluded path is an included path exactly when the includes reach two witnesses of each exclude; and that is what the gate answers for every list in which no exclude ends in a newline |
| ScopePatterns.CoverageExact | src/codemigrator/core/scope.py:68-87 | The includes together cover an exclude exactly when they reach its two witnesses |
| ScopePatterns.NewlineExcludeExamples | src/codemigrator/core/scope.py:84-87 | For an exclude that ends in a newline the gate errs both ways: valid patterns for which it is too lenient, and others for which it is too strict |
| ScopePatterns.MatchesAccepts | src/codemigrator/core/scope.py:48-61 | The regular expression match of a valid pattern, as prefix, segment and suffix conditions |
| ScopePatterns.ContainmentImpliesInclusion | src/codemigrator/core/scope.py:68-81 | Without a gap, containment implies inclusion of every path |
| ScopePatterns.InclusionImpliesContainment | src/codemigrator/core/scope.py:68-81 | Inclusion of every path implies the containment decision |
| ScopePatterns.GapBreaksInclusion | src/codemigrator/core/scope.py:48-81 | Every newline gap breaks inclusion although the decision says yes |
| ScopePatterns.ValidIsShaped | src/codemigrator/core/scope.py:18-45 | What validation guarantees: a directory without star, a literal, or one star in the last segment |
| WriteScopes.OverlapIsSharedPath | src/codemigrator/planning/validator.py:590-612 | Two scopes overlap exactly when some path is writable by both |
| WriteScopes.ValidateScopeConflicts | src/codemigrator/planning/validator.py:568-587 | No conflict is reported exactly when every path has at most one writer |
| WriteScopes.ValidateArtifacts | src/codemigrator/planning/validator.py:483-534 | No violation is reported exactly when tasks and facts can be paired one to one with equal kinds |
| WriteScopes.InRootIsBelow | src/codemigrator/planning/validator.py:611-612 | The prefix test on a root is: the path is the root, or goes on from it with a slash |
| WriteScopes.MatchedIsPairing | src/codemigrator/planning/validator.py:483-534 | Mutually unique matches form a pairing |
| WriteScopes.PairingIsMatched | src/codemigrator/planning/validator.py:483-534 | A pairing makes every match unique |
| PlanGraph.HasCycle | src/codemigrator/planning/validator.py:656-674 | Kahn's algorithm answers yes exactly when the edges between proposed slices contain a closed walk |
| PlanGraph.BuildAdjacency | src/codemigrator/planning/validator.py:656-665 | Adjacency and indegrees hold exactly the distinct edges between proposed slices |
| PlanGraph.ReleaseChildren | src/codemigrator/planning/validator.py:668-673 | Releasing a node lowers each child once and queues those that reach zero |
| PlanGraph.StuckIsCyclic | src/codemigrator/planning/validator.py:666-674 | A run that dries up with nodes left leaves a closed walk |
| PlanGraph.VisitedAll | src/codemigrator/planning/validator.py:666-674 | A run that visits every node excludes one |
| PlanGraph.IncreasingIsAcyclic | src/codemigrator/planning/validator.py:677-711 | Heights that rise along every edge exclude closed walks |
| SourceCoverage.ValidateCoverage | src/codemigrator/planning/validator.py:57-109 | No violation is reported exactly when every source file in scope is listed once by the translating slices, and then exactly one slice covers it |
| SourceCoverage.ListedOnce | src/codemigrator/planning/validator.py:61-109 | A file listed once is covered by one slice, and a file that is not listed by none |
| SourceCoverage.ExpectedFiles | src/codemigrator/planning/validator.py:374-384 | The files to cover are those of modules, in scope, that are not artifacts |
| SourceCoverage.ValidateSliceModules | src/codemigrator/planning/validator.py:151-217 | No violation is reported exactly when every module of a slice is known, in scope, and of the role the slice needs |
| PlanGuards.ValidateTestEdges | src/codemigrator/planning/validator.py:430-480 | The edges reported are exactly those, in either direction, between a slice that makes tests and an implementation slice of a module they test |
| PlanGuards.ValidateResources | src/codemigrator/planning/validator.py:537-565 | No violation is reported exactly when no resource file is written where a translating slice may write |
| PlanGuards.ValidateBlueprint | src/codemigrator/planning/validator.py:615-639 | No violation is reported exactly when every path that any slice may write, listed or below a root, lies under a target prefix, if there are prefixes |
| PlanGuards.ValidateLimits | src/codemigrator/planning/validator.py:714-744 | No violation is reported exactly when the numbers of slices, edges and write paths, for each slice and in all, are within the limits |
| PlanFreezing.ValidateRanks | src/codemigrator/planning/validator.py:677-711 | No rank violation is reported exactly when every slice has a non-negative rank and every edge rises |
| PlanFreezing.RanksExcludeCycles | src/codemigrator/planning/validator.py:656-711 | Consistent ranks imply that there is no cycle |
| PlanFreezing.ValidateEdges | src/codemigrator/planning/validator.py:387-427 | No edge violation is reported exactly when edges are allowed and distinct |
| PlanFreezing.PlanLedger.Freeze | src/codemigrator/planning/validator.py:235-321 | A plan is published exactly when all guards accept, with its identifiers, edges and order, and then exactly one slice covers every file that has to be covered |
| PlanFreezing.OrderIsTopological | src/codemigrator/planning/validator.py:280-310 | The integration order lists every slice once and every frozen edge forward |
| PlanFreezing.OrderIsByRank | src/codemigrator/planning/validator.py:273-281 | One slice stands before another in the integration order exactly when its rank is smaller, or equal and its identifier smaller |
| PlanFreezing.CollectEdges | src/codemigrator/runtime/execution_agent.py:355-380 | The predecessor sets hold exactly the sources of the edges of each kind |
| PlanFreezing.ProjectDependencies | src/codemigrator/runtime/execution_agent.py:355-380 | The projection of a frozen plan, or a refusal of unknown endpoints |
| PlanFreezing.ProjectionIsFaithful | src/codemigrator/runtime/execution_agent.py:355-380 | A slice is a predecessor in the projection exactly when the proposal has that edge |
| Scheduling.FairScheduler.Submit | src/codemigrator/runtime/scheduler.py:59-85 | Submitting replaces the queued generation unless it is in flight, and keeps reserved scopes disjoint |
| Scheduling.FairScheduler.MarkIntegrated | src/codemigrator/runtime/scheduler.py:92-110 | An integration makes dependents eligible only for the queued generation, and ends the reservation of the named one |
| Scheduling.FairScheduler.Release | src/codemigrator/runtime/scheduler.py:112-119 | The reservation of the named generation, or of the queued one, is dropped without an outcome |
| Scheduling.FairScheduler.AwaitIntegration | src/codemigrator/runtime/scheduler.py:121-129 | A candidate gives up its reservation and waits; it is neither dispatched again nor a met dependency |
| Scheduling.FairScheduler.RestoreCommittedFacts | src/codemigrator/runtime/scheduler.py:131-146 | Readiness is rebuilt from committed facts alone; an integrated slice is never a failed one |
| Scheduling.FairScheduler.Next | src/codemigrator/runtime/scheduler.py:148-194 | The selection is the first eligible item of its queue, of the first permitted Run in rotation that has one, reserved under a scope that shares no path with the active scopes nor with any other reservation of its Run; or nothing, exactly when no permitted Run has any |
| Scheduling.FairScheduler.Search | src/codemigrator/runtime/scheduler.py:172-193 | The first item of a queue that may be dispatched, or none |
| Scheduling.OverlapIsSharedPath | src/codemigrator/runtime/scheduler.py:207-216 | The string test on two scopes holds exactly when some path lies in both: it is an entry, or goes on from one, without trailing slashes, with a slash |
| Scheduling.SubmitQueues | src/codemigrator/runtime/scheduler.py:59-85 | A submission is refused exactly when the slice is in flight under another item; otherwise the queue holds the item, once, and everything else it held |
| Scheduling.SubmitOutcomes | src/codemigrator/runtime/scheduler.py:59-85 | A new generation starts without any outcome, and no other slice loses or gains one |
| Scheduling.IntegrateMeans | src/codemigrator/runtime/scheduler.py:92-110 | Only an integration of the queued generation counts: it integrates the slice and clears its earlier outcomes; exactly the named reservations end |
| Scheduling.AwaitMeans | src/codemigrator/runtime/scheduler.py:121-129 | Exactly the named candidate waits, and gives up its reservation |
| Scheduling.RestoreMeans | src/codemigrator/runtime/scheduler.py:131-146 | The outcomes of the Run become exactly the committed ones, an integrated slice being no failed one, none of its candidates waits, and other Runs stay as they are |
| Scheduling.ReleaseMeans | src/codemigrator/runtime/scheduler.py:112-119 | A release ends exactly the named reservations and changes nothing else |
| Scheduling.OperationsKeepRotation | src/codemigrator/runtime/scheduler.py:59-146 | Nothing but a selection moves the cursor, Runs only join at the end of the rotation, and reserved scopes stay disjoint |
| Scheduling.FirstIsNearest | src/codemigrator/runtime/scheduler.py:156-194 | The Run that is first in rotation lies no further from the cursor than any other with an eligible item |
| Scheduling.NoRunStarves | src/codemigrator/runtime/scheduler.py:148-194 | Over any history of unrestricted selections, with any other operations and new Runs between them, a Run with an eligible item at every selection is served within as many selections as there are Runs in the end |
| DispatchRounds.ProgressExact | src/codemigrator/runtime/execution_agent.py:401-528 | Some slice is ready and can be dispatched exactly when some remaining slice is not held back, by a failure or by a slice that cannot be dispatched |
| DispatchRounds.PersistentScheduler.AdvanceOneRound | src/codemigrator/runtime/execution_agent.py:401-528 | One round prepares, selects, dispatches and settles; its decision is that of the round, no reservation of it survives, and exactly its candidates wait for integration |
| DispatchRounds.PersistentScheduler.Prepare | src/codemigrator/runtime/execution_agent.py:411-427 | Committed facts, waiting candidates and work are handed to the scheduler, or a submission is refused |
| DispatchRounds.PersistentScheduler.SelectWork | src/codemigrator/runtime/execution_agent.py:429-451 | Selections in a row until the parallelism is used up or nothing is eligible; a selection outside the plan is undone with all others |
| DispatchRounds.PicksAreReady | src/codemigrator/runtime/execution_agent.py:430-451 | What a round dispatches together is of the plan, ready by committed facts, with free pools, distinct, and no path lies in the scopes of two of them |
| DispatchRounds.PicksAllItMay | src/codemigrator/runtime/execution_agent.py:432-451 | A round picks all it may: while it has room, every queued item that was ready and shared no path with what was under way is picked or shares a path with one that is |
| DispatchRounds.SettledExactly | src/codemigrator/runtime/execution_agent.py:457-521 | What a round leaves: exactly the candidates it found again or dispatched with success wait for integration, and no reservation of it survives |
| DispatchRounds.RoundExact | src/codemigrator/runtime/execution_agent.py:401-528 | One round, whatever candidates wait, terminals were recovered or pools are available, without stale work in the queue: it is never refused and never strays; it finishes exactly when all slices are integrated, and otherwise stalls exactly when nothing was recovered and everything that remains is held back; it dispatches only what is ready, and nothing only when nothing can be |
| DispatchRounds.SelectionExact | src/codemigrator/runtime/scheduler.py:148-194 | The first selection of a prepared round finds something exactly when some slice is ready and offered in an available pool |
| DispatchRounds.RoundLeavesQuiet | src/codemigrator/runtime/execution_agent.py:499-528 | After a round nothing of the Run is in flight |
| DispatchRounds.StaleStrays | src/codemigrator/runtime/execution_agent.py:429-451 | A round whose first eligible item is not of its plan strays and dispatches nothing; a round for one item strays exactly then |
| DispatchRounds.RecoveredStrays | src/codemigrator/runtime/execution_agent.py:423-467 | So does, on a concrete plan, the round after a terminal AgentRun was found again while its item is still queued |
| DispatchRounds.IdleRoundWaits | src/codemigrator/runtime/execution_agent.py:452-475 | Without failures, a round that dispatches nothing before the end has candidates waiting that are not integrated |
| DispatchRounds.RoundsAdvance | src/codemigrator/runtime/execution_agent.py:401-528 | Without failures every round moves something on, from remaining to waiting or from waiting to integrated, until all is integrated |
| DispatchRounds.FailureFreeRunFinishes | src/codemigrator/runtime/execution_agent.py:401-528 | A Run of any accepted plan whose rounds meet no failure is finished after at most twice as many rounds as the plan has slices, whenever its candidates wait, and after as many as it has slices if none ever does at the start of a round |
| DispatchRounds.AcceptedPlanIsLayered | src/codemigrator/planning/validator.py:235-321 | Every accepted plan satisfies what these progress results assume |
| RoundReports.Report | src/codemigrator/runtime/execution_agent.py:457-528 | What a round reports: every AgentRun found again or dispatched among the ended ones, in order, and those with a candidate, each claiming it under its own name; a report of distinct AgentRuns passes the actor's comparison |
| RoundReports.Collect | src/codemigrator/runtime/execution_agent.py:457-528 | The two loops that add ended AgentRuns to the report |
| RoundReports.ReportsMatch | src/codemigrator/runtime/actor.py:874-900 | The claims of a report name exactly its completed AgentRuns, once each, and those are among the ended ones |
| RoundReports.ReportIsTaken | src/codemigrator/runtime/actor.py:874-970 | A reported round of new candidates moves an executing Run on exactly when every AgentRun in it has the receipt of its session and every candidate starts from where its pair stands; each then is the current one of its pair |
| JsonNesting.ScannerIsExact | src/codemigrator/core/spec.py:45-73 | For every JSON value and every way to write it, with any whitespace and escapes, the scanner says yes exactly when the parsed value is deeper than the limit |
| JsonNesting.NestingExceedsLimit | src/codemigrator/core/spec.py:52-73 | The character loop computes the scan |
| JsonNesting.DepthIsHeight | src/codemigrator/core/spec.py:45-49 | The recursive depth counts the containers on the longest path |
| JsonNesting.ScanValue | src/codemigrator/core/spec.py:52-73 | Scanning a value returns to the same depth or passes the limit, by its height alone |
| GrammarCaches.GrammarCache.constructor | src/codemigrator/analysis/grammar.py:82-86 | An empty cache of positive capacity |
| GrammarCaches.GrammarCache.GetOrLoad | src/codemigrator/analysis/grammar.py:88-104 | The cache always holds exactly the most recently used distinct keys in last-use order, and every answer is the loaded value |
| GrammarCaches.BoundedAccess | src/codemigrator/analysis/grammar.py:88-104 | One access on the bounded order: a hit moves to the end, a miss drops the oldest |
| GrammarCaches.OrderIsByLastUse | src/codemigrator/analysis/grammar.py:88-104 | A later key in the order was used after the last use of an earlier one |
| GrammarCaches.CircuitBreaker.Run | src/codemigrator/analysis/grammar.py:55-73 | A grammar's circuit is open exactly when two of its runs crashed in a row, whatever other grammars did |
| GrammarCaches.OpensOnTwoCrashes | src/codemigrator/analysis/grammar.py:55-73 | The failure counter reaches two exactly when two consecutive runs crashed |
| Canonical.CanonicalExact | src/codemigrator/analysis/canonical.py:16-44 | Two values have equal canonical text if and only if they agree up to the order of list items and members at any depth |
| Canonical.NormalizeIdempotent | src/codemigrator/analysis/canonical.py:16-29 | Normalizing twice is normalizing once |
| Canonical.Decodes | src/codemigrator/analysis/canonical.py:32-44 | Two canonical texts that continue with delimiters and agree are the same text |
| Canonical.QuoteDecodes | src/codemigrator/analysis/canonical.py:32-44 | A quoted text determines the text it quotes |
| Canonical.QuoteReads | src/codemigrator/analysis/canonical.py:32-44 | A JSON string reader (section 7 of RFC 8259) reads a quoted text back, whatever follows it |
| Canonical.TextsOfSort | src/codemigrator/analysis/canonical.py:21-28 | Sorting values by their text and writing them is sorting the texts |
| TextSorting.LessExact | src/codemigrator/runtime/draft_validation.py:95-97 | The order of texts is by code point: at the first difference the smaller character, or the end, comes first |
| CasProtocol.SafeExactlyWhenImmutable | src/codemigrator/runtime/cas.py:189-226 | Over every interleaving and crash of publication, release, orphan collection and thread deletion, every referenced object is present if and only if each released key is only ever bound to one digest |
| CasProtocol.MoveKeeps | src/codemigrator/runtime/cas.py:189-226 | Under that policy every step keeps the protocol invariant |
| CasProtocol.LocksAreKept | src/codemigrator/runtime/cas.py:159-170 | Mutual exclusion of the digest locks holds under every policy |
| CasProtocol.BindKeeps | src/codemigrator/runtime/checkpointer.py:137-192 | Binding a reference under the digest's lock keeps the invariant |
| CasProtocol.PopKeeps | src/codemigrator/runtime/cas.py:205-212 | Removing the last reference keeps the invariant when the key is immutable |
| CasProtocol.DeleteKeeps | src/codemigrator/runtime/checkpointer.py:285-296 | Deleting under the lock removes no referenced object |
| CasProtocol.AloneExact | src/codemigrator/runtime/cas.py:189-226 | An operation that runs to its end undisturbed leaves exactly what it should: a release takes the object exactly with its last reference, a thread deletion exactly the objects that only its keys named, a sweep exactly those that nothing refers to, and nothing else goes |
| CasProtocol.AloneFinishes | src/codemigrator/runtime/cas.py:189-226 | When nobody else holds a lock, an operation can always run to its end |
| CasProtocol.InterleavingLoses | src/codemigrator/runtime/cas.py:205-212 | A concrete interleaving in which a rebound key loses a referenced object |
| SseReplay.ClientSeesPrefix | src/codemigrator/api/sse.py:64-182 | At any moment the client has a prefix of what the ledger owes it, and all of it when the stream ends |
| SseReplay.SentIsOwed | src/codemigrator/api/sse.py:120-182 | What an anchored connection sent is a prefix of what is owed, however the ledger grows, and all of it once the stream has ended |
| SseReplay.StreamIsConsecutive | src/codemigrator/api/sse.py:152-172 | The ids have no gap and no repetition |
| SseReplay.StreamGrows | src/codemigrator/api/sse.py:152-172 | A growing ledger only adds ids at the end |
| SseReplay.StreamEnds | src/codemigrator/api/sse.py:171-172 | Nothing is added behind a terminal event |
| SseReplay.ReconnectContinues | src/codemigrator/api/sse.py:131-156 | Reconnecting with the last delivered id continues the same stream |
| SseReplay.Connection.Deliver | src/codemigrator/api/sse.py:153-172 | One read is delivered in ledger order, whatever order it came in, up to a terminal event or a full queue |
| SseReplay.Connection.Round | src/codemigrator/api/sse.py:149-182 | A round left open has sent exactly the ledger above the cursor as it read it; a committed terminal event that is read ends the stream; the queue overflows only if it lacks the room |
| SseReplay.Connection.Produce | src/codemigrator/api/sse.py:149-182 | The whole loop, with the ledger growing between any two observations and reads in any order: while it is open the client has been given exactly what the ledger owed at the last read, and at the end all of it; it overflows only if the queue lacks the room for what it held, the whole ledger and one more item for each turn |
| SseReplay.AllSent | src/codemigrator/api/sse.py:152-172 | An open connection that has caught up with the ledger has sent all of the stream |
| SseReplay.OwedExactlyWhenAnchored | src/codemigrator/api/sse.py:131-172 | Whatever a connection sends is owed, in every state, if and only if the ledger has reached its start or its stream had already ended |
| SseReplay.Connection.Send | src/codemigrator/api/sse.py:157-172 | The next owed event is sent, or the queue overflows |
| SseReplay.Connection.Yield | src/codemigrator/api/sse.py:97-111 | The client takes the items in order |
| SseReplay.AheadOfLedger | src/codemigrator/api/sse.py:149-172 | From every other start a run of the producer sends an id that is not owed |
| SseReplay.ConnectionManager.Acquire | src/codemigrator/api/sse.py:50-54 | A lease is granted exactly while fewer than the limit are open |
| SseReplay.Lease.Close | src/codemigrator/api/sse.py:34-37 | Closing returns the place once |
| Reachability.ReverseImportClosure | src/codemigrator/planning/ripple.py:133-152 | Exactly the seeds and what depends on them over any chain of imports, relations and coverage |
| Reachability.Explore | src/codemigrator/planning/ripple.py:144-152 | Breadth-first search yields exactly what is reachable |
| Reachability.Impact | src/codemigrator/analysis/query.py:346-388 | Where the modules are that the module named by the query has an impact on over any chain of imports in its direction, in the order of the modules, at the start of their first file; nothing for an unknown name |
| Reachability.Symmetrize | src/codemigrator/analysis/query.py:371-375 | Mutating the adjacency in place while reading it yields exactly the symmetric graph |
| Reachability.Transpose | src/codemigrator/analysis/query.py:366-370 | The upstream graph reverses every edge |
| Reachability.Collect | src/codemigrator/analysis/query.py:376-383 | Depth-first search with repeated entries yields exactly what is reachable |
| Reachability.ImpactDual | src/codemigrator/analysis/query.py:360-370 | Downstream and upstream impact are dual |
| Reachability.ImpactBoth | src/codemigrator/analysis/query.py:371-375 | Impact in both directions is symmetric and contains the downstream one |
| Ripple.CalculateRipple | src/codemigrator/planning/ripple.py:31-130 | From the changed symbols: what depends on the modules they change is affected, the slices made from that are invalidated or, if integrated, compensated, each list in rank order, and the estimate equals the total of the rank distribution |
| Ripple.ChangedModules | src/codemigrator/planning/ripple.py:40-94 | The changed modules are those the index connects with a symbol or, when it connects none, those that export one; the reasons given are exactly those for which the answer may be too coarse |
| Ripple.MentioningModules | src/codemigrator/planning/ripple.py:68-80 | The reference loop: the modules that mention a symbol, and one reason for each ambiguous one |
| Ripple.Ordered | src/codemigrator/planning/ripple.py:111-116 | The slices of a set, once each, by rank and then by reference |
| Ripple.Distribute | src/codemigrator/planning/ripple.py:117-119 | The rank distribution counts the affected slices of each rank |
| TextOffsets.CharactersRoundTrip | src/codemigrator/analysis/pipeline.py:113-118 | Characters to bytes and back is the identity |
| TextOffsets.BytesRoundTrip | src/codemigrator/analysis/pipeline.py:113-118 | Bytes to characters and back rounds down to a character boundary, and is the identity exactly at one |
| TextOffsets.PositionRoundTrip | src/codemigrator/analysis/pipeline.py:97-106 | A position read back gives its offset exactly when no foreign line break lies above its line |
| TextOffsets.PlainTextRoundTrips | src/codemigrator/analysis/pipeline.py:275-282 | Every offset survives in a text whose only line breaks are line feeds, with or without carriage returns |
| TextOffsets.LinesAndNewlines | src/codemigrator/analysis/pipeline.py:275-282 | `splitlines` finds one line for each line feed and one for an unfinished end exactly when there is no foreign break before it |

## Left out

- PostgreSQL, HTTP routes, graph and provider plumbing, the sandbox, the web and command-line front ends: input and output.
- Hashing, RFC 8785 serialization and identifier generation: a digest is represented by what it digests, an identifier is a fresh value.
- Fields and single-branch checks of AgentRun records, advice content, dossiers and other transfer objects: parameters that say whether they pass.
- PlanFreezing.PlanLedger.Freeze: the text patterns by which target prefixes are read out of the blueprint; the prefixes are an input.
- The stage gates of `DraftFlow` and the materialization of agent results: the owner is proved for any order of operations, which covers every gated one.
- Asynchronous cancellation and shutdown of the actor, and which callers share the answer of one execution round: the mailbox is serial and a commit succeeds or changes nothing.
- A Run creation that joins an outer transaction and is rolled back by it.
- An object put into the CAS before `commit_agent_run_receipt` binds it without the digest's lock: only the grace period of the orphan collector protects it there.
- Iteration order of Python sets: any order.
- Scheduling.NoRunStarves: is about unrestricted selections; `advance_one_round` restricts each of its own to one Run.
- DispatchRounds.RoundExact: a plan that offers a further generation of a slice it also reports as failed is outside `PlanFor`; `AdvanceOneRound` covers it.
- DraftFactLog.FreezeAgainstOthers: facts of other owners are taken into account for the freeze, the one commit that names the facts it expects; the other commits are proved for one owner.
- `_limit` and the order it gives the hits of all queries, the memory governors, the audit machine, the retry budget and the idempotency map: they would only add easy members.
- RunMachine.Warns: utilization is compared as an exact fraction, not as a rounded floating-point quotient.
- SseReplay.Connection.Round: redaction that rejects a record, and the wall-clock timing of heartbeats, are not modelled.
- IntegrationProtocol.IntegrationHost.Integrate: the outcome type does not carry the text of the source's exceptions.
