# Flight recorder: a verified model

This project models the parts of the flight recorder that must hold over whole runs: the
CRM poll queue with fenced ownership, the append-only ledger with its attribution policy
and supersession chains, the provenance and exact replay of CRM decisions, the two
external-write protocols, the evaluator with its counterfactual comparison, the resumable
seed schedule, the scoped decision metrics, and three algorithms of the dataset generator
and the public demo. `dafny verify dfyconfig.toml` checks everything.

## How it is laid out

| part | files |
|---|---|
| poll queue | `PollTables` (tables and operations as state functions), `PollInvariant`, `PollSteps`, `PollRuns`, `PollStore` (the mutable store), `PollRunner` (the driver of one target), `PollLiveness` (what can still be released) |
| ledger and attribution | `Ledger`, `AttributionPolicy`, `Collector` (the mutable store), `AttributionSafety`, `AttributionCredit`, `AttributionOrder`, `AttributionRun`, `AttributionRunSafety`, `AttributionRepeat`, `AttributionSubmit` |
| version 1 decisions | `DecisionRecords` (what a decision may refer to), `DecisionReplay` (its reconstruction), `DecisionExample` (one that is never reproduced) |
| schedule and metrics | `Schedules`, `ScheduleExample` (one that cannot be run again), `Insights`, `InsightsScoping`, `InsightsMeaning` |
| CRM decisions | `CrmModel`, `CrmProvenance` (ingest), `CrmReplay` (read-back), `CrmMonotone`, `CrmReplaySafety`, `CrmExactReplay`, `CrmCounterfactual`, `CrmStore` (the mutable store) |
| write protocols | `CrmOperations`, `CrmOperationLog`, `CrmOperationSafety`, `CrmOperationLiveness` (what the transition check leaves open), `CrmOperationResolution` (what a ledger leaves open), `CrmExample` (a ledger built event by event, on which a write is stuck); `SimulatedOperations` |
| evaluation | `Rules`, `Evaluator`, `Counterfactual` |
| algorithms | `Spreading`, `Apportionment`, `Release`, `ContentIdentity` |
| shared | `Outcome` |

## How the code is read

- Stores, loops and in-place algorithms are classes and methods. Each is tied by its
  contract to a function of its inputs or of the old state, and the lemmas are about those
  functions: the operations of `PollStores.PollStore` to `PollTables`, those of
  `Collector.Store` to `Collector.Ingest`, those of `CrmStores.CrmStore` to
  `CrmStores.Ingest`, and the loops to the recursive functions they compute.
- A refusal is `Refused(reason)` and leaves every table as it was. A run is a sequence of
  operations in which refused ones change nothing, so statements about runs cover every
  interleaving of admitted and refused calls by any owner.
- A content hash is an injective constructor: a derived identity is the content it digests.
  An attribution event id is `AttributionId(outcome, policy, cutoff)`; nothing stops an
  unrelated event from carrying such an id, and the model keeps that possibility.
- Instants are integers: the stored text has a fixed width, so its order is chronological.
- Ingest sequences count from one without gaps, so an event's sequence is its position.
- What lies outside is a parameter: clock readings, the source's answer, the planner's
  answer, delivery outcomes, lost replies, and the verdict that the collector's own rows
  match a frozen plan.

## Where a promise does not hold as stated

- An attribution run by the only writer can still be refused, because the id it derives may
  already name an unrelated event: `AttributionRunSafety.TakenIdRefusesRun` gives a ledger,
  and `AttributionRunSafety.RunRefusedIff` the exact condition, which is read off the ledger
  before the run.
- A completed schedule cannot always be run again: if a stage-2 envelope is itself a result
  for an outcome the schedule attributes, the entry check refuses its own ledger.
  `ScheduleExample.CompletesOnce` gives such a schedule, and `Schedules.RepeatsIff` the exact
  condition, read off the schedule alone. The same condition on the items stored so far
  decides whether a run that stopped (`Schedules.ResumptionIsExact`) or was refused midway
  (`Schedules.RefusedRunRepeats`) passes the entry check again.
- `effective_outcome_versions` says it lists versions in their ingest order. It lists one
  version for each chain, where the first member of the chain was recorded
  (`AttributionOrder.ListingIsByBeginning`). `AttributionOrder.ListedByChain` is a ledger the
  collector can hold where the two orders differ, and `AttributionOrder.IngestOrderIff` the
  exact condition, read off the recorded rows.

## What is permanent, and exactly when

- A poll target stays held, and its tick active, under every later run of the queue exactly
  when its owner has a rejected stage or an observation made under another configuration
  (`PollLiveness.ReleasableIff`).
- An unfinished external write can no longer be resolved exactly when it is unknown after a
  response or after a read, or another event has the id of its next observation
  (`CrmOperationResolution.WriteResolvableIff`). Both are read off the ledger. The second
  needs no fault in the write itself: in `CrmExample.TakenObservationHolds` it has only been
  prepared. In either case no other write on its target is ever admitted
  (`CrmOperationSafety.UnknownBlocksForever`, `CrmOperationResolution.TakenHoldsForever`).
- A recorded version 1 decision that does not replay never will, and one that does always
  will (`DecisionReplay.ReconstructKept`); which of the two is read off its preserved record
  (`DecisionReplay.ReconstructIff`, with `InsightsMeaning.EvaluableIff` for whether its rules
  can be evaluated at all). `DecisionExample.WrongScoreNeverReplays` is an admitted decision
  that never replays.

## Model

| member | source | states |
|---|---|---|
| PollStores.PollStore.constructor | src/flight_recorder/adapters/crm/poll_store.py:41-45 | a store over a valid configuration starts empty and sound |
| PollStores.PollStore.Report | src/flight_recorder/adapters/crm/poll_store.py:224-260 | the report loop answers exactly what re-reading the tick, its member rows and every terminal record answers, refusals included |
| PollStores.PollStore.Validate | src/flight_recorder/adapters/crm/poll_store.py:262-282 | the scan in ordinal order refuses exactly when a completed tick follows a pending one or the pending rows are not one active then at most one waiting |
| PollStores.PollStore.Admit | src/flight_recorder/adapters/crm/poll_store.py:290-353 | a new tick is active, waiting or coalesced by the number of pending ones and gets one queued row a target; a known tick changes nothing; the invariant is kept |
| PollStores.PollStore.Claim | src/flight_recorder/adapters/crm/poll_store.py:372-449 | a queued member takes the next generation; a lost unfrozen read is recovered under the one after; the answer holds the target; `target_busy` is never the reason; the invariant is kept |
| PollStores.PollStore.MarkReadStarted | src/flight_recorder/adapters/crm/poll_store.py:451-466 | only the exact live owner of a claimed member may mark its read; the invariant is kept |
| PollStores.PollStore.Blocked | src/flight_recorder/adapters/crm/poll_store.py:468-483 | only the exact live owner may block a member not yet terminal; the invariant is kept |
| PollStores.PollStore.Settle | src/flight_recorder/adapters/crm/poll_store.py:485-593 | a settlement is stored only when the frozen records call for it; it releases the target, completes the tick with its last member and promotes the waiting one; the invariant is kept |
| PollStores.PollStore.RecordFact | src/flight_recorder/adapters/crm/store.py:566-613 | an owner-fenced observation is written once and never rewritten; the invariant is kept |
| PollStores.PollStore.FreezeSubmission | src/flight_recorder/adapters/crm/store.py:800-844 | a plan is frozen once, only over a captured observation of the live owner; the invariant is kept |
| PollStores.PollStore.Observe | src/flight_recorder/adapters/crm/store.py:1022-1045 | an attempt outcome advances one stage in order or marks the plan failed; the invariant is kept |
| PollStores.AdmitNeverRefuses | src/flight_recorder/adapters/crm/poll_store.py:290-353 | over a sound queue no tick is ever refused admission |
| PollStores.ClaimNeverBusy | src/flight_recorder/adapters/crm/poll_store.py:397-416 | ownership never stands in the way of the active tick, so the `target_busy` branch is unreachable |
| PollSteps.AdmitKeepsInv | src/flight_recorder/adapters/crm/poll_store.py:290-353 | admission keeps the whole invariant |
| PollSteps.ClaimKeepsInv | src/flight_recorder/adapters/crm/poll_store.py:372-449 | claiming and recovering keep the whole invariant |
| PollSteps.RecoverKeepsInv | src/flight_recorder/adapters/crm/poll_store.py:417-447 | a lost read costs exactly one recorded generation |
| PollSteps.SettleKeepsInv | src/flight_recorder/adapters/crm/poll_store.py:485-593 | settling keeps the whole invariant |
| PollSteps.TargetNeverBusy | src/flight_recorder/adapters/crm/poll_store.py:397-416 | a queued member of the active tick always finds its target free |
| PollSteps.OneActive | src/flight_recorder/adapters/crm/poll_store.py:262-282 | at most one tick is active |
| PollSteps.PendingPrefix | src/flight_recorder/adapters/crm/poll_store.py:301-316 | the pending rows are exactly the active and waiting ticks in ordinal order |
| PollRuns.MembersRead | src/flight_recorder/adapters/crm/poll_store.py:224-250 | every member row of a sound queue reads back, terminals included |
| PollRuns.ReportReads | src/flight_recorder/adapters/crm/poll_store.py:224-260 | reading back any admitted tick succeeds and reports exactly the stored rows |
| PollRuns.QueueValidates | src/flight_recorder/adapters/crm/poll_store.py:262-282 | the code's own validation accepts every sound queue and returns its pending rows |
| PollRuns.NextKeepsInv | src/flight_recorder/adapters/crm/poll_store.py:290-593 | every operation, admitted or refused, keeps the invariant |
| PollRuns.RunKeepsInv | src/flight_recorder/adapters/crm/poll_store.py:290-593 | every run of operations keeps the invariant |
| PollRuns.RunIsLater | src/flight_recorder/adapters/crm/poll_store.py:290-593 | over any run facts, plans, terminals and recoveries only grow, generations never fall, a terminal member is final and progress only advances |
| PollRuns.SupersededForever | src/flight_recorder/adapters/crm/store.py:242-252 | once recovered past or released, an owner can never again mark, block, settle, freeze or observe, after any run |
| PollRuns.FrozenNeverMoves | src/flight_recorder/adapters/crm/poll_store.py:417-447 | once an observation is frozen its member's generation never moves again and the observation is never rewritten |
| PollRuns.ReadStartedOnce | src/flight_recorder/adapters/crm/poll_store.py:451-466 | one generation's read is started at most once, whatever runs afterwards |
| PollRuns.GenerationsAccounted | src/flight_recorder/adapters/crm/poll_store.py:372-593 | each issued generation of a target is accounted for by exactly one recovery, one terminal or the live claim, and no record lies beyond the current generation |
| PollRuns.RecoveredNeverFrozen | src/flight_recorder/adapters/crm/poll_store.py:417-430 | a generation is recovered only if nothing had been frozen under it |
| PollLiveness.StrandedHoldsForever | src/flight_recorder/adapters/crm/poll_store.py:505-549 | an owner with a rejected stage, or with an observation made under another configuration, is never settled, recovered or released by any run |
| PollLiveness.RejectedPlanHoldsForever | src/flight_recorder/adapters/crm/poll_store.py:505-512 | a frozen plan with a rejected stage is never settled, recovered or released by any run, so its tick stays active for good |
| PollLiveness.ReleasableIff | src/flight_recorder/adapters/crm/poll_store.py:372-593 | some run of the queue releases a held target exactly when its owner has neither |
| PollLiveness.EveryRunReleasableIff | src/flight_recorder/adapters/crm/poll_store.py:372-593 | the same after every run from an empty store |
| PollRuns.LastSettlementPromotes | src/flight_recorder/adapters/crm/poll_store.py:563-592 | settling completes the tick exactly with its last member, and then the waiting tick becomes the active one |
| PollRuns.EveryRunValidates | src/flight_recorder/adapters/crm/poll_store.py:262-282 | after every run from an empty store the queue passes its validation and every tick reports |
| PollRuns.EveryRunAccounts | src/flight_recorder/adapters/crm/poll_store.py:372-593 | generation accounting holds after every run from an empty store |
| PollRuns.EveryRunHolds | src/flight_recorder/adapters/crm/poll_store.py:372-593 | after every run a target is held exactly while the active tick's member for it is claimed, read or blocked |
| PollRunner.DeliveringCompletes | src/flight_recorder/adapters/crm/submit.py:416-520 | a delivery accepts every remaining stage exactly when as many answers as are missing are all acceptances, and never passes the last stage |
| PollRunner.Resume | src/flight_recorder/adapters/crm/submit.py:416-520 | the stage loop leaves exactly the history its answers call for, stopping at the first rejection or uncertain answer, and reports completion exactly when the plan is delivered |
| PollRunner.FencedSettles | src/flight_recorder/adapters/crm/poll_store.py:485-593 | a live owner's settlement is admitted exactly when its frozen records and the pinned configuration call for that end |
| PollRunner.CaptureAndSubmit | src/flight_recorder/adapters/crm/poll.py:57-123 | one attempt reads the source exactly when the claimed owner has no frozen observation, freezes each record at most once, and leaves the member settled exactly when its frozen records allow it and blocked otherwise |
| PollRunner.FrozenWorkIsResumed | src/flight_recorder/adapters/crm/poll.py:57-123 | after any run, claiming a member with a frozen observation answers the same owner and changes nothing, so no second read is made |
| AttributionPolicy.FollowChain | src/flight_recorder/attribution/policy.py:663-689 | the forward walk loop computes the effective version or its refusal |
| AttributionPolicy.SelectVersions | src/flight_recorder/attribution/policy.py:692-710 | the selection loop lists the effective versions by first appearance of their chain |
| Collector.Store.constructor | src/flight_recorder/collector/service.py:75-82 | a store starts with an empty, reachable ledger |
| Collector.Store.Submit | src/flight_recorder/collector/service.py:97-193 | one ingest appends exactly its event, answers duplicate for identical content, or changes nothing; reachability is kept |
| Collector.ReachablePrefix | src/flight_recorder/collector/service.py:97-193 | every prefix of a reachable ledger is reachable |
| AttributionSafety.AttributeSnapshot | src/flight_recorder/attribution/policy.py:537-627 | a result at a cutoff is the same on every later ledger, and a refusal stays one |
| AttributionSafety.EffectiveSnapshot | src/flight_recorder/attribution/policy.py:716-744 | the tip selected at a cutoff never changes |
| AttributionSafety.ReplacementNamesATip | src/flight_recorder/collector/projections.py:379-416 | an accepted replacement names an earlier version of its own account that nothing had replaced |
| AttributionSafety.OnlyReplacement | src/flight_recorder/collector/projections.py:379-416 | no outcome version is ever replaced twice |
| AttributionSafety.AtMostOneSuccessor | src/flight_recorder/attribution/policy.py:674-682 | the successor query never returns two rows |
| AttributionSafety.WalkEnds | src/flight_recorder/attribution/policy.py:663-689 | the walk moves to later rows only, so neither guard fires, and ends at an unreplaced version of the same account |
| AttributionSafety.EffectiveVersionExists | src/flight_recorder/attribution/policy.py:663-689 | at every cutoff containing it a recorded outcome has an effective version |
| AttributionSafety.SelectionExact | src/flight_recorder/attribution/policy.py:692-710 | the selection holds every unsuperseded version exactly once and nothing else |
| AttributionSafety.ResultsLinked | src/flight_recorder/collector/projections.py:539-604 | results of one version and policy each replace the one before, at strictly increasing cutoffs |
| AttributionSafety.UniqueTip | src/flight_recorder/attribution/policy.py:716-744 | at every cutoff those results form one chain and exactly its latest row is selected |
| AttributionSafety.StoredIsRecomputed | src/flight_recorder/collector/projections.py:423-536 | every stored result equals the policy recomputed at its own cutoff, on this and every later ledger |
| AttributionCredit.EligibleExactly | src/flight_recorder/attribution/policy.py:480-506 | the rule list accepts an action exactly when its recorded row is eligible |
| AttributionCredit.MostRecentIsMaximal | src/flight_recorder/attribution/policy.py:524-534 | the chosen candidate is one no candidate is later than |
| AttributionCredit.MostRecentIgnoresOrder | src/flight_recorder/attribution/policy.py:524-534 | the choice is the same for every order of the candidates |
| AttributionCredit.ChosenIsLatest | src/flight_recorder/attribution/policy.py:447-534 | the fallback picks the eligible row no eligible row is later than, and none exactly when there is none |
| AttributionCredit.AttributionMeaning | src/flight_recorder/attribution/policy.py:537-627 | direct exactly for valid agreeing claims, otherwise the latest eligible action, unresolved exactly when there is none |
| AttributionCredit.ActionFollowsDecision | src/flight_recorder/collector/projections.py:322-347 | an accepted action follows a decision of its own account |
| AttributionCredit.CreditIsEarlier | src/flight_recorder/collector/projections.py:423-536 | whatever a stored result credits is a decision of the outcome's account with its boundary strictly before the observation |
| AttributionOrder.SelectionGrows | src/flight_recorder/attribution/policy.py:705-710 | reading further rows only ever appends to the selection, never reorders it |
| AttributionOrder.EarlierIsReplaced | src/flight_recorder/attribution/policy.py:663-689 | of two members of one chain the earlier is replaced, no later than the other is recorded |
| AttributionOrder.OneTip | src/flight_recorder/attribution/policy.py:663-689 | a chain has one effective version at each cutoff |
| AttributionOrder.ListingIsByBeginning | src/flight_recorder/attribution/policy.py:692-710 | the selection is the effective versions of the chain beginnings, one for each, in the ingest order of the beginnings, for all accounts or one |
| AttributionOrder.IngestOrderIff | src/flight_recorder/attribution/policy.py:692-710 | the selection is in ingest order of the versions exactly when no chain begun earlier has its effective version recorded later |
| AttributionOrder.ListedByChain | src/flight_recorder/attribution/policy.py:692-710 | a concrete reachable ledger on which the two orders differ |
| AttributionRun.RunAttribution | src/flight_recorder/attribution/service.py:203-247 | the command loop, with every submission answered at once, computes the run and stops at the first refusal |
| AttributionRunSafety.EnvelopeAdmitted | src/flight_recorder/attribution/service.py:110-143 | an envelope the command builds passes every collector check, unless its id is taken |
| AttributionRunSafety.RunRefusedIff | src/flight_recorder/attribution/service.py:203-247 | with no other writer a run is refused exactly when an operation it must submit finds its id taken, which no attribution result ever does |
| AttributionRunSafety.OrdinaryRunCompletes | src/flight_recorder/attribution/service.py:203-247 | an unrefused ordinary run leaves every effective version with a result |
| AttributionRunSafety.SecondRunIsIdle | src/flight_recorder/attribution/service.py:203-247 | an immediate second run submits nothing and changes nothing |
| AttributionRunSafety.ReevaluationReplaces | src/flight_recorder/attribution/service.py:203-247 | a reevaluation submits only changed results, each replacing the effective one at a strictly newer cutoff |
| AttributionRepeat.AttributeUnaffected | src/flight_recorder/attribution/policy.py:537-627 | appending nothing but results changes only the cutoff of the policy's answer |
| AttributionRepeat.SecondReevaluationIsIdle | src/flight_recorder/attribution/service.py:203-247 | a reevaluation repeated right after one that was not refused submits nothing and changes nothing |
| AttributionRunSafety.TakenIdRefusesRun | src/flight_recorder/attribution/service.py:203-247 | a concrete reachable ledger on which an ordinary run is refused |
| AttributionSubmit.StoredIsDuplicate | src/flight_recorder/collector/service.py:97-140 | once accepted, resubmitting on any later ledger answers duplicate and changes nothing |
| AttributionSubmit.UsedIdConflicts | src/flight_recorder/collector/service.py:97-140 | other content under a used id is refused forever |
| AttributionSubmit.Submit | src/flight_recorder/attribution/service.py:178-200 | whatever replies are lost, three attempts have at most one effect and an answer is true of the store |
| AttributionSubmit.RunWithRetries | src/flight_recorder/attribution/service.py:203-247 | over an unreliable line the command is exactly the undisturbed run when every submission is answered in the end, and otherwise leaves what that run leaves after some number of versions |
| Schedules.BuildSchedule | src/flight_recorder/dataset/schedule.py:134-191 | the build loops list each outcome's operation in order and refuse a superseding stage-1 outcome |
| Schedules.RunSchedule | src/flight_recorder/dataset/schedule.py:370-427 | the run loop checks on entry and again before the operations, and stops at the first refusal |
| Schedules.FreshRun | src/flight_recorder/dataset/schedule.py:370-396 | a run from the empty ledger whose answers are all creations stores its accepted items as the first rows the schedule calls for, each built over the rows before it, and is refused, if it is, by the item after them |
| Schedules.RebuildKept | src/flight_recorder/dataset/schedule.py:236-246 | an operation is rebuilt identically over every prefix containing the cutoff |
| Schedules.PrefixChecks | src/flight_recorder/dataset/schedule.py:249-296 | the rows of a schedule's first items pass the entry check exactly when none of those items is itself a result for an outcome the schedule attributes |
| Schedules.ResumptionIsExact | src/flight_recorder/dataset/schedule.py:370-396 | from wherever a run stopped, a further run is refused exactly when a stored item is itself a result for a scheduled outcome; otherwise it answers duplicate for what is stored, created for the rest, and leaves the uninterrupted ledger |
| Schedules.CompleteRunIsIdle | src/flight_recorder/dataset/schedule.py:370-396 | a run on the complete ledger answers duplicate throughout and changes nothing, when no item is itself a result for a scheduled outcome |
| Schedules.RefusedRunRepeats | src/flight_recorder/dataset/schedule.py:15-29 | what a refused run had accepted is a matching prefix for a later run, which answers duplicate for it and is refused at the same item, unless an accepted item is itself a result for a scheduled outcome |
| Schedules.RepeatsIff | src/flight_recorder/dataset/schedule.py:249-296 | a schedule that completes can be run again exactly when no stage-2 envelope is a result for an outcome it schedules |
| ScheduleExample.CompletesOnce | src/flight_recorder/dataset/schedule.py:249-296 | a schedule that completes and is refused by its own entry check when it is run again |
| DecisionRecords.VersionKept | src/flight_recorder/collector/projections.py:145-226 | a stored evidence version is never replaced by later events |
| DecisionRecords.ContextRefers | src/flight_recorder/collector/projections.py:229-319 | every available input of a checked decision is what an evidence version of its account recorded, available by the boundary |
| DecisionReplay.ReadContext | src/flight_recorder/replay/reconstruct.py:515-591 | the loop resolves each preserved reference by its own id and refuses exactly as specified |
| DecisionReplay.SortOnce | src/flight_recorder/replay/reconstruct.py:559-563 | the preserved rows are read back once each |
| DecisionReplay.AcceptedIsBacked | src/flight_recorder/collector/projections.py:243-319 | everything an accepted decision refers to is stored and stays stored |
| DecisionReplay.ContextLoads | src/flight_recorder/replay/reconstruct.py:515-591 | reading an accepted decision's context back never fails and never changes |
| DecisionReplay.ReconstructIff | src/flight_recorder/replay/reconstruct.py:634-672 | an accepted decision is reproduced exactly when this runtime evaluates its artifact and the rules give the recorded score, threshold, output and consumed triples over the preserved context |
| InsightsMeaning.EvaluableIff | src/flight_recorder/logic/evaluator.py:163-231 | a recorded decision can be evaluated exactly when its artifact asks for the supported treatment of missing values and each of its rules reads and fits the one preserved entry of its key |
| DecisionExample.WrongScoreNeverReplays | src/flight_recorder/replay/reconstruct.py:634-672 | a decision with a wrong score is on a ledger the collector can hold and is refused reproduction on every extension of it |
| DecisionReplay.ReconstructKept | src/flight_recorder/replay/reconstruct.py:634-672 | a decision is replayed with the same answer, or the same refusal, on every later ledger |
| Insights.ReadObservations | src/flight_recorder/analytics/insights.py:568-596 | the loop reads the effective result of every effective version |
| Insights.Group | src/flight_recorder/analytics/insights.py:691-695 | the grouping loop gives each decision exactly the observations credited to it, in order |
| InsightsScoping.ScopedSelection | src/flight_recorder/analytics/insights.py:555-565 | selecting one account's versions is selecting all and keeping that account's, in order |
| InsightsScoping.ScopedIsGlobal | src/flight_recorder/analytics/insights.py:894-906 | a decision's facts computed inside its own account are its entry in the global computation |
| InsightsScoping.FactsSnapshot | src/flight_recorder/analytics/insights.py:846-891 | the facts at a cutoff, replays and preserved inputs included, are the same on every later ledger |
| InsightsScoping.EligibleIffNotExcluded | src/flight_recorder/analytics/insights.py:484-504 | eligible decisions are exactly those with none of the three exclusion reasons |
| InsightsScoping.RateAddsUp | src/flight_recorder/analytics/insights.py:750-760 | eligible and excluded decisions cover the cohort, and partition it when every decision was replayed |
| InsightsScoping.CountStandings | src/flight_recorder/analytics/insights.py:763-777 | the four standing counts add up to the population |
| InsightsMeaning.CreditedExactly | src/flight_recorder/analytics/insights.py:691-695 | a decision's observations are exactly the effective outcome versions whose effective result credits it |
| InsightsMeaning.StandingMeaning | src/flight_recorder/analytics/insights.py:484-492 | its standing is the best of what those outcomes show |
| InsightsMeaning.RuleSignalMeaning | src/flight_recorder/analytics/insights.py:628-643 | a rule signal is not applicable, absent, unavailable, true or false exactly as the artifact has the factor, the context has the input, and the rule decides its preserved value |
| InsightsMeaning.ValueSignalMeaning | src/flight_recorder/analytics/insights.py:646-656 | a value signal is absent, unavailable, true or false exactly as the context has the input, available, with exactly that value |
| InsightsScoping.SignalPartition | src/flight_recorder/analytics/insights.py:798-840 | the six states of a signal partition the population |
| InsightsScoping.CohortPartition | src/flight_recorder/analytics/insights.py:846-891 | the workflow cohorts partition the population |
| InsightsScoping.SameArtifactSameRule | src/flight_recorder/analytics/insights.py:659-744 | any one decision of an artifact names the rule text and weight for all of them |
| CrmReplay.VerifyHistory | src/flight_recorder/replay/crm_context.py:179-189 | the chain walk loop verifies the whole lineage and refuses a revisited decision |
| CrmModel.SortKeyedSorts | src/flight_recorder/collector/crm_schema.py:235-250 | rows with distinct keys are listed in strict key order |
| CrmModel.LookupSorted | src/flight_recorder/collector/crm_schema.py:235-250 | a lookup by key does not depend on how the rows are ordered |
| CrmMonotone.ContextKept | src/flight_recorder/collector/crm_provenance.py:224-243 | a verified context verifies again, in sorted form and on every later ledger, with the same answer |
| CrmMonotone.EvaluationKept | src/flight_recorder/collector/crm_provenance.py:246-301 | the pinned evaluation of a verified context gives the same result on every later ledger |
| CrmMonotone.StepKept | src/flight_recorder/replay/crm_context.py:111-176 | a verified record verifies identically on every later ledger |
| CrmReplaySafety.LineageReads | src/flight_recorder/collector/crm_provenance.py:182-221 | what ingest accepted as lineage is read back as the recorded predecessor, strictly earlier in capture sequence |
| CrmReplaySafety.CaptureBound | src/flight_recorder/collector/crm_provenance.py:49-80 | a capture is bound to one set of bytes whose minting event verifies |
| CrmReplaySafety.AcceptedStep | src/flight_recorder/replay/crm_context.py:111-176 | the checks made at ingest imply every check made on reading the new record |
| CrmReplaySafety.AcceptedRecord | src/flight_recorder/collector/crm_provenance.py:304-352 | an accepted decision verifies and evaluates as recorded on the ledger it was written to |
| CrmReplaySafety.AcceptKeepsInv | src/flight_recorder/collector/crm_provenance.py:355-429 | every accepted event keeps every record verifiable |
| CrmExactReplay.WalkVerifies | src/flight_recorder/replay/crm_context.py:179-189 | the walk from any predecessor ends and its cycle guard never fires |
| CrmExactReplay.ReconstructsExactly | src/flight_recorder/replay/reconstruct.py:634-672 | every recorded decision is reproduced with its recorded score, threshold, output and exactly its consumed triples |
| CrmExactReplay.ReconstructionKept | src/flight_recorder/replay/reconstruct.py:634-672 | a reconstruction gives the same answer on every later sound ledger |
| CrmExactReplay.AcceptedForever | src/flight_recorder/collector/crm_provenance.py:304-429 | an accepted decision is reproduced exactly on every ledger reachable afterwards |
| CrmExactReplay.LineageReachesRoot | src/flight_recorder/replay/crm_context.py:80-108 | every decision's chain strictly decreases in capture sequence and ends at the one root of its account and observation |
| CrmStores.CrmStore.constructor | src/flight_recorder/collector/service.py:75-82 | a CRM ledger starts empty and sound |
| CrmStores.CrmStore.Submit | src/flight_recorder/collector/service.py:97-193 | one ingest appends its rows or changes nothing, and every record and operation history still verifies |
| CrmStores.CrmStore.Append | src/flight_recorder/collector/crm_provenance.py:355-429 | the projecting loops append exactly the capture, evidence, decision and per-key rows the event calls for |
| CrmOperations.ReadHistory | src/flight_recorder/collector/crm_operations.py:406-444 | the read-back loop re-verifies every event, projection and step of an account, and refuses exactly where one fails |
| CrmOperationLog.CheckedIsBlocks | src/flight_recorder/collector/crm_operations.py:269-383 | a checked log is one operation after another, each opening only when the one before is terminal |
| CrmOperationLog.OneUnfinished | src/flight_recorder/collector/crm_operations.py:269-316 | at every point at most one operation of a target is unfinished |
| CrmOperationLog.TimesNeverDecrease | src/flight_recorder/collector/crm_operations.py:288-315 | observation times never decrease along the whole log, across operations |
| CrmOperationLog.RevisionsContiguous | src/flight_recorder/collector/crm_operations.py:296-304 | operations carry revisions exactly 1, 2, ... and no original decision is used twice |
| CrmOperationLog.OperationGrammar | src/flight_recorder/collector/crm_operations.py:317-383 | each operation is a prefix of prepared then refused, or prepared, one send, at most one response and reads |
| CrmOperationLog.AppliedIsProved | src/flight_recorder/collector/crm_operations.py:345-383 | applied is reached only after a complete 2xx to the exact request and a full matching read started once it had finished |
| CrmOperationLog.UnknownForever | src/flight_recorder/collector/crm_operations.py:317-383 | after an inconclusive response, or a read with no response, the operation stays unknown for the rest of the log |
| CrmOperationLiveness.ResolvableIff | src/flight_recorder/collector/crm_operations.py:317-383 | by the transition check alone, some continuation resolves an unfinished operation exactly when it is not unknown after a response or a read |
| CrmOperationLog.HeldTarget | src/flight_recorder/collector/crm_operations.py:281-287 | while an operation is unfinished no other on the target may open or continue |
| CrmOperationSafety.CheckStepKept | src/flight_recorder/collector/crm_operations.py:246-266 | a checked step checks identically one event later, because what it reads is bounded by its own sequence |
| CrmOperationSafety.HistoryGrows | src/flight_recorder/collector/crm_operations.py:406-457 | after any admitted event every history verifies in full and is the earlier one extended by the event when it is its own |
| CrmOperationSafety.AdmitKeepsSound | src/flight_recorder/collector/crm_operations.py:447-465 | every admitted event keeps all records and all histories verifiable |
| CrmOperationSafety.HistoryForever | src/flight_recorder/collector/crm_operations.py:406-444 | a log admitted one event at a time is re-verified on every ledger reachable afterwards and only grows at its end |
| CrmOperationSafety.UnknownBlocksForever | src/flight_recorder/collector/crm_operations.py:269-383 | after any run such an uncertain operation is unresolved and no other on the target is ever admitted |
| CrmOperationSafety.EveryHistoryOrderly | src/flight_recorder/collector/crm_operations.py:269-383 | all of the above holds at every point of every run from the empty ledger |
| CrmOperationResolution.OnlyNext | src/flight_recorder/collector/crm_operations.py:163-186 | while an operation is unfinished the only observation its account admits is that operation's next one, under the one id it can carry |
| CrmOperationResolution.TakenHoldsForever | src/flight_recorder/collector/service.py:97-140 | once another event has that id, no event is ever added to the account's history |
| CrmOperationResolution.FreeIsResolved | src/flight_recorder/collector/crm_operations.py:317-383 | an unfinished operation that is not unknown after a response or a read, and whose next id is free, is brought to a terminal state by one admitted event |
| CrmOperationResolution.WriteResolvableIff | src/flight_recorder/collector/crm_operations.py:269-383 | on every sound ledger some later run concludes an unfinished operation exactly when it is not unknown after a response or a read and no event has the id of its next observation |
| CrmOperationResolution.EveryRunResolvableIff | src/flight_recorder/collector/crm_operations.py:269-383 | the same condition holds after every run from the empty ledger |
| CrmExample.DecisionAccepted | src/flight_recorder/collector/crm_provenance.py:355-429 | a concrete ledger with one read, one artifact and one decision is admitted event by event |
| CrmExample.TakenObservationHolds | src/flight_recorder/collector/service.py:97-140 | a ledger the collector can hold on which a prepared write, neither sent nor answered, can never be concluded because an unrelated event has its next id |
| SimulatedOperations.ReadHistory | src/flight_recorder/collector/operation_contract.py:230-247 | the read-back loop accepts exactly the logs in which every observation passed its step |
| SimulatedOperations.ReachableCertain | src/flight_recorder/collector/operation_contract.py:137-227 | at most one operation of a company is uncertain, and an operation is at or past unknown exactly when its send was marked |
| SimulatedOperations.OneUnknown | src/flight_recorder/collector/operation_contract.py:195-203 | at every point of every run at most one operation of a company is uncertain |
| SimulatedOperations.SentExactlyOnce | src/flight_recorder/collector/operation_contract.py:178-194 | an operation at or past unknown has exactly one send marker, and no other has any |
| SimulatedOperations.RevisionsContiguous | src/flight_recorder/collector/operation_contract.py:147-171 | a company's operations carry revisions exactly 1, 2, ..., no original is used twice, and every observation belongs to one of them |
| SimulatedOperations.SentRevisionsIncrease | src/flight_recorder/collector/operation_contract.py:188-192 | the revisions actually sent strictly increase over every run |
| SimulatedOperations.OvertakenNeverSends | src/flight_recorder/collector/operation_contract.py:188-192 | an operation overtaken by a newer one can never send, after any further observations |
| SimulatedOperations.UncertaintyBlocks | src/flight_recorder/collector/operation_contract.py:195-203 | while an operation is uncertain nothing else of its company may send or be resolved |
| SimulatedOperations.ResolutionIsProved | src/flight_recorder/collector/operation_contract.py:204-227 | only a sent, uncertain operation is resolved, and applied only by an exact read with nothing pending |
| Rules.ShapeExact | src/flight_recorder/logic/rules.py:202-223 | a phrase is read as a rule exactly when it says that rule |
| Rules.RuleExact | src/flight_recorder/logic/rules.py:202-223 | a rule text is accepted for a key exactly when it is the key followed by one of the four phrases, read as what it says |
| Evaluator.Index | src/flight_recorder/logic/evaluator.py:154-160 | the index answers every key as the context does and refuses exactly a repeated key |
| Evaluator.EvaluateInOrder | src/flight_recorder/logic/evaluator.py:163-231 | the evaluation in source order computes the specified evaluation or its refusal |
| Evaluator.EvaluatesIff | src/flight_recorder/logic/evaluator.py:163-231 | an evaluation succeeds exactly when missing values are treated in the supported way, no key is preserved twice, every rule reads and every available input is of the kinds its rule compares |
| Evaluator.BoundIsSound | src/flight_recorder/logic/evaluator.py:243-272 | no context scores above the positive weights, so a threshold above them is never met |
| Evaluator.ConsumedExactly | src/flight_recorder/logic/evaluator.py:139-151 | the consumed triples are one per factor with an available input, with its version, and its weight exactly when the rule matches |
| Evaluator.OrderIrrelevant | src/flight_recorder/logic/evaluator.py:163-231 | the result does not depend on the order of the preserved entries |
| Counterfactual.SortedKeysExact | src/flight_recorder/replay/counterfactual.py:273-338 | the listed keys are the given ones, once each, in code-point order |
| Counterfactual.CompareInOrder | src/flight_recorder/replay/counterfactual.py:273-338 | the comparison loop computes the specified comparison |
| Counterfactual.DeltasExplainScore | src/flight_recorder/replay/counterfactual.py:273-338 | the listed deltas add up to the score delta |
| Counterfactual.CounterfactualExplained | src/flight_recorder/replay/counterfactual.py:119-162 | for well-formed artifacts over one context the difference is always fully explained |
| Counterfactual.ClassificationFollowsText | src/flight_recorder/replay/counterfactual.py:245-264 | for a shared key: changed exactly when rule texts differ, reweighted exactly when only weights do, and unchanged contributes the same |
| Counterfactual.MissingExactly | src/flight_recorder/replay/counterfactual.py:273-338 | the missing inputs are exactly the current factors with an absent or unavailable input |
| CrmCounterfactual.ReplayExplained | src/flight_recorder/replay/counterfactual.py:119-162 | replaying any recorded CRM decision under another artifact is explained in full against the recorded score |
| CrmCounterfactual.ReplayKept | src/flight_recorder/replay/counterfactual.py:119-162 | a counterfactual is the same on every later sound ledger |
| Spreading.PositiveDeficit | src/flight_recorder/dataset/generator.py:536-548 | some unexhausted label always has a positive deficit |
| Spreading.AheadBoundsBehind | src/flight_recorder/dataset/generator.py:536-548 | when no label of k is a full unit ahead, none is k - 1 or more units behind |
| Spreading.Spread | src/flight_recorder/dataset/generator.py:536-548 | each label is emitted exactly its count, each pick has the largest deficit and is the earliest such, and every prefix keeps every label within those bounds of its share |
| Spreading.LayoutIsUnique | src/flight_recorder/dataset/generator.py:536-548 | those picks determine the layout: two layouts of the same counts are equal |
| Apportionment.Shortfall | src/flight_recorder/dataset/generator.py:504-527 | the starting counts fall short by at most one unit a positive label |
| Apportionment.Reduce | src/flight_recorder/dataset/generator.py:517-520 | units too many are taken down to the total, never below a floor, always where the excess is largest |
| Apportionment.TopUp | src/flight_recorder/dataset/generator.py:521-526 | missing units go once each to the first labels by remainder |
| Apportionment.Count | src/flight_recorder/dataset/generator.py:504-527 | the total is exactly n, minima that fit are met, and no label exceeds one above its whole units and minimum |
| Release.BuildDependents | src/flight_recorder/dataset/generator.py:1293-1301 | each node is listed once under every mention of it as a prerequisite |
| Release.Pop | src/flight_recorder/dataset/generator.py:1302-1304 | the heap gives up its earliest entry |
| Release.Ordered | src/flight_recorder/dataset/generator.py:1293-1311 | the release succeeds exactly when some topological order exists, and answers the greedy one holding every node |
| Release.NeedsComeFirst | src/flight_recorder/dataset/generator.py:1293-1311 | every node comes after everything it needs |
| Release.GreedyIsUnique | src/flight_recorder/dataset/generator.py:1293-1311 | two greedy orders agree, so the release is determined by the graph |
| Release.StuckIsCyclic | src/flight_recorder/dataset/generator.py:1308-1311 | a release stuck with a node left over rules out every topological order |
| ContentIdentity.HashRows | src/flight_recorder/public_demo.py:332-341 | the digest is fed exactly the label, the rows and their count |
| ContentIdentity.Identify | src/flight_recorder/public_demo.py:351-384 | the digest is fed exactly the header and the tables in their order |
| ContentIdentity.ValueRoundTrip | src/flight_recorder/public_demo.py:309-325 | a typed value is recovered from its encoding, whatever follows it |
| ContentIdentity.TableRoundTrip | src/flight_recorder/public_demo.py:332-341 | a table's label and rows are recovered from its encoding, whatever follows it |
| ContentIdentity.StreamRoundTrip | src/flight_recorder/public_demo.py:351-384 | the decoder recovers every label, row and typed value of the stream |
| ContentIdentity.StreamsDiffer | src/flight_recorder/public_demo.py:351-384 | different contents never produce the same stream |

## Left out

- The version 2 provenance of `src/flight_recorder/collector/provenance.py`: its ingest and read-back repeat the version 3 scheme that is modelled with fewer bindings (no minting-event check, no unique root), so it would repeat the same theorems in weaker form. Its decisions appear in the attribution ledger only as `Other` events.
- The counterfactual comparison of a version 1 decision: the comparison itself is proved for any two evaluations, and its use for CRM decisions.
- An artifact's activation dates, which no rule reads, and the strict types of each evidence kind.
- Registered-artifact parsing: an artifact row is its hash, so only presence and the evaluator version are checked in `CrmProvenance.VerifyArtifact`.
- The mapping that determines a capture's inputs from source properties, the dated-input check, discovery name and domain mismatches, the `_system` account row, and SQLite integer bounds.
- Receipt rows and their clash with an existing receipt, the authority guard, the connection's other owners (acquire, release and abandon outside the queue), and the bodies of `freeze_capture` and `record_unchanged` beyond writing one fact an owner.
- PollStores.PollStore.RecordFact: the checks made on an observation before it is written (capture sequence, order of reads, source version) are not modelled, so every observation an owner may present is covered.
- PollStores.PollStore.FreezeSubmission: the plan's binding to the capture hash and to the collector's path is not modelled, so every plan is covered.
- PollStores.PollStore.Observe: attempts and their dispositions are counted, not kept one by one.
- PollRunner.Resume: starting an attempt and checking the collector's own rows before each stage are not modelled; the check at settlement is a parameter.
- Individual submission attempts and their reason texts: a plan's history is the number of leading stages accepted and whether one was rejected, so concurrent deliveries of one plan by two processes are not modelled.
- PollRunner.CaptureAndSubmit: the reason text a blocked member is left with is not stated; it is shown in reports and decides nothing.
- The reason names the code gives when several checks of one call fail together: the model keeps the order of checks that change what is answered, not every message.
- Apportionment.Count: shares are exact reals that add up to one, as the configuration promises; floating-point rounding of a share times n is not modelled.
- Shuffles and decks in the generator, which only permute equal counts, and everything planned from random draws.
- Release.Ordered: the binary heap is abstracted to taking its least entry, and a node's position stands for the event id that breaks the last tie.
- Rules.ShapeExact: digits are ASCII, as for `Rules.RuleExact`.
- Rules.RuleExact: keys and numbers use ASCII letters and digits, where the source's patterns also admit other Unicode digits; a rule naming another input is refused without its own reason. Numbers are unbounded: a day count beyond the largest time span, and a digit string beyond the runtime's conversion limit, raise in the source and are answered here.
- Metrics coverage counts, formatting, trace text and the failure record of an ambiguous selection, which is proved never to occur.
- CrmOperationLiveness.ResolvableIff: speaks of the transition check alone, so a collector that refuses the next observation's id is not seen by it; `CrmOperationResolution.WriteResolvableIff` is the statement over ledgers.
- AttributionRun.RunAttribution: every submission is answered at once; the command over lost replies is `AttributionSubmit.RunWithRetries`.
- SimulatedOperations.ReadHistory: the verification of each original decision against the version 2 rows is not modelled, so neither is its stability under later appends; the step and the history are. A log is one account's, so what is said of a company is said within one account.
- Recovery and re-submission of held attribution envelopes by id (`recover_envelope`, `retry_operation`): they rebuild the same envelope and resubmit it, which `AttributionSubmit.StoredIsDuplicate` covers.
- Hash functions, canonical JSON, Unicode normalisation, SQL locking and error codes, HTTP, OAuth, the CLI, web views and workflow rendering.
