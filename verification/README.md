# Combat engine of thedd, modelled in Dafny

This project models the turn-based combat engine of the game *thedd*. It
covers these parts:

- **The action executor.** It keeps a turn queue of actors sorted by
  priority, a queue of pending actions that runs before the current actor's
  own queue, the current actor and action, and the combat status.
- **The status life cycle.** A status counts its remaining turns and picks
  its current action: activation, deactivation or none.
- **The tag bookkeeping of action effects** and the filtering of effect
  modifiers by activation kind and by tag requirements.
- **Target selection.**
- **The three tag-requirement modes.**
- **The text of the combat log lines** for a resolved action.

The model is a functional state machine. `ExecutorState.State` is an
immutable record over an arena of actors (`ActorId` is an index into
`State.actors`). Actions are values. Each status is stored inside the actor
it afflicts. Every executor operation is a pure function from one state to
the next, and it returns `Err` where the Java code would throw.

Three things the engine consumes are parameters of the model:

- the hit rolls: `hits: seq<bool>`, one per target;
- the effect application: `Executor.EffectsOracle`, which gives the target's
  statuses after the action's effects;
- the AI move choice: `Executor.MoveOracle`.

The modules follow the program's structure:

| file | module | models |
|---|---|---|
| basics.dfy | Basics | `Option`, `Result`, counting, removal of the first occurrence |
| tags.dfy | Tags | `TagRequirementType` and requirement lists |
| actions.dfy | Actions | actions, categories, target types, per-target results |
| statuses.dfy | Statuses | `StatusImpl` |
| effects.dfy | Effects | `AbstractActionEffect` and tag-gated modifiers |
| targeting.dfy | Targeting | `DefaultTargeting` |
| combat_log.dfy | CombatLog | the lines built by `GameContentController.logAction` |
| ordering.dfy | Ordering | the stable sort of the turn queue, the comparator |
| executor_state.dfy | ExecutorState | executor state and its well-formedness |
| status_hooks.dfy | StatusHooks | the three status hooks of the executor |
| executor.dfy | Executor | the operations of `DefaultCombatActionExecutor` |
| executor_props.dfy | ExecutorInvariant | the invariant every operation keeps |
| executor_laws.dfy | ExecutorLaws | the executor's behavioural laws |

The invariant `ExecutorState.Inv` has three parts:

- every stored actor index names an actor of the arena;
- the turn queue is sorted by non-increasing priority;
- the current actor is still in the turn queue.

The expiry hook at the end of a two-turn status's second turn queues its
deactivation. `StatusHooks.TwoTurnStatusLifecycle` proves this order of events.

## Model

| member | source | states |
|---|---|---|
| Tags.IsMet | src/model/combat/requirements/tags/TagRequirementType.java:9-26 | An empty look-up list always meets the requirement. ALLOWED is met iff some looked-for tag is present, REQUIRED iff all are present, UNALLOWED iff all are missing. |
| Tags.RequiredImpliesAllowed | src/model/combat/requirements/tags/TagRequirementType.java:9-20 | For a non-empty list, a met REQUIRED requirement is also met as ALLOWED. |
| Tags.UnallowedNegatesAllowed | src/model/combat/requirements/tags/TagRequirementType.java:9-26 | For a non-empty list, UNALLOWED is met exactly when ALLOWED is not. |
| Tags.IsMetDependsOnlyOnLooked | src/model/combat/requirements/tags/TagRequirementType.java:9-26 | Whether a requirement is met depends only on which looked-for tags are present. |
| Tags.AllMet | src/thedd/model/character/types/DarkDestructor.java:42-48 | A list of requirements holds iff every requirement holds, and an inverted requirement holds exactly when its mode is not met; both requirements built here are non-inverted. |
| Actions.OutcomesPartition | src/model/combat/actionexecutor/DefaultCombatActionExecutor.java:149-159 | Every result is exactly one of hit, parried or missed, so the three counts add up to the number of results. |
| Statuses.NewStatus | src/thedd/model/combat/status/StatusImpl.java:43-52 | A new status starts with remaining turns equal to its base duration, no current action, not updated, not initialized, no tags, and is fresh. |
| Statuses.SetAfflictedActor | src/thedd/model/combat/status/StatusImpl.java:58-62 | Records the afflicted actor and makes it the source of both the activation and the deactivation action. Durations and flags stay as they were. |
| Statuses.Update | src/thedd/model/combat/status/StatusImpl.java:76-88 | Remaining turns drop by exactly one, with no floor. The status becomes updated and initialized. The current action is the deactivation once the count is negative. A ONE_TIME status that is already initialized gets none. Otherwise it gets the activation. Nothing else changes. |
| Statuses.IsPermanent | src/thedd/model/combat/status/StatusImpl.java:154-156 | A status is permanent iff its base duration is not positive, that is, iff it would count as expired as soon as its turns are set to that duration. |
| Statuses.UpdateNCounts | src/thedd/model/combat/status/StatusImpl.java:76-78 | After n updates, remaining turns are n lower and the actions, frequency and base duration are unchanged. |
| Statuses.EveryRoundLifecycle | src/thedd/model/combat/status/StatusImpl.java:79-83 | An EVERY_ROUND status yields its activation for its first `remaining` updates and its deactivation afterwards. |
| Statuses.OneTimeLifecycle | src/thedd/model/combat/status/StatusImpl.java:79-87 | A fresh ONE_TIME status yields its activation on the first update only, then nothing until it runs out, then its deactivation. |
| Statuses.PermanentYieldsDeactivation | src/thedd/model/combat/status/StatusImpl.java:76-83 | A fresh permanent status, whose base duration is at most zero, yields its deactivation action on every update. |
| Statuses.ResetCurrentDuration | src/thedd/model/combat/status/StatusImpl.java:256-259 | Remaining turns go back to the base duration and the updated flag is cleared. Nothing else changes. |
| Statuses.ResetMakesFresh | src/thedd/model/combat/status/StatusImpl.java:256-259 | However many updates a status has had, a reset makes it fresh again with its full base duration. |
| Statuses.DepleteStatus | src/thedd/model/combat/status/StatusImpl.java:273-277 | A permanent status is unchanged. Any other status gets zero remaining turns and so counts as expired. Nothing else changes. |
| Statuses.StatusEquals | src/thedd/model/combat/status/StatusImpl.java:186-198 | Equality compares tags, name, base duration and afflicted actor: every status equals itself, and equal statuses agree on the fields `hashCode` uses. |
| Statuses.EqualsConsistentWithHash | src/thedd/model/combat/status/StatusImpl.java:186-230 | Statuses that `equals` considers equal have equal `hashCode` inputs (tags, name, base duration). |
| Statuses.GetCopy | src/thedd/model/combat/status/StatusImpl.java:244-250 | The copy keeps name, base duration, frequency, tags and actions, starts fresh with no afflicted actor, and hashes like the original. |
| Statuses.CopyEqualsIffUnafflicted | src/thedd/model/combat/status/StatusImpl.java:186-250 | A copy equals its original exactly when the original has no afflicted actor, because the copy never has one. |
| Effects.UpdateEffectByTarget | src/model/combat/implementations/AbstractActionEffect.java:35-43 | The target-tag snapshot becomes exactly the target's tags. The source snapshot and the effect's own tags are untouched. |
| Effects.UpdateEffectBySource | src/model/combat/implementations/AbstractActionEffect.java:49-57 | The source-tag snapshot becomes exactly the source's tags. The target snapshot and the effect's own tags are untouched. |
| Effects.ApplyModifiers | src/model/combat/implementations/AbstractActionEffect.java:38-42 | Running the modifiers changes at most the payload. |
| Effects.ApplyIsChainOfSelected | src/model/combat/implementations/AbstractActionEffect.java:38-42 | When modifiers decide on tags only, the lazy filter-then-modify stream equals applying, in list order, exactly the modifiers of the consulted kinds that accept the original effect. |
| Effects.SelectedIgnoresPayload | src/model/combat/implementations/AbstractActionEffect.java:39-41 | When modifiers decide on tags only, which modifiers are selected does not depend on the payload. |
| Effects.OtherKindsIgnored | src/model/combat/implementations/AbstractActionEffect.java:39-40 | Modifiers of other activation kinds have no influence on the result. |
| Effects.ApplyConcat | src/model/combat/implementations/AbstractActionEffect.java:52-56 | Modifiers are applied in list order: applying a concatenation is applying the first list, then the second. |
| Effects.AddTag | src/model/combat/implementations/AbstractActionEffect.java:75-81 | The visible tags gain the tag. A permanent tag goes to the permanent set. A volatile tag never touches the permanent set, and adding one that is already permanent changes nothing. |
| Effects.AddTagsAsWritten | src/model/combat/implementations/AbstractActionEffect.java:63-69 | Permanent tags are added to the permanent set. A call for volatile tags leaves the effect unchanged. |
| Effects.AddTagsAsWrittenDropsVolatileTags | src/model/combat/implementations/AbstractActionEffect.java:67 | A volatile tag given to `addTags` does not become visible, while the same tag given to `addTag` does. |
| Effects.AddTags | src/model/combat/implementations/AbstractActionEffect.java:63-81 | Corrected `addTags`: the visible tags gain exactly the given tags. Volatile additions leave the permanent set alone and keep the volatile and permanent sets disjoint. |
| Effects.AddTagsAgreesWithAddTag | src/model/combat/implementations/AbstractActionEffect.java:63-81 | The corrected `addTags` of one tag does what `addTag` does. |
| Effects.RemoveTag | src/model/combat/implementations/AbstractActionEffect.java:141-143 | Only the volatile set loses the tag. The result says whether it was there. A permanent tag stays visible. |
| Effects.RemoveUndoesAdd | src/model/combat/implementations/AbstractActionEffect.java:75-143 | Removing a volatile tag that was just added restores the effect and reports success. |
| Effects.GatedModifier | src/thedd/model/character/types/DarkDestructor.java:39-48 | A modifier guarded by tag requirements accepts an effect exactly when all its requirements are met by the effect's tags, so it decides on tags only. |
| Effects.DarkDestructorModifiers | src/thedd/model/character/types/DarkDestructor.java:33-50 | With the Dark Destructor's two defensive modifiers, physical damage is resisted, holy damage is amplified, both apply in list order when both tags are present, and other effects pass unchanged. |
| Targeting.GetTargets | src/model/combat/action/targeting/DefaultTargeting.java:22-26 | The target list is exactly the given target. |
| Targeting.GetTargetsIgnoresAvailable | src/model/combat/action/targeting/DefaultTargeting.java:22-26 | The list of available targets has no influence. |
| Targeting.ValidTargets | src/model/combat/action/targeting/DefaultTargeting.java:40-56 | The call fails iff the action has no source. FOE gives the party opposed to the source. ALLY, as written, also gives the opposed party. EVERYONE gives both parties. SELF gives the source alone. |
| Targeting.AllyBehavesAsFoe | src/model/combat/action/targeting/DefaultTargeting.java:44-51 | For a source in exactly one party, ALLY and FOE give the same list. |
| Targeting.AllyExcludesOwnParty | src/model/combat/action/targeting/DefaultTargeting.java:44-46 | A player whose party is just itself gets the NPC party, not its own, as ALLY targets. |
| Targeting.ValidTargetsAsDocumented | src/model/combat/action/targeting/DefaultTargeting.java:28-38 | Corrected targeting: ALLY includes the source's own party member. The other types agree with the code. |
| Targeting.AllyAndFoeAsDocumentedPartition | src/model/combat/action/targeting/DefaultTargeting.java:28-38 | With disjoint parties, the corrected ALLY and FOE lists are disjoint and together cover both parties. |
| CombatLog.OutcomeLines | src/thedd/view/controller/GameContentController.java:216-219 | One line per target, in target order, each reporting the first result for that target. It fails iff some target has no result. |
| CombatLog.LogAction | src/thedd/view/controller/GameContentController.java:194-219 | Without a source the call fails. Otherwise the lines are the category's header followed by one outcome line per target: 1 + number of targets lines. |
| CombatLog.OutcomeLinesDistinct | src/thedd/view/controller/GameContentController.java:218 | The hit, missed and parried lines of one actor are pairwise different. |
| CombatLog.ReadOutcomeLine | src/thedd/view/controller/GameContentController.java:218 | An outcome line reads back as the outcome it was written for. |
| CombatLog.LogRecordsOutcomes | src/thedd/view/controller/GameContentController.java:216-219 | When every target has a result, reading the outcome lines back gives each target's outcome, in target order. |
| Basics.RemoveFirst | src/model/combat/actionexecutor/DefaultCombatActionExecutor.java:176 | Removing an actor takes out exactly one occurrence when there is one, and changes nothing otherwise. |
| Basics.RemoveFirstIsSplice | src/model/combat/actionexecutor/DefaultCombatActionExecutor.java:176 | Removing a present actor cuts out exactly one position holding it, keeping everything before and after in order. |
| Ordering.StableSort | src/model/combat/actionexecutor/DefaultCombatActionExecutor.java:211-212 | The sort is a permutation, ordered by non-increasing key, and keeps the relative order of equal keys. |
| Ordering.SortedClassesDetermine | src/model/combat/actionexecutor/DefaultCombatActionExecutor.java:211-212 | Two sequences sorted by the same keys, with the same order within every key, are equal, so the stable sort has exactly one possible result. |
| Ordering.SortAfterAppendPlacesLast | src/model/combat/actionexecutor/DefaultCombatActionExecutor.java:207-213 | Appending to a sorted queue and then sorting puts the newcomer right after every element of at least its key and before every element of lower key. The rest keep their order. |
| Ordering.RemoveFirstKeepsSorted | src/model/combat/actionexecutor/DefaultCombatActionExecutor.java:176 | Removing an actor keeps a sorted queue sorted. |
| Ordering.Wrap32 | src/model/combat/actionexecutor/DefaultCombatActionExecutor.java:54 | Java `int` wrap-around: the result is congruent to the input modulo 2^32, and in-range values are unchanged. |
| Ordering.CompareAsWritten | src/model/combat/actionexecutor/DefaultCombatActionExecutor.java:41-56 | The comparator as written: its result is a Java `int`, it is zero iff both priorities and both queued flags agree, and at equal priority an actor already in the queue sorts first. |
| Ordering.CompareIntended | src/model/combat/actionexecutor/DefaultCombatActionExecutor.java:41-56 | Corrected comparator: higher priority sorts first; at equal priority, an actor already queued sorts first; otherwise they tie. |
| Ordering.CompareAsWrittenAgreesWithoutOverflow | src/model/combat/actionexecutor/DefaultCombatActionExecutor.java:41-56 | When the priority difference fits in an `int`, the comparator as written agrees with the corrected one. |
| Ordering.CompareAsWrittenMisorders | src/model/combat/actionexecutor/DefaultCombatActionExecutor.java:54 | With priorities -2^31 and 1, the comparator as written puts the lower priority first. |
| Ordering.CompareAsWrittenCycles | src/model/combat/actionexecutor/DefaultCombatActionExecutor.java:54 | The comparator as written is not transitive: -2^31 < 2^31-1 < 0 < -2^31. |
| StatusHooks.TurnStart | src/model/combat/actionexecutor/DefaultCombatActionExecutor.java:315-326 | Exactly the statuses not yet updated are updated. Afterwards all are updated. The actions of updated statuses that still run, or are permanent, are pushed to the front of the queue one by one, so they end up in reverse status order. |
| StatusHooks.TurnStartIdempotent | src/model/combat/actionexecutor/DefaultCombatActionExecutor.java:316-317 | A second turn start in the same round changes no status and queues nothing. |
| StatusHooks.NothingToQueueWhenUpdated | src/model/combat/actionexecutor/DefaultCombatActionExecutor.java:316-325 | When every status is already updated, neither the turn-start hook nor the newly-applied hook produces an action. |
| StatusHooks.TurnStartSingle | src/model/combat/actionexecutor/DefaultCombatActionExecutor.java:315-326 | For one status that is not yet updated, turn start updates it and queues its action in front exactly when it still runs or is permanent. |
| StatusHooks.ExpireStatuses | src/model/combat/actionexecutor/DefaultCombatActionExecutor.java:328-339 | Expired statuses whose update yields an action have that action appended to the actor's queue, in status order, and exactly that many statuses are removed. |
| StatusHooks.InertExpiredStays | src/model/combat/actionexecutor/DefaultCombatActionExecutor.java:333-337 | An expired status whose update yields no action stays, updated. |
| StatusHooks.ExpireKeepsOnly | src/model/combat/actionexecutor/DefaultCombatActionExecutor.java:328-339 | Every status left after expiry is either one with turns left, unchanged, or the update of an expired one that yields no action. |
| StatusHooks.UnexpiredSurvives | src/model/combat/actionexecutor/DefaultCombatActionExecutor.java:329-331 | A status with turns left is never removed at expiry. |
| StatusHooks.ExpireSingle | src/model/combat/actionexecutor/DefaultCombatActionExecutor.java:328-339 | For one status: if it has expired and its update yields an action, it is removed and the action queued; otherwise it stays, updated if it had expired. |
| StatusHooks.UpdateNewlyApplied | src/model/combat/actionexecutor/DefaultCombatActionExecutor.java:341-349 | Exactly the fresh statuses (not updated, full duration) are updated. Their actions are appended to the pending queue in status order. |
| StatusHooks.NewlyAppliedOnce | src/model/combat/actionexecutor/DefaultCombatActionExecutor.java:342-344 | Running the hook a second time changes nothing and queues nothing. |
| StatusHooks.NoFreshNoActions | src/model/combat/actionexecutor/DefaultCombatActionExecutor.java:342-347 | Without fresh statuses the hook queues nothing. |
| StatusHooks.TwoTurnStatusLifecycle | src/model/combat/actionexecutor/DefaultCombatActionExecutor.java:315-339 | A two-turn EVERY_ROUND status queues its activation at each of the two turn starts, survives the first expiry, and at the second expiry is removed with its deactivation queued. |
| Executor.SelectMove | src/model/combat/actionexecutor/DefaultCombatActionExecutor.java:297 | Selecting a move records it as the selected action and appends it to the actor's own action queue. |
| Executor.AddActorToQueue | src/model/combat/actionexecutor/DefaultCombatActionExecutor.java:207-213 | While paused, the selected action goes to the front of the pending queue, and the call fails when there is none. Otherwise only the turn queue changes: it gains the actor, stays sorted, and keeps equal-priority actors in order with the newcomer last. |
| Executor.BeginTurn | src/model/combat/actionexecutor/DefaultCombatActionExecutor.java:88-92 | With a current actor, nothing changes. Otherwise the head of the turn queue gets the turn-start hook applied to its statuses and queue. |
| Executor.SetNextAction | src/model/combat/actionexecutor/DefaultCombatActionExecutor.java:87-101 | It fails iff there is no pending action, no current actor and an empty turn queue. A pending action is popped first, without touching the actor. Otherwise the current actor, or the queue head, gives the front of its queue. The status becomes ROUND_IN_PROGRESS iff an action was obtained. |
| Executor.Classify | src/model/combat/actionexecutor/DefaultCombatActionExecutor.java:149-159 | One result per target, in target order: hit when the roll hits, else parried when the target can parry, else missed. |
| Executor.CanTargetParry | src/model/combat/actionexecutor/DefaultCombatActionExecutor.java:307-313 | A target parries only with a selected PARRY-tagged action and only while it is not in the turn queue; a SELF-typed or status action is never parried. |
| Executor.EvaluateCurrentAction | src/model/combat/actionexecutor/DefaultCombatActionExecutor.java:143-165 | Without a current action there is no result. Otherwise there is exactly one classified result per target. Only the stored result changes. |
| Executor.ApplyHit | src/model/combat/actionexecutor/DefaultCombatActionExecutor.java:114-122 | Only the hit target changes. Its statuses become the effects' output after the newly-applied hook. Its selected action is withdrawn iff it could have parried. The hook's actions are appended to the pending queue. |
| Executor.ApplyHits | src/model/combat/actionexecutor/DefaultCombatActionExecutor.java:108-122 | Only hit targets change. Pending actions are only appended. No actor's queue, priority or automation changes. A hit target loses its selected action exactly when it could parry. |
| Executor.FirstParried | src/model/combat/actionexecutor/DefaultCombatActionExecutor.java:123-128 | The first target whose result is parried, if any. |
| Executor.SetNextAIMove | src/model/combat/actionexecutor/DefaultCombatActionExecutor.java:296-299 | It fails iff the actor is not automatic. Otherwise the actor selects the oracle's move and is added to the queue: while paused the move joins the front of the pending queue, otherwise the actor joins the sorted turn queue. |
| Executor.ExecuteCurrentAction | src/model/combat/actionexecutor/DefaultCombatActionExecutor.java:107-137 | Without an action or a result nothing changes. Otherwise the hits are applied. If the first parrier is an NPC it selects a move again, and if it is not an NPC the round pauses. |
| Executor.EndTurn | src/model/combat/actionexecutor/DefaultCombatActionExecutor.java:172-179 | When the current actor's queue is empty, expiry runs. The actor leaves the turn queue and stops being current only if expiry queued nothing. |
| Executor.ResetForRound | src/model/combat/actionexecutor/DefaultCombatActionExecutor.java:188-189 | The actor's selected action is cleared and every status loses its updated flag. Nothing else changes. |
| Executor.ResetParties | src/model/combat/actionexecutor/DefaultCombatActionExecutor.java:188-189 | Exactly the party members are reset. |
| Executor.UpdateExecutionStatus | src/model/combat/actionexecutor/DefaultCombatActionExecutor.java:171-190 | After the turn ends, a paused round stays as it is. A round in progress with both queues drained ends and resets the parties. |
| Executor.IsRoundReady | src/model/combat/actionexecutor/DefaultCombatActionExecutor.java:255-258 | A paused round is always ready; otherwise a round whose turn queue is shorter than the two parties together is not ready. |
| Executor.SetNextAIMoves | src/model/combat/actionexecutor/DefaultCombatActionExecutor.java:282-290 | It fails iff some listed NPC is not automatic, and the error names the first such NPC in list order, every NPC before it being automatic. On success every listed NPC has a selected move, others are untouched, and only actors, turn queue and pending queue change. |
| Executor.PrepareNextRound | src/model/combat/actionexecutor/DefaultCombatActionExecutor.java:230-233 | It fails iff some NPC is not automatic; on success the round number is one higher, the status is unchanged, and every NPC has selected a move. |
| Executor.EnterCombat | src/model/combat/actionexecutor/DefaultCombatActionExecutor.java:222 | Exactly the party members are marked in combat. |
| Executor.StartExecutor | src/model/combat/actionexecutor/DefaultCombatActionExecutor.java:220-224 | It fails iff some NPC is not automatic; on success the status is STARTED, the round number is one higher, and every NPC has selected a move. |
| Executor.OrderKeys | src/model/combat/actionexecutor/DefaultCombatActionExecutor.java:41-56 | The comparator's order as a key: priority first, then whether the actor is already queued. |
| Executor.OrderedActorsList | src/model/combat/actionexecutor/DefaultCombatActionExecutor.java:264-268 | The displayed order is a permutation of both parties, sorted by the comparator's key. |
| ExecutorInvariant.AddActorKeepsInv | src/model/combat/actionexecutor/DefaultCombatActionExecutor.java:207-213 | Adding an actor keeps the invariant. |
| ExecutorInvariant.SetNextActionKeepsInv | src/model/combat/actionexecutor/DefaultCombatActionExecutor.java:87-101 | Taking the next action keeps the invariant. |
| ExecutorInvariant.EvaluateKeepsInv | src/model/combat/actionexecutor/DefaultCombatActionExecutor.java:143-165 | Evaluating keeps the invariant. |
| ExecutorInvariant.ApplyHitsWF | src/model/combat/actionexecutor/DefaultCombatActionExecutor.java:108-122 | Applying hits with well-behaved effects keeps every stored index valid. |
| ExecutorInvariant.SetNextAIMoveKeepsInv | src/model/combat/actionexecutor/DefaultCombatActionExecutor.java:296-299 | An AI move keeps the invariant. |
| ExecutorInvariant.ExecuteKeepsInv | src/model/combat/actionexecutor/DefaultCombatActionExecutor.java:107-137 | Executing keeps the invariant. |
| ExecutorInvariant.EndTurnKeepsInv | src/model/combat/actionexecutor/DefaultCombatActionExecutor.java:172-179 | Ending a turn keeps the invariant. |
| ExecutorInvariant.UpdateExecutionStatusKeepsInv | src/model/combat/actionexecutor/DefaultCombatActionExecutor.java:171-190 | Updating the execution status keeps the invariant. |
| ExecutorInvariant.SetNextAIMovesKeepsInv | src/model/combat/actionexecutor/DefaultCombatActionExecutor.java:282-290 | Asking every NPC for a move keeps the invariant. |
| ExecutorInvariant.StartExecutorKeepsInv | src/model/combat/actionexecutor/DefaultCombatActionExecutor.java:220-224 | Starting keeps the invariant. |
| ExecutorInvariant.EnterCombatKeepsInv | src/model/combat/actionexecutor/DefaultCombatActionExecutor.java:220-221 | Setting the status to STARTED and marking the party members as in combat keeps the invariant. |
| ExecutorInvariant.PrepareNextRoundKeepsInv | src/model/combat/actionexecutor/DefaultCombatActionExecutor.java:230-233 | Preparing the next round keeps the invariant. |
| ExecutorLaws.AddActorLandsAfterEqualPriority | src/model/combat/actionexecutor/DefaultCombatActionExecutor.java:207-213 | Outside a pause, the new queue is the old one with the actor spliced in after every actor of at least its priority and before every actor of lower priority. |
| ExecutorLaws.AddActorWhilePausedAnswersParry | src/model/combat/actionexecutor/DefaultCombatActionExecutor.java:207-209 | While paused, the actor's selected reply becomes the next pending action and the turn queue is unchanged. |
| ExecutorLaws.HitsCounted | src/model/combat/actionexecutor/DefaultCombatActionExecutor.java:152-153 | The number of hit results equals the number of hitting rolls. |
| ExecutorLaws.EvaluationCounts | src/model/combat/actionexecutor/DefaultCombatActionExecutor.java:143-165 | Evaluation reports as many hits as rolls that hit, and hits, parries and misses add up to the number of targets. |
| ExecutorLaws.ParriedExactlyWhen | src/model/combat/actionexecutor/DefaultCombatActionExecutor.java:307-313 | A target parries exactly when its roll missed, it has a selected action tagged PARRY, it is not in the turn queue, and the action is neither SELF-typed nor a status action. |
| ExecutorLaws.SelfAndStatusActionsNeverParried | src/model/combat/actionexecutor/DefaultCombatActionExecutor.java:309-310 | SELF-typed actions and status actions are never parried. |
| ExecutorLaws.QueuedTargetsNeverParry | src/model/combat/actionexecutor/DefaultCombatActionExecutor.java:312 | A target that is in the turn queue, the current actor included, never parries. |
| ExecutorLaws.EvaluationIsLogged | src/thedd/view/controller/GameContentController.java:194-219 | For an action with a source and distinct targets, the log of its evaluation has a header and then, for each target in order, the line for that target's outcome. |
| ExecutorLaws.ExecuteWithoutParry | src/model/combat/actionexecutor/DefaultCombatActionExecutor.java:108-122 | Without a parry, execution succeeds, touches only actors and pending actions, only appends pending actions, and leaves every actor that was not hit as it was. |
| ExecutorLaws.HumanParryPausesRound | src/model/combat/actionexecutor/DefaultCombatActionExecutor.java:129-134 | When the first parrier is not an NPC, the round pauses and the turn queue and current actor stay. |
| ExecutorLaws.NpcParryRequeues | src/model/combat/actionexecutor/DefaultCombatActionExecutor.java:129-131 | When the first parrier is an automatic NPC, it selects the oracle's move and joins the turn queue, and the status is unchanged. |
| ExecutorLaws.NonAutomaticNpcParryFails | src/model/combat/actionexecutor/DefaultCombatActionExecutor.java:130-131 | When the first parrier is an NPC that is not automatic, execution fails with that NPC in the error. |
| ExecutorLaws.RoundEndsIffDrained | src/model/combat/actionexecutor/DefaultCombatActionExecutor.java:181-190 | The round is ended afterwards iff it already was, or it was in progress and both queues are empty once the turn ends. |
| ExecutorLaws.PausedRoundNeverEnds | src/model/combat/actionexecutor/DefaultCombatActionExecutor.java:181-183 | A paused round stays paused, and only the end of the turn takes effect. |
| ExecutorLaws.RoundEndResetsParties | src/model/combat/actionexecutor/DefaultCombatActionExecutor.java:185-190 | When the round ends, every party member has no selected action and no updated status, and keeps its statuses and queue. |
| ExecutorLaws.TurnEndsWhenIdle | src/model/combat/actionexecutor/DefaultCombatActionExecutor.java:172-179 | The turn ends iff the current actor's queue is empty and expiry queues nothing, and then exactly one occurrence of the actor leaves the turn queue. |
| ExecutorLaws.AIMovesJoinQueue | src/model/combat/actionexecutor/DefaultCombatActionExecutor.java:282-299 | Outside a pause, asking the NPCs for moves adds each of them once to the turn queue and leaves the pending actions as they were. |
| ExecutorLaws.AIMovesSortQueue | src/model/combat/actionexecutor/DefaultCombatActionExecutor.java:282-299 | Outside a pause, once at least one NPC has been asked, the turn queue is sorted by priority. |
| ExecutorLaws.AIMovesKeepCombatFlags | src/model/combat/actionexecutor/DefaultCombatActionExecutor.java:282-299 | Asking the NPCs for moves changes no actor's in-combat flag. |
| ExecutorLaws.PreparedRound | src/model/combat/actionexecutor/DefaultCombatActionExecutor.java:230-233 | With every NPC automatic, preparing the next round succeeds, increases the round number by one, selects a move for every NPC, and queues each NPC once. |
| ExecutorLaws.EnteredCombat | src/model/combat/actionexecutor/DefaultCombatActionExecutor.java:221-222 | Entering combat sets the status to STARTED and marks every party member in combat. It keeps the state well-formed and every NPC automatic. |
| ExecutorLaws.StartQueuesEveryNpc | src/model/combat/actionexecutor/DefaultCombatActionExecutor.java:220-233 | With every NPC automatic, start succeeds with status STARTED and the round number one higher. Every NPC has a move and has joined the turn queue once. |
| ExecutorLaws.StartPutsPartiesInCombat | src/model/combat/actionexecutor/DefaultCombatActionExecutor.java:220-224 | After start, every party member is in combat. |
| ExecutorLaws.RoundReadyOnceAllQueued | src/model/combat/actionexecutor/DefaultCombatActionExecutor.java:255-258 | When the two parties are duplicate-free and disjoint and all their members are queued, the round is ready. |
| ExecutorLaws.OrderedActorsFollowComparator | src/model/combat/actionexecutor/DefaultCombatActionExecutor.java:264-268 | The displayed order lists every party member once per membership. No earlier entry compares after a later one. Entries the comparator ties keep their party order. |

## Left out

- Target binding of status actions (`prepareAction`) and all hit-chance arithmetic. The hit rolls are an input, one boolean per target.
- Floating-point effect payloads, such as the Dark Destructor's -0.3 and +0.2 damage modifiers. A modifier's rewrite is an abstract function.
- The effect application inside `applyEffects`. It is the `EffectsOracle` parameter, which gives the hit target's new statuses and changes nothing else of the actor.
- AI move selection (`selectNextMove`). It is the `MoveOracle` parameter. It sees the live model state, where the code passes a deep copy of the instance; the copy (`getCopy` of the instance) is not part of this model.
- Executor.SelectMove: the implementation of `ActionActor` is not part of this model. The model assumes three things: selecting a move records it and appends it to the actor's own queue; resetting the selection only clears it; the next queued action is taken from the front of the actor's queue.
- StatusHooks.ExpireStatuses: removes the expired status at its position in the list, where the code removes the first status `equals` matches. The two differ only when an earlier status is equal to it.
- `relativeToActor` of a status is stored but never consulted, as in the code.
- The unknown-target-type branch of `getValidTargets` and the "Log not specified" branch of `logAction`: every enum value is handled, so they cannot run.
- The logger thread, the JavaFX view, and lower-casing under the default locale in `logAction`. The outcome words are written lower-case directly.
- `setExecutionInstance` and `getExecutionInstance`: the model has one state record.
- The commented-out win and loss detection in `updateExecutionStatus`.
- Priorities are unbounded integers in the executor. `Ordering.CompareAsWritten` models the 32-bit subtraction separately.
- Statuses.Update: remaining turns are an unbounded integer, where the code's `remainingTurns` is a Java `int`. A permanent status is decremented at every turn start; after more than 2^31 updates the code's counter would wrap to a positive value and yield the activation again. The model keeps decrementing, so `Statuses.PermanentYieldsDeactivation` holds for any number of updates.
- Effects.ApplyModifiers: a modifier's rewrite produces only a new payload. In the code `modify` receives the whole effect and could also add or remove its tags; tag-changing modifiers are not modelled. The contracts of `Effects.ApplyModifiers`, `Effects.UpdateEffectByTarget` and `Effects.UpdateEffectBySource` that keep the tags, and the equality of `Effects.ApplyIsChainOfSelected`, rely on this.
- Tags.AllMet: `TagRequirement` itself is not part of this model. Its `inverted` flag is modelled as negating the verdict of the requirement's mode.
- Effects.GatedModifier: the modifier classes (`Modifier`, `DamageModifier`) are not part of this model. The model assumes that `accept` holds exactly when every requirement added to the modifier holds, each checked against the effect's own tags, permanent and volatile together. The source and target tag snapshots are not consulted, and the requirements combine conjunctively. `Effects.DarkDestructorModifiers` depends on this assumption.
- Targeting.AllParties: `ExecutionInstanceImpl` is not part of this model. The model assumes `getAllParties` lists the player party first and then the NPC party, each in its own order. This fixes the order of the EVERYONE target list in `Targeting.ValidTargets`, and the order of actors with equal keys in `Executor.OrderedActorsList` and `ExecutorLaws.OrderedActorsFollowComparator`.
- `ItemGiverEffect`, items, characters, rooms and the world: outside the combat engine.
- Executor.ExecuteCurrentAction: an NPC parrier that is not automatic is an error (`NotAutomatic`). In the code this is a failed cast.
- Executor.SetNextAIMoves: a non-automatic NPC is an error naming that NPC. The code throws after the earlier NPCs have already chosen; the model returns no partial state.

## Findings

| source | as written | input that shows it | evidently intended | confidence | as-written member | corrected member |
|---|---|---|---|---|---|---|
| src/model/combat/action/targeting/DefaultTargeting.java:44-46 | ALLY returns the party opposed to the source, the same list as FOE | player party [0], NPC party [1], source 0, ALLY: gives [1] (`Targeting.AllyExcludesOwnParty`) | ALLY returns the source's own party, as the documentation of the method says | not executed | Targeting.ValidTargets | Targeting.ValidTargetsAsDocumented |
| src/model/combat/implementations/AbstractActionEffect.java:67 | non-permanent `addTags` adds the parameter set to itself, so the effect's tags never change | empty effect, `addTags({FIRE}, false)`: FIRE is not among the tags afterwards, while `addTag(FIRE, false)` adds it (`Effects.AddTagsAsWrittenDropsVolatileTags`) | add each given tag that is not already permanent to the volatile set, as `addTag` does | not executed | Effects.AddTagsAsWritten | Effects.AddTags |
| src/model/combat/actionexecutor/DefaultCombatActionExecutor.java:54 | the comparator returns `bPriority - aPriority` in 32-bit arithmetic, which overflows | priorities -2^31 and 1: the lower priority sorts first (`Ordering.CompareAsWrittenMisorders`); -2^31, 2^31-1, 0 compare in a cycle (`Ordering.CompareAsWrittenCycles`) | compare the priorities without overflow (higher first) | not executed | Ordering.CompareAsWritten | Ordering.CompareIntended |
