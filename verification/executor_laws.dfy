/**
 * Properties of the executor's operations taken one at a time or in short
 * sequences: where a newcomer lands in the turn queue, how evaluation
 * outcomes add up and who can parry, what executing an action touches,
 * when a round ends, and what starting a combat leaves behind.
 */
module ExecutorLaws {
  import opened Basics
  import opened Tags
  import opened Actions
  import opened Statuses
  import opened Ordering
  import opened ExecutorState
  import opened StatusHooks
  import opened Executor
  import opened CombatLog

  // ---------------------------------------------------------------------------
  // The turn queue.

  /**
   * Outside a pause, an actor added to a sorted turn queue lands right after
   * every queued actor of at least its priority and before every actor of
   * lower priority: behind the incumbents of equal priority.
   */
  lemma AddActorLandsAfterEqualPriority(st: State, id: ActorId) returns (i: nat)
    requires Inv(st) && id < |st.actors| && st.status != RoundPaused
    ensures i <= |st.actorQueue|
    ensures AddActorToQueue(st, id) == Ok(st.(actorQueue := st.actorQueue[..i] + [id] + st.actorQueue[i..]))
    ensures forall j :: 0 <= j < i ==> st.actors[st.actorQueue[j]].priority >= st.actors[id].priority
    ensures forall j :: i <= j < |st.actorQueue| ==> st.actors[st.actorQueue[j]].priority < st.actors[id].priority
  {
    var keys := Priorities(st.actors);
    i := SortAfterAppendPlacesLast(st.actorQueue, keys, id);
  }

  /** While paused, adding an actor queues its selected action first and leaves the turn queue alone. */
  lemma AddActorWhilePausedAnswersParry(st: State, id: ActorId, reply: Action)
    requires id < |st.actors| && st.status == RoundPaused && st.actors[id].selected == Some(reply)
    ensures AddActorToQueue(st, id).Ok?
    ensures AddActorToQueue(st, id).value.pending[0] == reply
    ensures AddActorToQueue(st, id).value.actorQueue == st.actorQueue
  {
  }

  // ---------------------------------------------------------------------------
  // Evaluation.

  /** Number of `true` rolls. */
  function CountHits(hits: seq<bool>): (n: nat)
    ensures n <= |hits|
  {
    if |hits| == 0 then 0 else (if hits[0] then 1 else 0) + CountHits(hits[1..])
  }

  lemma {:induction false} HitsCounted(rs: seq<TargetResult>, hits: seq<bool>)
    requires |rs| == |hits|
    requires forall i :: 0 <= i < |rs| ==> (rs[i].outcome == Hit <==> hits[i])
    ensures CountOutcome(rs, Hit) == CountHits(hits)
  {
    if |rs| > 0 {
      HitsCounted(rs[1..], hits[1..]);
    }
  }

  /**
   * An evaluation yields exactly one result per target: as many hits as
   * rolls that hit, and hits, parries and misses together make up all the
   * targets.
   */
  lemma EvaluationCounts(st: State, hits: seq<bool>)
    requires WF(st) && st.currentAction.Some? && |hits| == |st.currentAction.value.targets|
    ensures var rs := EvaluateCurrentAction(st, hits).1.value;
            && CountOutcome(rs, Hit) == CountHits(hits)
            && CountOutcome(rs, Hit) + CountOutcome(rs, Parried) + CountOutcome(rs, Missed) == |hits|
  {
    var rs := EvaluateCurrentAction(st, hits).1.value;
    HitsCounted(rs, hits);
    OutcomesPartition(rs);
  }

  /**
   * A target is reported as having parried exactly when its roll missed, it
   * has a selected action tagged PARRY, it is not waiting in the turn queue,
   * and the action is neither aimed at its user nor a status action.
   */
  lemma ParriedExactlyWhen(st: State, hits: seq<bool>)
    requires WF(st) && st.currentAction.Some? && |hits| == |st.currentAction.value.targets|
    ensures var act := st.currentAction.value;
            var rs := EvaluateCurrentAction(st, hits).1.value;
            forall i :: 0 <= i < |rs| ==>
              (rs[i].outcome == Parried <==>
                 && !hits[i]
                 && st.actors[act.targets[i]].selected.Some?
                 && ParryTag in st.actors[act.targets[i]].selected.value.tags
                 && act.targets[i] !in st.actorQueue
                 && act.targetType != SelfTarget
                 && act.category != StatusCategory)
  {
  }

  /** Actions aimed at their own user, and actions coming from statuses, are never parried. */
  lemma SelfAndStatusActionsNeverParried(st: State, hits: seq<bool>)
    requires WF(st) && st.currentAction.Some? && |hits| == |st.currentAction.value.targets|
    requires st.currentAction.value.targetType == SelfTarget || st.currentAction.value.category == StatusCategory
    ensures CountOutcome(EvaluateCurrentAction(st, hits).1.value, Parried) == 0
  {
    var rs := EvaluateCurrentAction(st, hits).1.value;
    NoneOfOutcome(rs, Parried);
  }

  lemma {:induction false} NoneOfOutcome(rs: seq<TargetResult>, o: Outcome)
    requires forall i :: 0 <= i < |rs| ==> rs[i].outcome != o
    ensures CountOutcome(rs, o) == 0
  {
    if |rs| > 0 {
      NoneOfOutcome(rs[1..], o);
    }
  }

  /**
   * A target still waiting in the turn queue cannot parry; in particular the
   * actor whose turn it is never parries.
   */
  lemma QueuedTargetsNeverParry(st: State, hits: seq<bool>)
    requires Inv(st) && st.currentAction.Some? && |hits| == |st.currentAction.value.targets|
    ensures var rs := EvaluateCurrentAction(st, hits).1.value;
            forall i :: 0 <= i < |rs| && (rs[i].target in st.actorQueue || Some(rs[i].target) == st.currentActor) ==>
              rs[i].outcome != Parried
  {
  }

  /** The actor names, by index. */
  function ActorNames(st: State): (names: seq<string>)
    ensures |names| == |st.actors|
    ensures forall i :: 0 <= i < |st.actors| ==> names[i] == st.actors[i].name
  {
    seq(|st.actors|, i requires 0 <= i < |st.actors| => st.actors[i].name)
  }

  /**
   * The combat log of an evaluated action with a source and distinct targets
   * is a header and one line per target saying that target's outcome.
   */
  lemma EvaluationIsLogged(st: State, hits: seq<bool>)
    requires WF(st) && st.currentAction.Some? && |hits| == |st.currentAction.value.targets|
    requires st.currentAction.value.source.Some?
    requires var ts := st.currentAction.value.targets;
             forall i, j :: 0 <= i < j < |ts| ==> ts[i] != ts[j]
    ensures var act := st.currentAction.value;
            var rs := EvaluateCurrentAction(st, hits).1.value;
            var log := LogAction(ActorNames(st), act, rs);
            && log.Ok?
            && |log.value| == 1 + |act.targets|
            && forall i :: 0 <= i < |act.targets| ==>
                 log.value[i + 1] == OutcomeLine(st.actors[act.targets[i]].name, rs[i].outcome)
  {
    var act := st.currentAction.value;
    var rs := EvaluateCurrentAction(st, hits).1.value;
    forall i | 0 <= i < |act.targets| ensures FirstOutcome(rs, act.targets[i]) == Some(rs[i].outcome) {
      FirstOutcomeOfDistinct(rs, act.targets, i);
    }
  }

  /** With distinct targets, the first result for the i-th target is the i-th result. */
  lemma FirstOutcomeOfDistinct(rs: seq<TargetResult>, targets: seq<ActorId>, i: nat)
    requires |rs| == |targets| && i < |targets|
    requires forall j :: 0 <= j < |rs| ==> rs[j].target == targets[j]
    requires forall j, k :: 0 <= j < k < |targets| ==> targets[j] != targets[k]
    ensures FirstOutcome(rs, targets[i]) == Some(rs[i].outcome)
  {
    var k := FirstIndex(rs, targets[i]);
    assert rs[i].target == targets[i];
    if k < i {
      assert false;
    }
  }

  // ---------------------------------------------------------------------------
  // Execution.

  /** Without any parry, executing changes only the actors hit, the pending actions, nothing else. */
  lemma ExecuteWithoutParry(st: State, effects: EffectsOracle, ai: MoveOracle)
    requires WF(st) && st.currentAction.Some? && st.currentResult.Some?
    requires forall i :: 0 <= i < |st.currentResult.value| ==> st.currentResult.value[i].outcome != Parried
    ensures var r := ExecuteCurrentAction(st, effects, ai);
            && r.Ok?
            && r.value == st.(actors := r.value.actors, pending := r.value.pending)
            && st.pending <= r.value.pending
            && forall i :: 0 <= i < |st.actors| && !HitTarget(st.currentResult.value, i) ==> r.value.actors[i] == st.actors[i]
  {
  }

  /**
   * When the first target to parry is not an NPC, the round pauses and the
   * turn queue is left as it was: the parrying actor must answer first.
   */
  lemma HumanParryPausesRound(st: State, effects: EffectsOracle, ai: MoveOracle, p: ActorId)
    requires WF(st) && st.currentAction.Some? && st.currentResult.Some?
    requires FirstParried(st.currentResult.value) == Some(p) && p !in st.npcs
    ensures var r := ExecuteCurrentAction(st, effects, ai);
            && r.Ok? && r.value.status == RoundPaused
            && r.value.actorQueue == st.actorQueue
            && r.value.currentActor == st.currentActor
  {
  }

  /**
   * When the first target to parry is an automatic NPC and the round is not
   * paused, it picks its reply at once and rejoins the turn queue.
   */
  lemma NpcParryRequeues(st: State, effects: EffectsOracle, ai: MoveOracle, p: ActorId)
    requires WF(st) && st.currentAction.Some? && st.currentResult.Some? && st.status != RoundPaused
    requires FirstParried(st.currentResult.value) == Some(p) && p in st.npcs && p < |st.actors|
    requires st.actors[p].automatic
    ensures var h := ApplyHits(st, st.currentAction.value, st.currentResult.value, effects);
            var r := ExecuteCurrentAction(st, effects, ai);
            && r.Ok?
            && r.value.status == st.status
            && p in r.value.actorQueue
            && r.value.actors[p].selected == Some(ai(h, p))
            && multiset(r.value.actorQueue) == multiset(st.actorQueue) + multiset{p}
  {
    var h := ApplyHits(st, st.currentAction.value, st.currentResult.value, effects);
    var r := ExecuteCurrentAction(st, effects, ai);
    assert r == SetNextAIMove(h, p, ai);
    assert p in multiset(r.value.actorQueue);
  }

  /** A non-automatic NPC that parries makes execution fail. */
  lemma NonAutomaticNpcParryFails(st: State, effects: EffectsOracle, ai: MoveOracle, p: ActorId)
    requires WF(st) && st.currentAction.Some? && st.currentResult.Some?
    requires FirstParried(st.currentResult.value) == Some(p) && p in st.npcs && p < |st.actors|
    requires !st.actors[p].automatic
    ensures ExecuteCurrentAction(st, effects, ai) == Err(NotAutomatic(p))
  {
    var h := ApplyHits(st, st.currentAction.value, st.currentResult.value, effects);
    assert h.actors[p].automatic == st.actors[p].automatic;
  }

  // ---------------------------------------------------------------------------
  // End of turn and of round.

  /** The round ends exactly when it was in progress and both queues are drained after the turn ends. */
  lemma RoundEndsIffDrained(st: State)
    requires WF(st)
    ensures var t := EndTurn(st);
            UpdateExecutionStatus(st).status == RoundEnded <==>
              st.status == RoundEnded || (st.status == RoundInProgress && |t.actorQueue| == 0 && |t.pending| == 0)
  {
  }

  /** A paused round never ends and keeps its pause. */
  lemma PausedRoundNeverEnds(st: State)
    requires WF(st) && st.status == RoundPaused
    ensures UpdateExecutionStatus(st).status == RoundPaused
    ensures UpdateExecutionStatus(st) == EndTurn(st)
  {
  }

  /**
   * When the round ends, every party member has no selected action and none
   * of its statuses is marked as updated; everything else about the actors
   * is unchanged.
   */
  lemma RoundEndResetsParties(st: State)
    requires WF(st) && st.status == RoundInProgress
    requires UpdateExecutionStatus(st).status == RoundEnded
    ensures var t := EndTurn(st);
            var r := UpdateExecutionStatus(st);
            && |r.actors| == |t.actors|
            && forall i :: 0 <= i < |t.actors| && (i in st.player || i in st.npcs) ==>
                 && r.actors[i].selected.None?
                 && |r.actors[i].statuses| == |t.actors[i].statuses|
                 && (forall j :: 0 <= j < |r.actors[i].statuses| ==> !r.actors[i].statuses[j].updated)
                 && r.actors[i].queue == t.actors[i].queue
  {
  }

  /**
   * The current actor leaves the turn queue exactly when it has no action
   * left and its expired statuses queued none.
   */
  lemma TurnEndsWhenIdle(st: State)
    requires Inv(st) && st.currentActor.Some?
    ensures var id := st.currentActor.value;
            var a := st.actors[id];
            EndTurn(st).currentActor.None? <==> |a.queue| == 0 && |ExpiryActions(a.statuses)| == 0
    ensures EndTurn(st).currentActor.None? ==>
            multiset(EndTurn(st).actorQueue) == multiset(st.actorQueue) - multiset{st.currentActor.value}
  {
  }

  // ---------------------------------------------------------------------------
  // Starting a combat and preparing rounds.

  /** Each NPC asked for a move outside a pause joins the turn queue. */
  lemma {:induction false} AIMovesJoinQueue(st: State, ids: seq<ActorId>, ai: MoveOracle)
    requires forall i :: 0 <= i < |ids| ==> ids[i] < |st.actors|
    requires st.status != RoundPaused
    ensures var r := SetNextAIMoves(st, ids, ai);
            r.Ok? ==>
              && r.value.pending == st.pending
              && multiset(r.value.actorQueue) == multiset(st.actorQueue) + multiset(ids)
    decreases |ids|
  {
    if |ids| > 0 && st.actors[ids[0]].automatic {
      var s1 := AIMovesCons(st, ids, ai);
      AIMoveStep(st, ids[0], ai);
      AIMovesJoinQueue(s1, ids[1..], ai);
      var r := SetNextAIMoves(s1, ids[1..], ai);
      if r.Ok? {
        JoinStep(st.actorQueue, s1.actorQueue, r.value.actorQueue, ids);
      }
    }
  }

  /** Joining the first id and then the rest is joining them all. */
  lemma JoinStep(q0: seq<ActorId>, q1: seq<ActorId>, q2: seq<ActorId>, ids: seq<ActorId>)
    requires |ids| > 0
    requires multiset(q1) == multiset(q0) + multiset{ids[0]}
    requires multiset(q2) == multiset(q1) + multiset(ids[1..])
    ensures multiset(q2) == multiset(q0) + multiset(ids)
  {
    assert ids == [ids[0]] + ids[1..];
    assert multiset(ids) == multiset{ids[0]} + multiset(ids[1..]);
  }

  /**
   * Outside a pause, once at least one NPC has been asked for a move the
   * turn queue is sorted by priority, even if it was not before.
   */
  lemma {:induction false} AIMovesSortQueue(st: State, ids: seq<ActorId>, ai: MoveOracle)
    requires forall i :: 0 <= i < |ids| ==> ids[i] < |st.actors|
    requires st.status != RoundPaused
    requires QueueSorted(st) || |ids| > 0
    ensures var r := SetNextAIMoves(st, ids, ai);
            r.Ok? ==> SortedDesc(r.value.actorQueue, Priorities(st.actors))
    decreases |ids|
  {
    if |ids| > 0 && st.actors[ids[0]].automatic {
      var s1 := AIMovesCons(st, ids, ai);
      AIMoveStep(st, ids[0], ai);
      AIMovesSortQueue(s1, ids[1..], ai);
    }
  }

  /** Asking NPCs for moves leaves every actor's combat flag as it was. */
  lemma {:induction false} AIMovesKeepCombatFlags(st: State, ids: seq<ActorId>, ai: MoveOracle)
    requires forall i :: 0 <= i < |ids| ==> ids[i] < |st.actors|
    ensures var r := SetNextAIMoves(st, ids, ai);
            r.Ok? ==> forall i :: 0 <= i < |st.actors| ==> r.value.actors[i].inCombat == st.actors[i].inCombat
    decreases |ids|
  {
    if |ids| > 0 && st.actors[ids[0]].automatic {
      var s1 := AIMovesCons(st, ids, ai);
      assert forall i :: 0 <= i < |st.actors| ==> s1.actors[i].inCombat == st.actors[i].inCombat;
      AIMovesKeepCombatFlags(s1, ids[1..], ai);
    }
  }

  /** Asking a list of NPCs, the first of them automatic, is asking the first, then the rest. */
  lemma AIMovesCons(st: State, ids: seq<ActorId>, ai: MoveOracle) returns (s1: State)
    requires |ids| > 0 && forall i :: 0 <= i < |ids| ==> ids[i] < |st.actors|
    requires st.actors[ids[0]].automatic
    ensures s1 == AIMoveFacts(st, ids[0], ai)
    ensures |s1.actors| == |st.actors|
    ensures forall i :: 0 <= i < |ids[1..]| ==> ids[1..][i] < |s1.actors|
    ensures SetNextAIMoves(st, ids, ai) == SetNextAIMoves(s1, ids[1..], ai)
  {
    s1 := AIMoveFacts(st, ids[0], ai);
  }

  /** One NPC asked for a move outside a pause joins the sorted turn queue. */
  lemma AIMoveStep(st: State, id: ActorId, ai: MoveOracle)
    requires id < |st.actors| && st.status != RoundPaused && st.actors[id].automatic
    ensures var s1 := AIMoveFacts(st, id, ai);
            && s1.status == st.status
            && s1.pending == st.pending
            && multiset(s1.actorQueue) == multiset(st.actorQueue) + multiset{id}
            && Priorities(s1.actors) == Priorities(st.actors)
            && QueueSorted(s1)
  {
    var s1 := AIMoveFacts(st, id, ai);
    SameCastPriorities(st.actors, s1.actors);
  }

  /**
   * Starting a combat whose NPCs are all automatic succeeds: the status is
   * STARTED, the round number goes up by one, and every NPC has picked a
   * move and joined the turn queue.
   */
  lemma StartQueuesEveryNpc(st: State, ai: MoveOracle)
    requires WF(st)
    requires forall i :: 0 <= i < |st.npcs| ==> st.actors[st.npcs[i]].automatic
    ensures var r := StartExecutor(st, ai);
            && r.Ok?
            && r.value.status == Started
            && r.value.round == st.round + 1
            && multiset(r.value.actorQueue) == multiset(st.actorQueue) + multiset(st.npcs)
            && (forall i :: 0 <= i < |st.npcs| ==> r.value.actors[st.npcs[i]].selected.Some?)
  {
    var s1 := EnteredCombat(st);
    PreparedRound(s1, ai);
  }

  /** Starting a combat whose NPCs are all automatic puts every party member in combat. */
  lemma StartPutsPartiesInCombat(st: State, ai: MoveOracle)
    requires WF(st)
    requires forall i :: 0 <= i < |st.npcs| ==> st.actors[st.npcs[i]].automatic
    ensures StartExecutor(st, ai).Ok?
    ensures forall i :: 0 <= i < |st.actors| && (i in st.player || i in st.npcs) ==> StartExecutor(st, ai).value.actors[i].inCombat
  {
    var s1 := EnteredCombat(st);
    PreparedRound(s1, ai);
  }

  /** The state in which the first round is prepared. */
  lemma EnteredCombat(st: State) returns (s1: State)
    requires WF(st)
    requires forall i :: 0 <= i < |st.npcs| ==> st.actors[st.npcs[i]].automatic
    ensures s1 == CombatStarted(st)
    ensures WF(s1) && s1.status == Started
    ensures forall i :: 0 <= i < |s1.npcs| ==> s1.actors[s1.npcs[i]].automatic
    ensures forall i :: 0 <= i < |st.actors| && (i in st.player || i in st.npcs) ==> s1.actors[i].inCombat
  {
    s1 := CombatStarted(st);
    assert WF(s1);
    forall i | 0 <= i < |s1.npcs| ensures s1.actors[s1.npcs[i]].automatic {
      assert s1.actors[st.npcs[i]].automatic == st.actors[st.npcs[i]].automatic;
    }
  }

  /** A round prepared while every NPC is automatic queues every NPC and touches nothing else. */
  lemma PreparedRound(s1: State, ai: MoveOracle)
    requires WF(s1) && s1.status != RoundPaused
    requires forall i :: 0 <= i < |s1.npcs| ==> s1.actors[s1.npcs[i]].automatic
    ensures var r := PrepareNextRound(s1, ai);
            && r.Ok?
            && r.value.status == s1.status && r.value.round == s1.round + 1
            && multiset(r.value.actorQueue) == multiset(s1.actorQueue) + multiset(s1.npcs)
            && (forall i :: 0 <= i < |s1.npcs| ==> r.value.actors[s1.npcs[i]].selected.Some?)
            && (forall i :: 0 <= i < |s1.actors| ==> r.value.actors[i].inCombat == s1.actors[i].inCombat)
  {
    AIMovesJoinQueue(NextRound(s1), s1.npcs, ai);
    AIMovesKeepCombatFlags(NextRound(s1), s1.npcs, ai);
  }

  // ---------------------------------------------------------------------------
  // Round readiness.

  /** A duplicate-free sequence whose members all occur in `q` is no longer than `q`. */
  lemma {:induction false} DistinctCoveredIsShorter(all: seq<ActorId>, q: seq<ActorId>)
    requires forall i, j :: 0 <= i < j < |all| ==> all[i] != all[j]
    requires forall x :: x in all ==> x in q
    ensures |all| <= |q|
    decreases |all|
  {
    if |all| > 0 {
      var q' := RemoveFirst(q, all[0]);
      forall x | x in all[1..] ensures x in q' {
        var j :| 0 <= j < |all[1..]| && all[1..][j] == x;
        assert all[j + 1] == x && x != all[0];
        assert x in all;
        assert x in multiset(q);
        assert x in multiset(q');
      }
      DistinctCoveredIsShorter(all[1..], q');
    }
  }

  /** Once every member of two disjoint, duplicate-free parties is queued, the round is ready. */
  lemma RoundReadyOnceAllQueued(st: State)
    requires var all := st.player + st.npcs;
             forall i, j :: 0 <= i < j < |all| ==> all[i] != all[j]
    requires forall x :: x in st.player + st.npcs ==> x in st.actorQueue
    ensures IsRoundReady(st)
  {
    DistinctCoveredIsShorter(st.player + st.npcs, st.actorQueue);
  }

  // ---------------------------------------------------------------------------
  // The displayed order.

  /**
   * The displayed order lists every party member once per membership, in an
   * order the comparator accepts: for any two of them, the earlier one
   * never compares after the later one, and members the comparator ties
   * keep their party order.
   */
  lemma OrderedActorsFollowComparator(st: State)
    requires WF(st)
    ensures var r := OrderedActorsList(st);
            && multiset(r) == multiset(st.player + st.npcs)
            && (forall i :: 0 <= i < |r| ==> r[i] < |st.actors|)
            && (forall i, j :: 0 <= i < j < |r| ==>
                 r[i] < |st.actors| && r[j] < |st.actors| &&
                 CompareIntended(st.actors[r[i]].priority, st.actors[r[j]].priority,
                                 r[i] in st.actorQueue, r[j] in st.actorQueue) <= 0)
            && forall k :: Class(r, OrderKeys(st), k) == Class(st.player + st.npcs, OrderKeys(st), k)
  {
    var r := OrderedActorsInArena(st);
    OrderedActorsKeepClasses(st);
    forall i, j | 0 <= i < j < |r|
      ensures r[i] < |st.actors| && r[j] < |st.actors|
      ensures CompareIntended(st.actors[r[i]].priority, st.actors[r[j]].priority,
                              r[i] in st.actorQueue, r[j] in st.actorQueue) <= 0
    {
      KeysFollowComparator(st, r[i], r[j]);
    }
  }

  /** The displayed order names only actors of the arena. */
  lemma OrderedActorsInArena(st: State) returns (r: seq<ActorId>)
    requires WF(st)
    ensures r == OrderedActorsList(st)
    ensures SortedDesc(r, OrderKeys(st))
    ensures multiset(r) == multiset(st.player + st.npcs)
    ensures forall i :: 0 <= i < |r| ==> r[i] < |st.actors|
  {
    r := OrderedActorsList(st);
    var all := st.player + st.npcs;
    forall i | 0 <= i < |r| ensures r[i] < |st.actors| {
      assert r[i] in multiset(all);
      assert r[i] in all;
    }
  }

  lemma OrderedActorsKeepClasses(st: State)
    requires WF(st)
    ensures forall k :: Class(OrderedActorsList(st), OrderKeys(st), k) == Class(st.player + st.npcs, OrderKeys(st), k)
  {
    var r := StableSort(st.player + st.npcs, OrderKeys(st));
  }

  /** An actor whose order key is at least another's never compares after it. */
  lemma KeysFollowComparator(st: State, a: ActorId, b: ActorId)
    requires a < |st.actors| && b < |st.actors|
    requires KeyOf(OrderKeys(st), a) >= KeyOf(OrderKeys(st), b)
    ensures CompareIntended(st.actors[a].priority, st.actors[b].priority, a in st.actorQueue, b in st.actorQueue) <= 0
  {
  }
}
