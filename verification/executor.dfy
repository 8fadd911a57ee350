/**
 * DefaultCombatActionExecutor: the turn-based combat state machine.  Every
 * operation is a pure transition from one executor state to the next; an
 * operation that throws in the original program returns `Err`.
 *
 * What the model cannot see is passed in:
 *  - `hits`: the outcome of each target's hit roll, one per target, in order;
 *  - `effects`: the statuses a target has after an action's effects were
 *    applied to it;
 *  - `ai`: the move an automatic actor picks when asked, given the state.
 */
module Executor {
  import opened Basics
  import opened Tags
  import opened Actions
  import opened Statuses
  import opened Ordering
  import opened ExecutorState
  import opened StatusHooks

  type EffectsOracle = (Action, ActorId, Actor) -> seq<Status>
  type MoveOracle = (State, ActorId) -> Action

  // ---------------------------------------------------------------------------
  // The actor behaviour the executor relies on.

  /** Selecting a move makes it the selected action and queues it on the actor. */
  function SelectMove(a: Actor, move: Action): (r: Actor)
    ensures r.selected == Some(move) && r.queue == a.queue + [move]
    ensures r.statuses == a.statuses
  {
    a.(selected := Some(move), queue := a.queue + [move])
  }

  // ---------------------------------------------------------------------------
  // Adding an actor to the turn queue.

  /**
   * While the round is paused the actor is answering a parry: its selected
   * action goes to the front of the pending actions and it is an error to
   * have none.  Otherwise the actor joins the turn queue, which is re-sorted
   * stably by non-increasing priority.
   */
  function AddActorToQueue(st: State, id: ActorId): (r: Result<State, ExecError>)
    requires id < |st.actors|
    ensures st.status == RoundPaused ==>
      && (r.Ok? <==> st.actors[id].selected.Some?)
      && (r.Err? ==> r.error == NoSelectedAction(id))
      && (r.Ok? ==> r.value == st.(pending := [st.actors[id].selected.value] + st.pending))
    ensures st.status != RoundPaused ==>
      && r.Ok?
      && r.value == st.(actorQueue := r.value.actorQueue)
      && SortedDesc(r.value.actorQueue, Priorities(st.actors))
      && multiset(r.value.actorQueue) == multiset(st.actorQueue) + multiset{id}
      && forall k :: Class(r.value.actorQueue, Priorities(st.actors), k) ==
                     Class(st.actorQueue, Priorities(st.actors), k) + (if st.actors[id].priority == k then [id] else [])
  {
    if st.status == RoundPaused then
      match st.actors[id].selected
      case None => Err(NoSelectedAction(id))
      case Some(a) => Ok(st.(pending := [a] + st.pending))
    else
      var keys := Priorities(st.actors);
      var q := StableSort(st.actorQueue + [id], keys);
      assert forall k :: Class(q, keys, k) == Class(st.actorQueue, keys, k) + (if st.actors[id].priority == k then [id] else []) by {
        forall k ensures Class(q, keys, k) == Class(st.actorQueue, keys, k) + (if st.actors[id].priority == k then [id] else []) {
          ClassConcat(st.actorQueue, [id], keys, k);
          ClassSingleton(id, keys, k);
        }
      }
      Ok(st.(actorQueue := q))
  }

  // ---------------------------------------------------------------------------
  // Choosing the next action.

  /** The actor whose turn it is: the current one, or else the head of the turn queue. */
  function TurnActor(st: State): (id: ActorId)
    requires st.currentActor.Some? || |st.actorQueue| > 0
  {
    if st.currentActor.Some? then st.currentActor.value else st.actorQueue[0]
  }

  /** The actor whose turn it is, after its turn-start statuses ran if its turn is only beginning. */
  function BeginTurn(st: State): (a: Actor)
    requires WF(st)
    requires st.currentActor.Some? || |st.actorQueue| > 0
    ensures var prev := st.actors[TurnActor(st)];
      && a == prev.(statuses := a.statuses, queue := a.queue)
      && (st.currentActor.Some? ==> a == prev)
      && (st.currentActor.None? ==> (a.statuses, a.queue) == TurnStart(prev.statuses, prev.queue))
  {
    var a := st.actors[TurnActor(st)];
    if st.currentActor.Some? then a
    else
      var t := TurnStart(a.statuses, a.queue);
      a.(statuses := t.0, queue := t.1)
  }

  /**
   * The next action is the first pending one if there is any; otherwise the
   * next action of the actor whose turn it is.  When no actor is current, the
   * head of the turn queue becomes current and its turn-start statuses run.
   * The round is in progress once an action has been obtained.
   */
  function SetNextAction(st: State): (r: Result<State, ExecError>)
    requires WF(st)
    ensures r.Err? <==> |st.pending| == 0 && st.currentActor.None? && |st.actorQueue| == 0
    ensures r.Err? ==> r.error == EmptyActorQueue
    ensures r.Ok? ==> r.value.status == (if r.value.currentAction.Some? then RoundInProgress else st.status)
    ensures r.Ok? ==> r.value == st.(actors := r.value.actors, pending := r.value.pending, status := r.value.status,
                                     currentActor := r.value.currentActor, currentAction := r.value.currentAction)
    ensures r.Ok? && |st.pending| > 0 ==>
      r.value == st.(currentAction := Some(st.pending[0]), pending := st.pending[1..], status := RoundInProgress)
    ensures r.Ok? && |st.pending| == 0 ==>
      var id := TurnActor(st);
      var b := BeginTurn(st);
      && r.value.currentActor == Some(id)
      && r.value.pending == []
      && r.value.currentAction == (if |b.queue| > 0 then Some(b.queue[0]) else None)
      && r.value.actors == st.actors[id := b.(queue := if |b.queue| > 0 then b.queue[1..] else [])]
  {
    if |st.pending| > 0 then
      Ok(st.(currentAction := Some(st.pending[0]), pending := st.pending[1..], status := RoundInProgress))
    else if st.currentActor.None? && |st.actorQueue| == 0 then
      Err(EmptyActorQueue)
    else
      var id := TurnActor(st);
      var b := BeginTurn(st);
      if |b.queue| == 0 then
        Ok(st.(currentActor := Some(id), actors := st.actors[id := b], currentAction := None))
      else
        Ok(st.(currentActor := Some(id), actors := st.actors[id := b.(queue := b.queue[1..])],
               currentAction := Some(b.queue[0]), status := RoundInProgress))
  }

  // ---------------------------------------------------------------------------
  // Parrying and hit resolution.

  /**
   * A target can parry the current action when it has selected an action
   * tagged PARRY, is not waiting for its turn in the queue, and the current
   * action neither targets its own user nor comes from a status.
   */
  predicate CanTargetParry(st: State, t: ActorId): (r: bool)
    requires st.currentAction.Some? && t < |st.actors|
    ensures r ==> st.actors[t].selected.Some? && ParryTag in st.actors[t].selected.value.tags
    ensures r ==> t !in st.actorQueue
    ensures st.currentAction.value.targetType == SelfTarget || st.currentAction.value.category == StatusCategory ==> !r
  {
    var sel := st.actors[t].selected;
    var act := st.currentAction.value;
    && sel.Some?
    && act.targetType != SelfTarget
    && act.category != StatusCategory
    && ParryTag in sel.value.tags
    && t !in st.actorQueue
  }

  /** One result per target, in target order: hit if the roll hits, else parried if possible, else missed. */
  function Classify(st: State, targets: seq<ActorId>, hits: seq<bool>): (rs: seq<TargetResult>)
    requires st.currentAction.Some? && |hits| == |targets|
    requires forall i :: 0 <= i < |targets| ==> targets[i] < |st.actors|
    ensures |rs| == |targets|
    ensures forall i :: 0 <= i < |targets| ==>
      rs[i] == TargetResult(targets[i], if hits[i] then Hit else if CanTargetParry(st, targets[i]) then Parried else Missed)
  {
    if |targets| == 0 then []
    else
      var o := if hits[0] then Hit else if CanTargetParry(st, targets[0]) then Parried else Missed;
      [TargetResult(targets[0], o)] + Classify(st, targets[1..], hits[1..])
  }

  /**
   * Evaluates the current action against each of its targets and records
   * the result; with no current action the recorded result is empty.
   */
  function EvaluateCurrentAction(st: State, hits: seq<bool>): (r: (State, Option<seq<TargetResult>>))
    requires WF(st)
    requires st.currentAction.Some? ==> |hits| == |st.currentAction.value.targets|
    ensures r.0 == st.(currentResult := r.1)
    ensures r.1.None? <==> st.currentAction.None?
    ensures r.1.Some? ==>
      var targets := st.currentAction.value.targets;
      && |r.1.value| == |targets|
      && forall i :: 0 <= i < |targets| ==>
           r.1.value[i] == TargetResult(targets[i], if hits[i] then Hit else if CanTargetParry(st, targets[i]) then Parried else Missed)
  {
    match st.currentAction
    case None => (st.(currentResult := None), None)
    case Some(act) =>
      var rs := Classify(st, act.targets, hits);
      (st.(currentResult := Some(rs)), Some(rs))
  }

  // ---------------------------------------------------------------------------
  // Executing the current action.

  /** Whether `t` is one of the targets hit. */
  ghost predicate HitTarget(rs: seq<TargetResult>, t: ActorId) {
    exists j :: 0 <= j < |rs| && rs[j] == TargetResult(t, Hit)
  }

  /**
   * One hit target: the action's effects are applied to it; if it could
   * have parried, its selected action is withdrawn; then its newly applied
   * statuses are updated and their actions become pending.
   */
  function ApplyHit(st: State, action: Action, t: ActorId, effects: EffectsOracle): (r: State)
    requires st.currentAction.Some? && t < |st.actors|
    ensures r == st.(actors := r.actors, pending := r.pending)
    ensures |r.actors| == |st.actors|
    ensures forall i :: 0 <= i < |st.actors| && i != t ==> r.actors[i] == st.actors[i]
    ensures r.actors[t].selected == (if CanTargetParry(st, t) then None else st.actors[t].selected)
    ensures r.actors[t] == st.actors[t].(selected := r.actors[t].selected, statuses := r.actors[t].statuses)
    ensures r.actors[t].statuses == UpdateNewlyApplied(effects(action, t, st.actors[t]), st.pending).0
    ensures r.pending == st.pending + FreshActions(effects(action, t, st.actors[t]))
  {
    var a := st.actors[t];
    var affected := a.(statuses := effects(action, t, a));
    var s1 := st.(actors := st.actors[t := affected]);
    assert CanTargetParry(s1, t) == CanTargetParry(st, t);
    var a2 := if CanTargetParry(s1, t) then affected.(selected := None) else affected;
    var upd := UpdateNewlyApplied(a2.statuses, st.pending);
    s1.(actors := s1.actors[t := a2.(statuses := upd.0)], pending := upd.1)
  }

  /** Applies every hit in result order; misses and parries leave their targets alone. */
  function ApplyHits(st: State, action: Action, rs: seq<TargetResult>, effects: EffectsOracle): (r: State)
    requires st.currentAction.Some?
    requires forall i :: 0 <= i < |rs| ==> rs[i].target < |st.actors|
    ensures r == st.(actors := r.actors, pending := r.pending)
    ensures |r.actors| == |st.actors|
    ensures st.pending <= r.pending
    ensures SameCast(st.actors, r.actors)
    ensures forall i :: 0 <= i < |st.actors| ==> r.actors[i].queue == st.actors[i].queue
    ensures forall i :: 0 <= i < |st.actors| && !HitTarget(rs, i) ==> r.actors[i] == st.actors[i]
    ensures forall i :: 0 <= i < |st.actors| ==>
      r.actors[i].selected == (if HitTarget(rs, i) && CanTargetParry(st, i) then None else st.actors[i].selected)
    decreases |rs|
  {
    if |rs| == 0 then st
    else
      var s1 := ApplyResult(st, action, rs[0], effects);
      var r := ApplyHits(s1, action, rs[1..], effects);
      ApplyHitsFrame(st, s1, r);
      forall i | 0 <= i < |st.actors|
        ensures !HitTarget(rs, i) ==> r.actors[i] == st.actors[i]
        ensures r.actors[i].selected == (if HitTarget(rs, i) && CanTargetParry(st, i) then None else st.actors[i].selected)
      {
        ApplyHitsStep(st, s1, r, rs, i);
      }
      r
  }

  /** One target result: a hit is applied, a miss or a parry changes nothing. */
  function ApplyResult(st: State, action: Action, res: TargetResult, effects: EffectsOracle): (s1: State)
    requires st.currentAction.Some? && res.target < |st.actors|
    ensures s1 == st.(actors := s1.actors, pending := s1.pending) && |s1.actors| == |st.actors|
    ensures st.pending <= s1.pending && SameCast(st.actors, s1.actors)
    ensures forall i :: 0 <= i < |st.actors| ==> s1.actors[i].queue == st.actors[i].queue
    ensures res.outcome != Hit ==> s1 == st
    ensures res.outcome == Hit ==>
      && (forall j :: 0 <= j < |st.actors| && j != res.target ==> s1.actors[j] == st.actors[j])
      && s1.actors[res.target].selected ==
           (if CanTargetParry(st, res.target) then None else st.actors[res.target].selected)
  {
    if res.outcome == Hit then ApplyHit(st, action, res.target, effects) else st
  }

  /** Two steps that each touch only actors' selections and statuses and extend the pending queue touch only those. */
  lemma ApplyHitsFrame(st: State, s1: State, r: State)
    requires s1 == st.(actors := s1.actors, pending := s1.pending) && |s1.actors| == |st.actors|
    requires st.pending <= s1.pending && SameCast(st.actors, s1.actors)
    requires forall i :: 0 <= i < |st.actors| ==> s1.actors[i].queue == st.actors[i].queue
    requires r == s1.(actors := r.actors, pending := r.pending) && |r.actors| == |s1.actors|
    requires s1.pending <= r.pending && SameCast(s1.actors, r.actors)
    requires forall i :: 0 <= i < |s1.actors| ==> r.actors[i].queue == s1.actors[i].queue
    ensures r == st.(actors := r.actors, pending := r.pending) && |r.actors| == |st.actors|
    ensures st.pending <= r.pending && SameCast(st.actors, r.actors)
    ensures forall i :: 0 <= i < |st.actors| ==> r.actors[i].queue == st.actors[i].queue
  {
  }

  /** What the first result and then the rest of them do to one actor. */
  lemma ApplyHitsStep(st: State, s1: State, r: State, rs: seq<TargetResult>, i: ActorId)
    requires |rs| > 0 && st.currentAction.Some? && i < |st.actors| && rs[0].target < |st.actors|
    requires s1 == st.(actors := s1.actors, pending := s1.pending) && |s1.actors| == |st.actors|
    requires rs[0].outcome != Hit ==> s1 == st
    requires rs[0].outcome == Hit ==>
      && (forall j :: 0 <= j < |st.actors| && j != rs[0].target ==> s1.actors[j] == st.actors[j])
      && s1.actors[rs[0].target].selected ==
           (if CanTargetParry(st, rs[0].target) then None else st.actors[rs[0].target].selected)
    requires |r.actors| == |st.actors|
    requires !HitTarget(rs[1..], i) ==> r.actors[i] == s1.actors[i]
    requires r.actors[i].selected == (if HitTarget(rs[1..], i) && CanTargetParry(s1, i) then None else s1.actors[i].selected)
    ensures !HitTarget(rs, i) ==> r.actors[i] == st.actors[i]
    ensures r.actors[i].selected == (if HitTarget(rs, i) && CanTargetParry(st, i) then None else st.actors[i].selected)
  {
    HitTargetCons(rs, i);
    ParryAfterWithdraw(st, s1, i);
  }

  lemma HitTargetCons(rs: seq<TargetResult>, i: ActorId)
    requires |rs| > 0
    ensures HitTarget(rs, i) <==> rs[0] == TargetResult(i, Hit) || HitTarget(rs[1..], i)
  {
    if HitTarget(rs, i) && rs[0] != TargetResult(i, Hit) {
      var j :| 0 <= j < |rs| && rs[j] == TargetResult(i, Hit);
      assert rs[1..][j - 1] == rs[j];
    }
    if HitTarget(rs[1..], i) {
      var j :| 0 <= j < |rs[1..]| && rs[1..][j] == TargetResult(i, Hit);
      assert rs[j + 1] == rs[1..][j];
    }
  }

  /** Withdrawing selections changes who can parry only by removing them. */
  lemma ParryAfterWithdraw(st: State, s1: State, i: ActorId)
    requires st.currentAction.Some? && i < |st.actors|
    requires s1 == st.(actors := s1.actors, pending := s1.pending) && |s1.actors| == |st.actors|
    requires s1.actors[i].selected == st.actors[i].selected || s1.actors[i].selected.None?
    ensures CanTargetParry(s1, i) <==> CanTargetParry(st, i) && s1.actors[i].selected.Some?
  {
  }

  /** The first target that parried, if any. */
  function FirstParried(rs: seq<TargetResult>): (r: Option<ActorId>)
    ensures r.None? <==> forall i :: 0 <= i < |rs| ==> rs[i].outcome != Parried
    ensures r.Some? ==> exists i :: 0 <= i < |rs| && rs[i] == TargetResult(r.value, Parried) &&
                                   forall j :: 0 <= j < i ==> rs[j].outcome != Parried
  {
    if |rs| == 0 then None
    else if rs[0].outcome == Parried then Some(rs[0].target)
    else
      var r := FirstParried(rs[1..]);
      assert forall i :: 1 <= i < |rs| ==> rs[i] == rs[1..][i - 1];
      if r.Some? then
        var i :| 0 <= i < |rs[1..]| && rs[1..][i] == TargetResult(r.value, Parried) &&
                 forall j :: 0 <= j < i ==> rs[1..][j].outcome != Parried;
        assert rs[i + 1] == TargetResult(r.value, Parried);
        r
      else r
  }

  /**
   * An automatic actor picks its next move and joins the queue.  Only
   * automatic actors can be asked; anyone else is an error.
   */
  function SetNextAIMove(st: State, id: ActorId, ai: MoveOracle): (r: Result<State, ExecError>)
    requires id < |st.actors|
    ensures r.Err? <==> !st.actors[id].automatic
    ensures r.Err? ==> r.error == NotAutomatic(id)
    ensures r.Ok? ==>
      var move := ai(st, id);
      && |r.value.actors| == |st.actors|
      && SameCast(st.actors, r.value.actors)
      && r.value.actors[id] == SelectMove(st.actors[id], move)
      && (forall i :: 0 <= i < |st.actors| && i != id ==> r.value.actors[i] == st.actors[i])
      && r.value.status == st.status && r.value.round == st.round
      && r.value.currentActor == st.currentActor && r.value.currentAction == st.currentAction
      && r.value.currentResult == st.currentResult
      && (st.status == RoundPaused ==> r.value.pending == [move] + st.pending && r.value.actorQueue == st.actorQueue)
      && (st.status != RoundPaused ==>
            && r.value.pending == st.pending
            && SortedDesc(r.value.actorQueue, Priorities(st.actors))
            && multiset(r.value.actorQueue) == multiset(st.actorQueue) + multiset{id})
  {
    if !st.actors[id].automatic then Err(NotAutomatic(id))
    else
      var s1 := WithMove(st, id, ai(st, id));
      assert Priorities(s1.actors) == Priorities(st.actors);
      AddActorToQueue(s1, id)
  }

  /** The state in which actor `id` has picked `move`. */
  function WithMove(st: State, id: ActorId, move: Action): State
    requires id < |st.actors|
  {
    st.(actors := st.actors[id := SelectMove(st.actors[id], move)])
  }

  /**
   * Applies the current action to every target it hit.  Then the first
   * target that parried, if any, answers: an NPC picks its reply at once and
   * rejoins the queue, anyone else pauses the round until its reply is
   * supplied.  Without a current action and its result nothing happens.
   */
  function ExecuteCurrentAction(st: State, effects: EffectsOracle, ai: MoveOracle): (r: Result<State, ExecError>)
    requires WF(st)
    ensures st.currentAction.None? || st.currentResult.None? ==> r == Ok(st)
    ensures st.currentAction.Some? && st.currentResult.Some? ==>
      var rs := st.currentResult.value;
      var h := ApplyHits(st, st.currentAction.value, rs, effects);
      var p := FirstParried(rs);
      && (p.None? ==> r == Ok(h))
      && (p.Some? && p.value !in st.npcs ==> r == Ok(h.(status := RoundPaused)))
      && (p.Some? && p.value in st.npcs ==> r == SetNextAIMove(h, p.value, ai))
  {
    if st.currentAction.None? || st.currentResult.None? then Ok(st)
    else
      var rs := st.currentResult.value;
      var h := ApplyHits(st, st.currentAction.value, rs, effects);
      match FirstParried(rs)
      case None => Ok(h)
      case Some(p) =>
        assert exists i :: 0 <= i < |rs| && rs[i].target == p;
        if p in st.npcs then SetNextAIMove(h, p, ai)
        else Ok(h.(status := RoundPaused))
  }

  // ---------------------------------------------------------------------------
  // End of a turn and of a round.

  /**
   * Once the current actor has run out of actions its expired statuses are
   * processed; if that queued nothing, its turn is over: it leaves the turn
   * queue and no actor is current.
   */
  function EndTurn(st: State): (r: State)
    requires WF(st)
    ensures st.currentActor.None? || |st.actors[st.currentActor.value].queue| > 0 ==> r == st
    ensures st.currentActor.Some? && |st.actors[st.currentActor.value].queue| == 0 ==>
      var id := st.currentActor.value;
      var e := ExpireStatuses(st.actors[id].statuses, []);
      && r.actors == st.actors[id := st.actors[id].(statuses := e.0, queue := e.1)]
      && (|e.1| == 0 ==> r.actorQueue == RemoveFirst(st.actorQueue, id) && r.currentActor.None?)
      && (|e.1| > 0 ==> r.actorQueue == st.actorQueue && r.currentActor == st.currentActor)
      && r == st.(actors := r.actors, actorQueue := r.actorQueue, currentActor := r.currentActor)
  {
    if st.currentActor.None? || |st.actors[st.currentActor.value].queue| > 0 then st
    else
      var id := st.currentActor.value;
      var a := st.actors[id];
      var e := ExpireStatuses(a.statuses, a.queue);
      var s1 := st.(actors := st.actors[id := a.(statuses := e.0, queue := e.1)]);
      if |e.1| == 0 then s1.(actorQueue := RemoveFirst(st.actorQueue, id), currentActor := None)
      else s1
  }

  /** A party member at round end: no selected action, no status marked as updated. */
  function ResetForRound(a: Actor): (r: Actor)
    ensures r.selected.None?
    ensures |r.statuses| == |a.statuses|
    ensures forall j :: 0 <= j < |a.statuses| ==> r.statuses[j] == a.statuses[j].(updated := false)
    ensures r == a.(selected := None, statuses := r.statuses)
  {
    a.(selected := None, statuses := seq(|a.statuses|, j requires 0 <= j < |a.statuses| => a.statuses[j].(updated := false)))
  }

  /** Every member of either party is reset for the next round; other actors are left alone. */
  function ResetParties(st: State): (r: seq<Actor>)
    ensures |r| == |st.actors|
    ensures forall i :: 0 <= i < |st.actors| ==>
      r[i] == (if i in st.player || i in st.npcs then ResetForRound(st.actors[i]) else st.actors[i])
  {
    seq(|st.actors|, i requires 0 <= i < |st.actors| =>
      if i in st.player || i in st.npcs then ResetForRound(st.actors[i]) else st.actors[i])
  }

  /** Whether the round is over: nothing left to run while the round was in progress. */
  predicate RoundOver(st: State) {
    |st.actorQueue| == 0 && |st.pending| == 0 && st.status == RoundInProgress
  }

  /**
   * Ends the current actor's turn if it has run out of actions; then, unless
   * the round is paused, ends the round once both queues are drained.
   */
  function UpdateExecutionStatus(st: State): (r: State)
    requires WF(st)
    ensures var t := EndTurn(st);
      && (st.status == RoundPaused || !RoundOver(t) ==> r == t)
      && (st.status != RoundPaused && RoundOver(t) ==> r == t.(status := RoundEnded, actors := ResetParties(t)))
  {
    var t := EndTurn(st);
    if st.status == RoundPaused then t
    else if RoundOver(t) then t.(status := RoundEnded, actors := ResetParties(t))
    else t
  }

  // ---------------------------------------------------------------------------
  // Rounds.

  /** Whether every party member has joined the turn queue (by count), or the round is paused. */
  predicate IsRoundReady(st: State): (r: bool)
    ensures st.status == RoundPaused ==> r
    ensures st.status != RoundPaused && |st.actorQueue| < |st.player| + |st.npcs| ==> !r
  {
    |st.actorQueue| >= |st.player| + |st.npcs| || st.status == RoundPaused
  }

  /** Asks each of the given NPCs, in order, for its next move; stops at the first that is not automatic. */
  function SetNextAIMoves(st: State, ids: seq<ActorId>, ai: MoveOracle): (r: Result<State, ExecError>)
    requires forall i :: 0 <= i < |ids| ==> ids[i] < |st.actors|
    ensures r.Err? <==> exists i :: 0 <= i < |ids| && !st.actors[ids[i]].automatic
    ensures r.Err? ==> exists i :: 0 <= i < |ids| && r.error == NotAutomatic(ids[i]) &&
                         !st.actors[ids[i]].automatic && forall j :: 0 <= j < i ==> st.actors[ids[j]].automatic
    ensures r.Ok? ==>
      && SameCast(st.actors, r.value.actors)
      && r.value == st.(actors := r.value.actors, actorQueue := r.value.actorQueue, pending := r.value.pending)
      && (forall i :: 0 <= i < |ids| ==> r.value.actors[ids[i]].selected.Some?)
      && (forall i :: 0 <= i < |st.actors| && i !in ids ==> r.value.actors[i] == st.actors[i])
    decreases |ids|
  {
    if |ids| == 0 then Ok(st)
    else if !st.actors[ids[0]].automatic then
      Err(NotAutomatic(ids[0]))
    else
      var s1 := AIMoveFacts(st, ids[0], ai);
      assert forall i :: 0 <= i < |ids[1..]| ==> ids[1..][i] < |s1.actors|;
      var r := SetNextAIMoves(s1, ids[1..], ai);
      NonAutomaticCons(st, s1, ids);
      if r.Err? then
        NotAutomaticCons(st, s1, ids, r.error);
        r
      else
        AIMovesStep(st, s1, ids, r.value);
        r
  }

  /** What one automatic NPC's move changes, in the terms `SetNextAIMoves` states. */
  function AIMoveFacts(st: State, id: ActorId, ai: MoveOracle): (s1: State)
    requires id < |st.actors| && st.actors[id].automatic
    ensures SetNextAIMove(st, id, ai) == Ok(s1)
    ensures SameCast(st.actors, s1.actors)
    ensures s1 == st.(actors := s1.actors, actorQueue := s1.actorQueue, pending := s1.pending)
    ensures s1.actors[id].selected.Some?
    ensures forall i :: 0 <= i < |st.actors| && i != id ==> s1.actors[i] == st.actors[i]
  {
    SetNextAIMove(st, id, ai).value
  }

  /** The first non-automatic NPC after an automatic head is the first one of the whole list. */
  lemma NotAutomaticCons(st: State, s1: State, ids: seq<ActorId>, e: ExecError)
    requires |ids| > 0 && forall i :: 0 <= i < |ids| ==> ids[i] < |st.actors|
    requires SameCast(st.actors, s1.actors) && st.actors[ids[0]].automatic
    requires exists i :: 0 <= i < |ids[1..]| && e == NotAutomatic(ids[1..][i]) &&
               !s1.actors[ids[1..][i]].automatic && forall j :: 0 <= j < i ==> s1.actors[ids[1..][j]].automatic
    ensures exists i :: 0 <= i < |ids| && e == NotAutomatic(ids[i]) &&
              !st.actors[ids[i]].automatic && forall j :: 0 <= j < i ==> st.actors[ids[j]].automatic
  {
    var i :| 0 <= i < |ids[1..]| && e == NotAutomatic(ids[1..][i]) &&
             !s1.actors[ids[1..][i]].automatic && forall j :: 0 <= j < i ==> s1.actors[ids[1..][j]].automatic;
    assert ids[i + 1] == ids[1..][i];
    forall j | 0 <= j < i + 1 ensures st.actors[ids[j]].automatic {
      if j > 0 {
        assert ids[j] == ids[1..][j - 1];
      }
    }
  }

  /** One NPC's move followed by the rest's moves is the moves of all of them. */
  lemma AIMovesStep(st: State, s1: State, ids: seq<ActorId>, r: State)
    requires |ids| > 0 && forall i :: 0 <= i < |ids| ==> ids[i] < |st.actors|
    requires SameCast(st.actors, s1.actors)
    requires s1 == st.(actors := s1.actors, actorQueue := s1.actorQueue, pending := s1.pending)
    requires s1.actors[ids[0]].selected.Some?
    requires forall i :: 0 <= i < |st.actors| && i != ids[0] ==> s1.actors[i] == st.actors[i]
    requires SameCast(s1.actors, r.actors)
    requires r == s1.(actors := r.actors, actorQueue := r.actorQueue, pending := r.pending)
    requires forall i :: 0 <= i < |ids[1..]| ==> r.actors[ids[1..][i]].selected.Some?
    requires forall i :: 0 <= i < |s1.actors| && i !in ids[1..] ==> r.actors[i] == s1.actors[i]
    ensures SameCast(st.actors, r.actors)
    ensures r == st.(actors := r.actors, actorQueue := r.actorQueue, pending := r.pending)
    ensures forall i :: 0 <= i < |ids| ==> r.actors[ids[i]].selected.Some?
    ensures forall i :: 0 <= i < |st.actors| && i !in ids ==> r.actors[i] == st.actors[i]
  {
    SelectedAllCons(s1, r, ids);
    assert forall x :: x in ids[1..] ==> x in ids;
  }

  lemma SelectedAllCons(s1: State, r: State, ids: seq<ActorId>)
    requires |ids| > 0 && |r.actors| == |s1.actors|
    requires forall i :: 0 <= i < |ids| ==> ids[i] < |s1.actors|
    requires s1.actors[ids[0]].selected.Some?
    requires forall i :: 0 <= i < |ids[1..]| ==> r.actors[ids[1..][i]].selected.Some?
    requires forall i :: 0 <= i < |s1.actors| && i !in ids[1..] ==> r.actors[i] == s1.actors[i]
    ensures forall i :: 0 <= i < |ids| ==> r.actors[ids[i]].selected.Some?
  {
    forall i | 0 <= i < |ids| ensures r.actors[ids[i]].selected.Some? {
      if i > 0 {
        assert ids[i] == ids[1..][i - 1];
      } else if ids[0] in ids[1..] {
        var j :| 0 <= j < |ids[1..]| && ids[1..][j] == ids[0];
      }
    }
  }

  lemma NonAutomaticCons(st: State, s1: State, ids: seq<ActorId>)
    requires |ids| > 0 && forall i :: 0 <= i < |ids| ==> ids[i] < |st.actors|
    requires SameCast(st.actors, s1.actors) && st.actors[ids[0]].automatic
    ensures (exists i :: 0 <= i < |ids| && !st.actors[ids[i]].automatic) <==>
            (exists i :: 0 <= i < |ids[1..]| && !s1.actors[ids[1..][i]].automatic)
  {
    if exists i :: 0 <= i < |ids| && !st.actors[ids[i]].automatic {
      var i :| 0 <= i < |ids| && !st.actors[ids[i]].automatic;
      assert ids[1..][i - 1] == ids[i];
    }
    if exists i :: 0 <= i < |ids[1..]| && !s1.actors[ids[1..][i]].automatic {
      var i :| 0 <= i < |ids[1..]| && !s1.actors[ids[1..][i]].automatic;
      assert ids[i + 1] == ids[1..][i];
    }
  }

  /** The next round: the round number goes up and every NPC picks its move. */
  function PrepareNextRound(st: State, ai: MoveOracle): (r: Result<State, ExecError>)
    requires ValidIds(st.npcs, |st.actors|)
    ensures r.Err? <==> exists i :: 0 <= i < |st.npcs| && !st.actors[st.npcs[i]].automatic
    ensures r.Ok? ==> r.value.round == st.round + 1 && r.value.status == st.status
    ensures r.Ok? ==> |r.value.actors| == |st.actors|
    ensures r.Ok? ==> forall i :: 0 <= i < |st.npcs| ==> r.value.actors[st.npcs[i]].selected.Some?
  {
    SetNextAIMoves(NextRound(st), st.npcs, ai)
  }

  /** The same state one round later. */
  function NextRound(st: State): State
  {
    st.(round := st.round + 1)
  }

  /** Marks every party member as in combat. */
  function EnterCombat(st: State): (r: seq<Actor>)
    ensures |r| == |st.actors|
    ensures forall i :: 0 <= i < |st.actors| ==>
      r[i] == (if i in st.player || i in st.npcs then st.actors[i].(inCombat := true) else st.actors[i])
  {
    seq(|st.actors|, i requires 0 <= i < |st.actors| =>
      if i in st.player || i in st.npcs then st.actors[i].(inCombat := true) else st.actors[i])
  }

  /** Starts the combat: status STARTED, every party member in combat, then the first round. */
  function StartExecutor(st: State, ai: MoveOracle): (r: Result<State, ExecError>)
    requires ValidIds(st.npcs, |st.actors|)
    ensures r.Err? <==> exists i :: 0 <= i < |st.npcs| && !st.actors[st.npcs[i]].automatic
    ensures r.Ok? ==> r.value.status == Started && r.value.round == st.round + 1
    ensures r.Ok? ==> |r.value.actors| == |st.actors|
    ensures r.Ok? ==> forall i :: 0 <= i < |st.npcs| ==> r.value.actors[st.npcs[i]].selected.Some?
  {
    var s1 := CombatStarted(st);
    CombatStartedKeepsCast(st);
    PrepareNextRound(s1, ai)
  }

  /** The state of a started combat, before its first round is prepared. */
  function CombatStarted(st: State): State
  {
    st.(status := Started, actors := EnterCombat(st))
  }

  /** Starting the combat keeps the round, the parties and which actors are automatic. */
  lemma CombatStartedKeepsCast(st: State)
    ensures var s1 := CombatStarted(st);
            && s1.status == Started && s1.round == st.round && s1.npcs == st.npcs
            && |s1.actors| == |st.actors|
            && forall i :: 0 <= i < |st.actors| ==> s1.actors[i].automatic == st.actors[i].automatic
  {
  }

  // ---------------------------------------------------------------------------
  // The displayed turn order.

  /** Sort keys of the displayed order: priority first, then "already queued". */
  function OrderKeys(st: State): (keys: seq<int>)
    ensures |keys| == |st.actors|
    ensures forall i :: 0 <= i < |st.actors| ==> keys[i] == OrderKey(st.actors[i].priority, i in st.actorQueue)
  {
    seq(|st.actors|, i requires 0 <= i < |st.actors| => OrderKey(st.actors[i].priority, i in st.actorQueue))
  }

  /**
   * All party members sorted stably by the executor's comparator: higher
   * priority first, and at equal priority an actor already queued first.
   */
  function OrderedActorsList(st: State): (r: seq<ActorId>)
    ensures multiset(r) == multiset(st.player + st.npcs)
    ensures SortedDesc(r, OrderKeys(st))
  {
    StableSort(st.player + st.npcs, OrderKeys(st))
  }
}
