/**
 * What the executor maintains from one operation to the next: every stored
 * actor index names an actor, the turn queue stays sorted by non-increasing
 * priority, and the current actor stays in the turn queue until its turn
 * ends.
 */
module ExecutorInvariant {
  import opened Basics
  import opened Actions
  import opened Statuses
  import opened Ordering
  import opened ExecutorState
  import opened StatusHooks
  import opened Executor

  /** The effects of a valid action, applied to a valid actor, leave valid statuses. */
  ghost predicate EffectsValid(effects: EffectsOracle, n: nat) {
    forall a: Action, t: ActorId, x: Actor :: ValidAction(a, n) && ValidStatuses(x.statuses, n) ==> ValidStatuses(effects(a, t, x), n)
  }

  /** A move picked in an arena of `n` actors names only actors of that arena. */
  ghost predicate MovesValid(ai: MoveOracle, n: nat) {
    forall s: State, id: ActorId :: |s.actors| == n ==> ValidAction(ai(s, id), n)
  }

  /** A state that differs only in actors of the same cast keeps the sorted queue. */
  lemma RecastKeepsSorted(st: State, s1: State)
    requires QueueSorted(st) && SameCast(st.actors, s1.actors) && s1.actorQueue == st.actorQueue
    ensures QueueSorted(s1)
  {
    SameCastPriorities(st.actors, s1.actors);
  }

  // ---------------------------------------------------------------------------

  lemma AddActorKeepsInv(st: State, id: ActorId)
    requires Inv(st) && id < |st.actors|
    ensures AddActorToQueue(st, id).Ok? ==> Inv(AddActorToQueue(st, id).value)
  {
    var r := AddActorToQueue(st, id);
    if r.Ok? && st.status != RoundPaused {
      var q := r.value.actorQueue;
      forall i | 0 <= i < |q| ensures q[i] < |st.actors| {
        assert q[i] in multiset(q);
        assert q[i] in multiset(st.actorQueue) || q[i] == id;
      }
      if st.currentActor.Some? {
        assert st.currentActor.value in multiset(st.actorQueue);
        assert st.currentActor.value in multiset(q);
      }
    }
  }

  lemma SetNextActionKeepsInv(st: State)
    requires Inv(st)
    ensures SetNextAction(st).Ok? ==> Inv(SetNextAction(st).value)
  {
    var r := SetNextAction(st);
    if r.Ok? && |st.pending| == 0 {
      var n := |st.actors|;
      var id := TurnActor(st);
      var b := BeginTurn(st);
      BeginTurnValid(st);
      var a := b.(queue := if |b.queue| > 0 then b.queue[1..] else []);
      assert ValidActor(a, n);
      var s1 := st.(actors := st.actors[id := a]);
      WithActorWF(st, id, a);
      assert r.value == s1.(currentActor := Some(id), pending := [], currentAction := r.value.currentAction, status := r.value.status);
      assert r.value.currentAction.Some? ==> r.value.currentAction.value == b.queue[0];
      assert WF(r.value);
      assert SameCast(st.actors, r.value.actors);
      RecastKeepsSorted(st, r.value);
    }
  }

  /** The actor whose turn begins is still a valid actor of the same cast. */
  lemma BeginTurnValid(st: State)
    requires WF(st) && (st.currentActor.Some? || |st.actorQueue| > 0)
    ensures TurnActor(st) < |st.actors|
    ensures ValidActor(BeginTurn(st), |st.actors|)
  {
    var prev := st.actors[TurnActor(st)];
    if st.currentActor.None? {
      TurnStartValid(prev.statuses, prev.queue, |st.actors|);
    }
  }

  lemma EvaluateKeepsInv(st: State, hits: seq<bool>)
    requires Inv(st)
    requires st.currentAction.Some? ==> |hits| == |st.currentAction.value.targets|
    ensures Inv(EvaluateCurrentAction(st, hits).0)
  {
  }

  /** Applying one hit keeps the arena valid. */
  lemma ApplyHitWF(st: State, action: Action, t: ActorId, effects: EffectsOracle)
    requires WF(st) && st.currentAction.Some? && t < |st.actors|
    requires ValidAction(action, |st.actors|) && EffectsValid(effects, |st.actors|)
    ensures WF(ApplyHit(st, action, t, effects))
  {
    var n := |st.actors|;
    var ss := effects(action, t, st.actors[t]);
    assert ValidStatuses(ss, n);
    NewlyAppliedValid(ss, st.pending, n);
    var r := ApplyHit(st, action, t, effects);
    assert ValidActor(r.actors[t], n);
    assert r.actors == st.actors[t := r.actors[t]];
  }

  lemma {:induction false} ApplyHitsWF(st: State, action: Action, rs: seq<TargetResult>, effects: EffectsOracle)
    requires WF(st) && st.currentAction.Some?
    requires forall i :: 0 <= i < |rs| ==> rs[i].target < |st.actors|
    requires ValidAction(action, |st.actors|) && EffectsValid(effects, |st.actors|)
    ensures WF(ApplyHits(st, action, rs, effects))
    decreases |rs|
  {
    if |rs| > 0 {
      var s1 := ApplyResult(st, action, rs[0], effects);
      if rs[0].outcome == Hit {
        ApplyHitWF(st, action, rs[0].target, effects);
      }
      assert forall i :: 0 <= i < |rs[1..]| ==> rs[1..][i].target < |s1.actors|;
      ApplyHitsWF(s1, action, rs[1..], effects);
    }
  }

  lemma SetNextAIMoveKeepsInv(st: State, id: ActorId, ai: MoveOracle)
    requires Inv(st) && id < |st.actors| && MovesValid(ai, |st.actors|)
    ensures SetNextAIMove(st, id, ai).Ok? ==> Inv(SetNextAIMove(st, id, ai).value)
  {
    if st.actors[id].automatic {
      var n := |st.actors|;
      var move := ai(st, id);
      var s1 := WithMove(st, id, move);
      assert ValidAction(move, n);
      WithActorWF(st, id, SelectMove(st.actors[id], move));
      RecastKeepsSorted(st, s1);
      AddActorKeepsInv(s1, id);
    }
  }

  lemma ExecuteKeepsInv(st: State, effects: EffectsOracle, ai: MoveOracle)
    requires Inv(st) && EffectsValid(effects, |st.actors|) && MovesValid(ai, |st.actors|)
    ensures ExecuteCurrentAction(st, effects, ai).Ok? ==> Inv(ExecuteCurrentAction(st, effects, ai).value)
  {
    if st.currentAction.Some? && st.currentResult.Some? {
      var rs := st.currentResult.value;
      var h := ApplyHits(st, st.currentAction.value, rs, effects);
      ApplyHitsWF(st, st.currentAction.value, rs, effects);
      RecastKeepsSorted(st, h);
      var p := FirstParried(rs);
      if p.Some? && p.value in st.npcs {
        SetNextAIMoveKeepsInv(h, p.value, ai);
      }
    }
  }

  lemma EndTurnKeepsInv(st: State)
    requires Inv(st)
    ensures Inv(EndTurn(st))
  {
    if st.currentActor.Some? && |st.actors[st.currentActor.value].queue| == 0 {
      var n := |st.actors|;
      var id := st.currentActor.value;
      var a := st.actors[id];
      var e := ExpireStatuses(a.statuses, []);
      ExpireValid(a.statuses, [], n);
      WithActorWF(st, id, a.(statuses := e.0, queue := e.1));
      var r := EndTurn(st);
      SameCastPriorities(st.actors, r.actors);
      if |e.1| == 0 {
        RemoveFirstKeepsSorted(st.actorQueue, Priorities(st.actors), id);
        forall i | 0 <= i < |r.actorQueue| ensures r.actorQueue[i] < n {
          assert r.actorQueue[i] in r.actorQueue;
        }
      }
    }
  }

  lemma UpdateExecutionStatusKeepsInv(st: State)
    requires Inv(st)
    ensures Inv(UpdateExecutionStatus(st))
  {
    var t := EndTurn(st);
    EndTurnKeepsInv(st);
    if st.status != RoundPaused && RoundOver(t) {
      var r := UpdateExecutionStatus(st);
      forall i | 0 <= i < |t.actors| ensures ValidActor(r.actors[i], |t.actors|) {
        var a := t.actors[i];
        assert ValidActor(a, |t.actors|);
        if i in t.player || i in t.npcs {
          forall j | 0 <= j < |a.statuses| ensures ValidStatus(r.actors[i].statuses[j], |t.actors|) {
            assert ValidStatus(a.statuses[j], |t.actors|);
          }
        }
      }
      RecastKeepsSorted(t, r);
    }
  }

  lemma {:induction false} SetNextAIMovesKeepsInv(st: State, ids: seq<ActorId>, ai: MoveOracle)
    requires Inv(st) && MovesValid(ai, |st.actors|)
    requires forall i :: 0 <= i < |ids| ==> ids[i] < |st.actors|
    ensures SetNextAIMoves(st, ids, ai).Ok? ==> Inv(SetNextAIMoves(st, ids, ai).value)
    decreases |ids|
  {
    if |ids| > 0 {
      var m := SetNextAIMove(st, ids[0], ai);
      if m.Ok? {
        SetNextAIMoveKeepsInv(st, ids[0], ai);
        assert forall i :: 0 <= i < |ids[1..]| ==> ids[1..][i] < |m.value.actors|;
        SetNextAIMovesKeepsInv(m.value, ids[1..], ai);
      }
    }
  }

  lemma StartExecutorKeepsInv(st: State, ai: MoveOracle)
    requires Inv(st) && MovesValid(ai, |st.actors|)
    ensures StartExecutor(st, ai).Ok? ==> Inv(StartExecutor(st, ai).value)
  {
    var s1 := EnterCombatKeepsInv(st);
    PrepareNextRoundKeepsInv(s1, ai);
  }

  /** Entering combat only marks party members, so the invariant survives. */
  lemma EnterCombatKeepsInv(st: State) returns (s1: State)
    requires Inv(st)
    ensures s1 == CombatStarted(st)
    ensures Inv(s1)
  {
    s1 := CombatStarted(st);
    assert forall i :: 0 <= i < |st.actors| ==> ValidActor(s1.actors[i], |st.actors|);
    assert WF(s1);
    RecastKeepsSorted(st, s1);
  }

  lemma PrepareNextRoundKeepsInv(st: State, ai: MoveOracle)
    requires Inv(st) && MovesValid(ai, |st.actors|)
    ensures PrepareNextRound(st, ai).Ok? ==> Inv(PrepareNextRound(st, ai).value)
  {
    var s2 := NextRoundKeepsInv(st);
    SetNextAIMovesKeepsInv(s2, st.npcs, ai);
  }

  /** Counting the round up touches nothing the invariant constrains. */
  lemma NextRoundKeepsInv(st: State) returns (s2: State)
    requires Inv(st)
    ensures s2 == NextRound(st)
    ensures Inv(s2) && |s2.actors| == |st.actors| && s2.npcs == st.npcs
    ensures forall i :: 0 <= i < |st.npcs| ==> st.npcs[i] < |s2.actors|
  {
    s2 := NextRound(st);
    assert WF(s2);
  }
}
