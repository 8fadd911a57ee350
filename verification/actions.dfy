/**
 * Actions as the executor sees them.  Actors are referred to by their index
 * in the encounter's actor arena; actions are plain values (the executor never
 * compares two actions by identity).
 */
module Actions {
  import opened Basics
  import opened Tags

  /** Index of an actor in the encounter's arena. */
  type ActorId = nat

  datatype ActionCategory = Standard | Special | Item | Interactable | StatusCategory

  datatype TargetType = SelfTarget | Ally | Foe | Everyone

  /** Outcome of one target's hit roll (ActionResultType). */
  datatype Outcome = Hit | Missed | Parried

  /**
   * An action: its name, category, target type, tags, the actor using it,
   * the main target chosen for it and the resolved target list.
   */
  datatype Action = Action(
    name: string,
    category: ActionCategory,
    targetType: TargetType,
    tags: set<Tag>,
    source: Option<ActorId>,
    target: Option<ActorId>,
    targets: seq<ActorId>)

  /** One (target, outcome) pair of an ActionResult. */
  datatype TargetResult = TargetResult(target: ActorId, outcome: Outcome)

  /** Number of results with the given outcome. */
  function CountOutcome(rs: seq<TargetResult>, o: Outcome): (n: nat)
    ensures n <= |rs|
  {
    if |rs| == 0 then 0
    else (if rs[0].outcome == o then 1 else 0) + CountOutcome(rs[1..], o)
  }

  /** Every result is exactly one of HIT, PARRIED and MISSED. */
  lemma {:induction false} OutcomesPartition(rs: seq<TargetResult>)
    ensures CountOutcome(rs, Hit) + CountOutcome(rs, Parried) + CountOutcome(rs, Missed) == |rs|
  {
    if |rs| > 0 {
      OutcomesPartition(rs[1..]);
    }
  }
}
