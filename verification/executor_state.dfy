/**
 * The state of the combat executor (DefaultCombatActionExecutor together
 * with its execution instance), as an immutable record over an arena of
 * actors.  An actor is named by its index in `actors`; parties, the turn
 * queue, targets and the current actor all hold such indices.
 */
module ExecutorState {
  import opened Basics
  import opened Tags
  import opened Actions
  import opened Statuses
  import opened Ordering

  datatype CombatStatus = NotStarted | Started | RoundInProgress | RoundPaused | RoundEnded | PlayerWon | PlayerLost

  /**
   * An actor: its name, priority (larger acts earlier), tags, whether it is
   * driven automatically, its statuses, the action it selected, the queue of
   * actions it will run on its turn, and whether it is in combat.
   */
  datatype Actor = Actor(
    name: string,
    priority: int,
    tags: set<Tag>,
    automatic: bool,
    statuses: seq<Status>,
    selected: Option<Action>,
    queue: seq<Action>,
    inCombat: bool)

  datatype State = State(
    actors: seq<Actor>,
    player: seq<ActorId>,
    npcs: seq<ActorId>,
    round: int,
    status: CombatStatus,
    actorQueue: seq<ActorId>,
    pending: seq<Action>,
    currentActor: Option<ActorId>,
    currentAction: Option<Action>,
    currentResult: Option<seq<TargetResult>>)

  datatype ExecError =
    | EmptyActorQueue          // setNextAction with nothing queued at all
    | NoSelectedAction(actor: ActorId)   // a parry reply from an actor that selected nothing
    | NotAutomatic(actor: ActorId)       // an NPC that is not an automatic actor

  // ---------------------------------------------------------------------------
  // Arena well-formedness: every stored actor index names an actor.

  ghost predicate ValidAction(a: Action, n: nat) {
    && (a.source.Some? ==> a.source.value < n)
    && (a.target.Some? ==> a.target.value < n)
    && forall i :: 0 <= i < |a.targets| ==> a.targets[i] < n
  }

  ghost predicate ValidOptAction(o: Option<Action>, n: nat) {
    o.Some? ==> ValidAction(o.value, n)
  }

  ghost predicate ValidActions(q: seq<Action>, n: nat) {
    forall i :: 0 <= i < |q| ==> ValidAction(q[i], n)
  }

  ghost predicate ValidStatus(s: Status, n: nat) {
    ValidOptAction(s.activation, n) && ValidOptAction(s.deactivation, n) && ValidOptAction(s.current, n)
  }

  ghost predicate ValidStatuses(ss: seq<Status>, n: nat) {
    forall i :: 0 <= i < |ss| ==> ValidStatus(ss[i], n)
  }

  ghost predicate ValidActor(a: Actor, n: nat) {
    ValidStatuses(a.statuses, n) && ValidOptAction(a.selected, n) && ValidActions(a.queue, n)
  }

  ghost predicate ValidIds(ids: seq<ActorId>, n: nat) {
    forall i :: 0 <= i < |ids| ==> ids[i] < n
  }

  ghost predicate ValidResults(rs: seq<TargetResult>, n: nat) {
    forall i :: 0 <= i < |rs| ==> rs[i].target < n
  }

  ghost predicate WF(st: State) {
    var n := |st.actors|;
    && (forall i :: 0 <= i < n ==> ValidActor(st.actors[i], n))
    && ValidIds(st.player, n) && ValidIds(st.npcs, n) && ValidIds(st.actorQueue, n)
    && (st.currentActor.Some? ==> st.currentActor.value < n)
    && ValidActions(st.pending, n)
    && ValidOptAction(st.currentAction, n)
    && (st.currentResult.Some? ==> ValidResults(st.currentResult.value, n))
  }

  /** Replacing one actor by a valid one keeps the state well formed. */
  lemma WithActorWF(st: State, id: ActorId, a: Actor)
    requires WF(st) && id < |st.actors|
    requires ValidActor(a, |st.actors|)
    ensures WF(st.(actors := st.actors[id := a]))
  {
  }

  // ---------------------------------------------------------------------------
  // The turn order.

  /** Each actor's priority, by index: the sort keys of the turn queue. */
  function Priorities(actors: seq<Actor>): (keys: seq<int>)
    ensures |keys| == |actors|
    ensures forall i :: 0 <= i < |actors| ==> keys[i] == actors[i].priority
  {
    seq(|actors|, i requires 0 <= i < |actors| => actors[i].priority)
  }

  /** The identity of every actor (name, priority, tags, kind) is the same in both arenas. */
  ghost predicate SameCast(a: seq<Actor>, b: seq<Actor>) {
    |a| == |b| &&
    forall i :: 0 <= i < |a| ==>
      a[i].name == b[i].name && a[i].priority == b[i].priority &&
      a[i].tags == b[i].tags && a[i].automatic == b[i].automatic
  }

  lemma SameCastPriorities(a: seq<Actor>, b: seq<Actor>)
    requires SameCast(a, b)
    ensures Priorities(a) == Priorities(b)
  {
  }

  /** The turn queue is sorted by non-increasing priority. */
  ghost predicate QueueSorted(st: State) {
    SortedDesc(st.actorQueue, Priorities(st.actors))
  }

  /** The actor whose turn it is stays in the turn queue until its turn ends. */
  ghost predicate CurrentQueued(st: State) {
    st.currentActor.Some? ==> st.currentActor.value in st.actorQueue
  }

  /** What the executor maintains across every operation. */
  ghost predicate Inv(st: State) {
    WF(st) && QueueSorted(st) && CurrentQueued(st)
  }
}
