/**
 * Default targeting (DefaultTargeting): the chosen target alone, and the
 * actors an action may target given its target type and which party its
 * source belongs to.  Parties are ordered lists of actor indices.
 */
module Targeting {
  import opened Basics
  import opened Actions

  datatype TargetingError = MissingSource

  /** The targets of an action aimed at `target`: that actor alone, whatever else is available. */
  function GetTargets(target: ActorId, available: seq<ActorId>): (r: seq<ActorId>)
    ensures |r| == 1 && r[0] == target
  {
    [target]
  }

  /** The available list plays no part in the choice. */
  lemma GetTargetsIgnoresAvailable(target: ActorId, a: seq<ActorId>, b: seq<ActorId>)
    ensures GetTargets(target, a) == GetTargets(target, b)
  {
  }

  /** All actors of the encounter: the player's party first, then the NPCs'. */
  function AllParties(player: seq<ActorId>, npcs: seq<ActorId>): (r: seq<ActorId>)
    ensures |r| == |player| + |npcs|
    ensures forall a :: a in r <==> a in player || a in npcs
  {
    player + npcs
  }

  /**
   * The actors an action of the given target type may target, as the code
   * computes them.  An action without a source cannot be resolved.
   */
  function ValidTargets(player: seq<ActorId>, npcs: seq<ActorId>, source: Option<ActorId>, targetType: TargetType)
    : (r: Result<seq<ActorId>, TargetingError>)
    ensures r.Err? <==> source.None?
    ensures r.Ok? && targetType == Foe ==> r.value == (if source.value in player then npcs else player)
    ensures r.Ok? && targetType == Ally ==> r.value == (if source.value in npcs then player else npcs)
    ensures r.Ok? && targetType == Everyone ==> r.value == AllParties(player, npcs)
    ensures r.Ok? && targetType == SelfTarget ==> r.value == [source.value]
  {
    match source
    case None => Err(MissingSource)
    case Some(s) =>
      match targetType
      case Ally => Ok(if s in npcs then player else npcs)
      case Everyone => Ok(AllParties(player, npcs))
      case Foe => Ok(if s in player then npcs else player)
      case SelfTarget => Ok([s])
  }

  /**
   * For a source in exactly one party, the code gives ALLY the same targets
   * as FOE: the opposing party.
   */
  lemma AllyBehavesAsFoe(player: seq<ActorId>, npcs: seq<ActorId>, s: ActorId)
    requires (s in player) != (s in npcs)
    ensures ValidTargets(player, npcs, Some(s), Ally) == ValidTargets(player, npcs, Some(s), Foe)
    ensures s in player ==> ValidTargets(player, npcs, Some(s), Ally) == Ok(npcs)
    ensures s in npcs ==> ValidTargets(player, npcs, Some(s), Ally) == Ok(player)
  {
  }

  /** A player targeting allies gets the NPCs, and does not find itself among them. */
  lemma AllyExcludesOwnParty()
    ensures ValidTargets([0], [1], Some(0), Ally) == Ok([1])
    ensures ValidTargets([0], [1], Some(0), Ally).value != [0]
  {
  }

  /** The targets as the documentation describes them: ALLY means the source's own party. */
  function ValidTargetsAsDocumented(player: seq<ActorId>, npcs: seq<ActorId>, source: Option<ActorId>, targetType: TargetType)
    : (r: Result<seq<ActorId>, TargetingError>)
    ensures r.Err? <==> source.None?
    ensures r.Ok? && targetType == Ally && (source.value in player || source.value in npcs) ==> source.value in r.value
    ensures r.Ok? && targetType != Ally ==> r == ValidTargets(player, npcs, source, targetType)
  {
    match source
    case None => Err(MissingSource)
    case Some(s) =>
      if targetType == Ally then Ok(if s in npcs then npcs else player)
      else ValidTargets(player, npcs, source, targetType)
  }

  /**
   * With disjoint parties, documented ALLY and FOE split the encounter: the
   * source's own party and the other one, and neither overlaps the other.
   */
  lemma AllyAndFoeAsDocumentedPartition(player: seq<ActorId>, npcs: seq<ActorId>, s: ActorId)
    requires forall a :: a in player ==> a !in npcs
    requires s in player || s in npcs
    ensures var ally := ValidTargetsAsDocumented(player, npcs, Some(s), Ally).value;
            var foe := ValidTargetsAsDocumented(player, npcs, Some(s), Foe).value;
            (forall a :: a in ally ==> a !in foe) && (forall a :: a in ally || a in foe <==> a in player || a in npcs)
  {
  }
}
