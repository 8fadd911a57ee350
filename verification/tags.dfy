/**
 * Tags and the three tag-requirement modes (TagRequirementType).
 * A tag is identified by its name; a requirement looks for a list of tags
 * inside the tag set of a taggable entity (an effect or an action).
 */
module Tags {

  type Tag = string

  /** The tag an action must carry for its actor to parry. */
  const ParryTag: Tag := "PARRY"

  datatype TagRequirementType = Allowed | Required | Unallowed

  /** At least one looked-for tag is present. */
  function AnyPresent(looked: seq<Tag>, present: set<Tag>): (r: bool)
    ensures r <==> exists i :: 0 <= i < |looked| && looked[i] in present
  {
    if |looked| == 0 then false
    else looked[0] in present || AnyPresent(looked[1..], present)
  }

  /** Every looked-for tag is present. */
  function AllPresent(looked: seq<Tag>, present: set<Tag>): (r: bool)
    ensures r <==> forall i :: 0 <= i < |looked| ==> looked[i] in present
  {
    if |looked| == 0 then true
    else looked[0] in present && AllPresent(looked[1..], present)
  }

  /** Every looked-for tag is missing. */
  function AllMissing(looked: seq<Tag>, present: set<Tag>): (r: bool)
    ensures r <==> forall i :: 0 <= i < |looked| ==> looked[i] !in present
  {
    if |looked| == 0 then true
    else looked[0] !in present && AllMissing(looked[1..], present)
  }

  /** Whether a requirement of the given mode, looking for `looked`, is met by an entity tagged `present`. */
  function IsMet(mode: TagRequirementType, looked: seq<Tag>, present: set<Tag>): (r: bool)
    ensures |looked| == 0 ==> r
    ensures mode == Allowed ==>
              (r <==> |looked| == 0 || exists i :: 0 <= i < |looked| && looked[i] in present)
    ensures mode == Required ==>
              (r <==> forall i :: 0 <= i < |looked| ==> looked[i] in present)
    ensures mode == Unallowed ==>
              (r <==> forall i :: 0 <= i < |looked| ==> looked[i] !in present)
  {
    |looked| == 0 ||
    match mode
    case Allowed => AnyPresent(looked, present)
    case Required => AllPresent(looked, present)
    case Unallowed => AllMissing(looked, present)
  }

  /** A tag requirement: a mode, the tags it looks for, and whether its verdict is inverted. */
  datatype TagRequirement = TagRequirement(inverted: bool, mode: TagRequirementType, looked: seq<Tag>)

  /**
   * Requirements compose conjunctively: every one of them must hold, where an
   * inverted requirement holds exactly when its mode is not met.
   */
  function AllMet(reqs: seq<TagRequirement>, present: set<Tag>): (r: bool)
    ensures r <==> forall i :: 0 <= i < |reqs| ==>
                    (IsMet(reqs[i].mode, reqs[i].looked, present) != reqs[i].inverted)
  {
    if |reqs| == 0 then true
    else (IsMet(reqs[0].mode, reqs[0].looked, present) != reqs[0].inverted) && AllMet(reqs[1..], present)
  }

  /** Inverting a single requirement negates its verdict. */
  lemma InvertedNegates(req: TagRequirement, present: set<Tag>)
    ensures AllMet([req.(inverted := !req.inverted)], present) == !AllMet([req], present)
  {
  }

  /** For a non-empty list, meeting REQUIRED implies meeting ALLOWED. */
  lemma RequiredImpliesAllowed(looked: seq<Tag>, present: set<Tag>)
    requires |looked| > 0
    requires IsMet(Required, looked, present)
    ensures IsMet(Allowed, looked, present)
  {
    assert looked[0] in present;
  }

  /** For a non-empty list, UNALLOWED is exactly the negation of ALLOWED. */
  lemma UnallowedNegatesAllowed(looked: seq<Tag>, present: set<Tag>)
    requires |looked| > 0
    ensures IsMet(Unallowed, looked, present) <==> !IsMet(Allowed, looked, present)
  {
  }

  /** Only the tags looked for matter: two entities agreeing on them meet the same requirements. */
  lemma {:induction false} IsMetDependsOnlyOnLooked(mode: TagRequirementType, looked: seq<Tag>, p1: set<Tag>, p2: set<Tag>)
    requires forall i :: 0 <= i < |looked| ==> (looked[i] in p1 <==> looked[i] in p2)
    ensures IsMet(mode, looked, p1) == IsMet(mode, looked, p2)
  {
    if |looked| > 0 && mode == Allowed && IsMet(mode, looked, p1) {
      var i :| 0 <= i < |looked| && looked[i] in p1;
      assert looked[i] in p2;
    }
    if |looked| > 0 && mode == Allowed && IsMet(mode, looked, p2) {
      var i :| 0 <= i < |looked| && looked[i] in p2;
      assert looked[i] in p1;
    }
  }
}
