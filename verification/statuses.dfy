/**
 * The status lifecycle (StatusImpl): a durational attachment on an actor
 * that yields its activation action while turns remain and its deactivation
 * action once they run out.
 */
module Statuses {
  import opened Basics
  import opened Tags
  import opened Actions

  datatype Frequency = OneTime | EveryRound

  datatype Status = Status(
    name: string,
    activation: Option<Action>,
    deactivation: Option<Action>,
    frequency: Frequency,
    baseDuration: int,
    relativeToActor: bool,
    remaining: int,
    afflicted: Option<ActorId>,
    current: Option<Action>,
    updated: bool,
    tags: set<Tag>,
    initialized: bool)

  /** A status that has just been created (or had its duration reset) and not yet updated. */
  predicate IsFresh(s: Status) {
    !s.updated && s.baseDuration == s.remaining
  }

  /** A status whose turns have run out. */
  predicate IsExpired(s: Status) {
    s.remaining <= 0
  }

  /**
   * A status is permanent when its base duration is not positive, that is,
   * when it would count as expired as soon as its turns are set to that duration.
   */
  predicate IsPermanent(s: Status): (r: bool)
    ensures r <==> IsExpired(s.(remaining := s.baseDuration))
  {
    s.baseDuration <= 0
  }

  /** The constructor: remaining turns start at the base duration. */
  function NewStatus(name: string, activation: Option<Action>, deactivation: Option<Action>,
                     frequency: Frequency, duration: int, relativeToActor: bool): (s: Status)
    ensures s.name == name && s.activation == activation && s.deactivation == deactivation
    ensures s.frequency == frequency && s.relativeToActor == relativeToActor
    ensures s.baseDuration == duration && s.remaining == duration
    ensures s.current.None? && !s.updated && !s.initialized
    ensures s.afflicted.None? && s.tags == {}
    ensures IsFresh(s)
  {
    Status(name, activation, deactivation, frequency, duration, relativeToActor,
           duration, None, None, false, {}, false)
  }

  /** Binds the status to an actor, who becomes the source of both its actions. */
  function SetAfflictedActor(s: Status, actor: ActorId): (r: Status)
    ensures r.afflicted == Some(actor)
    ensures s.activation.Some? <==> r.activation.Some?
    ensures s.deactivation.Some? <==> r.deactivation.Some?
    ensures r.activation.Some? ==> r.activation.value == s.activation.value.(source := Some(actor))
    ensures r.deactivation.Some? ==> r.deactivation.value == s.deactivation.value.(source := Some(actor))
    ensures r.remaining == s.remaining && r.baseDuration == s.baseDuration && r.updated == s.updated
  {
    s.(afflicted := Some(actor),
       activation := if s.activation.Some? then Some(s.activation.value.(source := Some(actor))) else None,
       deactivation := if s.deactivation.Some? then Some(s.deactivation.value.(source := Some(actor))) else None)
  }

  /**
   * One update: a turn is consumed (without a floor), the status is marked
   * updated and initialised, and the action it now provides is chosen.
   */
  function Update(s: Status): (r: Status)
    ensures r.remaining == s.remaining - 1
    ensures r.updated && r.initialized
    ensures r.current.Some? ==> r.current == s.activation || r.current == s.deactivation
    ensures r.remaining < 0 ==> r.current == s.deactivation
    ensures r.remaining >= 0 && (!s.initialized || s.frequency == EveryRound) ==> r.current == s.activation
    ensures r.remaining >= 0 && s.initialized && s.frequency == OneTime ==> r.current.None?
    ensures r.(remaining := s.remaining, updated := s.updated, initialized := s.initialized, current := s.current) == s
  {
    var remaining := s.remaining - 1;
    var current :=
      if s.initialized && remaining >= 0 && s.frequency == OneTime then None
      else if remaining >= 0 then s.activation
      else s.deactivation;
    s.(remaining := remaining, updated := true, current := current, initialized := true)
  }

  /** `n` consecutive updates. */
  function UpdateN(s: Status, n: nat): Status
  {
    if n == 0 then s else Update(UpdateN(s, n - 1))
  }

  /** After `n` updates, exactly `n` turns have been consumed and nothing but the counters changed. */
  lemma {:induction false} UpdateNCounts(s: Status, n: nat)
    ensures UpdateN(s, n).remaining == s.remaining - n
    ensures n > 0 ==> UpdateN(s, n).updated && UpdateN(s, n).initialized
    ensures UpdateN(s, n).activation == s.activation && UpdateN(s, n).deactivation == s.deactivation
    ensures UpdateN(s, n).frequency == s.frequency && UpdateN(s, n).baseDuration == s.baseDuration
  {
    if n > 0 {
      UpdateNCounts(s, n - 1);
    }
  }

  /**
   * An EVERY_ROUND status provides its activation action on each of the
   * first `remaining` updates and its deactivation action afterwards.
   */
  lemma EveryRoundLifecycle(s: Status, k: nat)
    requires s.frequency == EveryRound
    requires k >= 1
    ensures k <= s.remaining ==> UpdateN(s, k).current == s.activation
    ensures k > s.remaining ==> UpdateN(s, k).current == s.deactivation
  {
    UpdateNCounts(s, k - 1);
  }

  /**
   * A ONE_TIME status that was never updated provides its activation action
   * on the first update only, nothing while turns remain, then its
   * deactivation action.
   */
  lemma OneTimeLifecycle(s: Status, k: nat)
    requires s.frequency == OneTime && !s.initialized
    requires k >= 1
    ensures k == 1 && s.remaining >= 1 ==> UpdateN(s, k).current == s.activation
    ensures 2 <= k <= s.remaining ==> UpdateN(s, k).current.None?
    ensures k > s.remaining ==> UpdateN(s, k).current == s.deactivation
  {
    UpdateNCounts(s, k - 1);
  }

  /**
   * Because the choice only looks at the remaining turns, a fresh permanent
   * status never provides its activation action: every update yields the
   * deactivation action.
   */
  lemma PermanentYieldsDeactivation(s: Status, k: nat)
    requires IsPermanent(s) && IsFresh(s)
    requires k >= 1
    ensures UpdateN(s, k).current == s.deactivation
  {
    UpdateNCounts(s, k - 1);
  }

  /** Restores the full duration and clears the `updated` flag. */
  function ResetCurrentDuration(s: Status): (r: Status)
    ensures r.remaining == r.baseDuration == s.baseDuration
    ensures !r.updated
    ensures r.(remaining := s.remaining, updated := s.updated) == s
  {
    s.(updated := false, remaining := s.baseDuration)
  }

  /** A reset status is fresh again, whatever happened to it before. */
  lemma ResetMakesFresh(s: Status, n: nat)
    ensures IsFresh(ResetCurrentDuration(UpdateN(s, n)))
    ensures ResetCurrentDuration(UpdateN(s, n)).remaining == s.baseDuration
  {
    UpdateNCounts(s, n);
  }

  /** Uses up the remaining turns of a non-permanent status. */
  function DepleteStatus(s: Status): (r: Status)
    ensures IsPermanent(s) ==> r == s
    ensures !IsPermanent(s) ==> r.remaining == 0 && r.(remaining := s.remaining) == s
    ensures !IsPermanent(s) ==> IsExpired(r)
  {
    if !IsPermanent(s) then s.(remaining := 0) else s
  }

  /** Status equality: same tags, name, base duration and afflicted actor. */
  predicate StatusEquals(a: Status, b: Status): (r: bool)
    ensures a == b ==> r
    ensures r ==> HashKey(a) == HashKey(b)
  {
    a.tags == b.tags && a.name == b.name && a.baseDuration == b.baseDuration && a.afflicted == b.afflicted
  }

  /** What `hashCode` is computed from. */
  function HashKey(s: Status): (set<Tag>, string, int) {
    (s.tags, s.name, s.baseDuration)
  }

  /** Equal statuses hash alike, as `equals`/`hashCode` must. */
  lemma EqualsConsistentWithHash(a: Status, b: Status)
    requires StatusEquals(a, b)
    ensures HashKey(a) == HashKey(b)
  {
  }

  /** A new status with the same name, actions, frequency, duration and tags, not bound to any actor. */
  function GetCopy(s: Status): (r: Status)
    ensures r.name == s.name && r.baseDuration == s.baseDuration
    ensures r.frequency == s.frequency && r.tags == s.tags
    ensures r.activation == s.activation && r.deactivation == s.deactivation
    ensures r.remaining == s.baseDuration && IsFresh(r)
    ensures r.afflicted.None? && !r.initialized && r.current.None?
    ensures HashKey(r) == HashKey(s)
  {
    NewStatus(s.name, s.activation, s.deactivation, s.frequency, s.baseDuration, s.relativeToActor).(tags := s.tags)
  }

  /** A copy equals its original exactly when the original is not bound to an actor. */
  lemma CopyEqualsIffUnafflicted(s: Status)
    ensures StatusEquals(GetCopy(s), s) <==> s.afflicted.None?
  {
  }
}
