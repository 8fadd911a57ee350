/**
 * Effects and their modifiers (AbstractActionEffect).
 *
 * An effect carries volatile and permanent tags, snapshots of its source's
 * and target's tags, and an abstract payload (the damage amount, say).  A
 * modifier has an activation kind, an acceptance test and a function giving
 * the payload it rewrites the effect to.
 */
module Effects {
  import opened Tags

  datatype Activation = ActiveOnAttack | ActiveOnDefence | AlwaysActive

  datatype Effect<P> = Effect(
    volatileTags: set<Tag>,
    permanentTags: set<Tag>,
    sourceTags: set<Tag>,
    targetTags: set<Tag>,
    payload: P)
  {
    /** The effect's tags: volatile and permanent together. */
    function Tags(): set<Tag> {
      volatileTags + permanentTags
    }
  }

  datatype Modifier<!P> = Modifier(activation: Activation, accept: Effect<P> -> bool, rewrite: Effect<P> -> P)

  /** Kinds consulted when the effect is updated by its source. */
  const AttackKinds: set<Activation> := {ActiveOnAttack, AlwaysActive}

  /** Kinds consulted when the effect is updated by its target. */
  const DefenceKinds: set<Activation> := {ActiveOnDefence, AlwaysActive}

  /** Two effects that differ at most in their payload. */
  predicate SameButPayload<P>(a: Effect<P>, b: Effect<P>) {
    a.volatileTags == b.volatileTags && a.permanentTags == b.permanentTags &&
    a.sourceTags == b.sourceTags && a.targetTags == b.targetTags
  }

  /**
   * Runs the modifiers in list order.  Each is asked to accept the effect as
   * it stands when its turn comes (the stream is lazy, so earlier modifiers
   * have already rewritten the payload), and rewrites it if it does.
   */
  function ApplyModifiers<P>(e: Effect<P>, mods: seq<Modifier<P>>, kinds: set<Activation>): (r: Effect<P>)
    ensures SameButPayload(r, e)
    decreases |mods|
  {
    if |mods| == 0 then e
    else
      var m := mods[0];
      var next := if m.activation in kinds && m.accept(e) then e.(payload := m.rewrite(e)) else e;
      ApplyModifiers(next, mods[1..], kinds)
  }

  /** Replaces the target snapshot and applies the target's defensive and always-active modifiers. */
  function UpdateEffectByTarget<P>(e: Effect<P>, targetTags: set<Tag>, targetMods: seq<Modifier<P>>): (r: Effect<P>)
    ensures r.targetTags == targetTags
    ensures r.sourceTags == e.sourceTags
    ensures r.volatileTags == e.volatileTags && r.permanentTags == e.permanentTags
  {
    ApplyModifiers(e.(targetTags := targetTags), targetMods, DefenceKinds)
  }

  /** Replaces the source snapshot and applies the source's offensive and always-active modifiers. */
  function UpdateEffectBySource<P>(e: Effect<P>, sourceTags: set<Tag>, sourceMods: seq<Modifier<P>>): (r: Effect<P>)
    ensures r.sourceTags == sourceTags
    ensures r.targetTags == e.targetTags
    ensures r.volatileTags == e.volatileTags && r.permanentTags == e.permanentTags
  {
    ApplyModifiers(e.(sourceTags := sourceTags), sourceMods, AttackKinds)
  }

  // ---------------------------------------------------------------------------
  // Which modifiers run.

  /** A modifier whose acceptance does not look at the payload (a tag-based one, for instance). */
  ghost predicate PayloadBlind<P(!new)>(m: Modifier<P>) {
    forall a: Effect<P>, b: Effect<P> {:trigger m.accept(a), m.accept(b)} ::
      SameButPayload(a, b) ==> m.accept(a) == m.accept(b)
  }

  /** The modifiers of the given kinds that accept `e`, in list order. */
  function Selected<P>(mods: seq<Modifier<P>>, kinds: set<Activation>, e: Effect<P>): (r: seq<Modifier<P>>)
    ensures |r| <= |mods|
    ensures forall i :: 0 <= i < |r| ==> r[i] in mods && r[i].activation in kinds && r[i].accept(e)
  {
    if |mods| == 0 then []
    else
      var m := mods[0];
      (if m.activation in kinds && m.accept(e) then [m] else []) + Selected(mods[1..], kinds, e)
  }

  /** Applies every modifier of the list, unconditionally, in order. */
  function Chain<P>(e: Effect<P>, mods: seq<Modifier<P>>): Effect<P>
    decreases |mods|
  {
    if |mods| == 0 then e else Chain(e.(payload := mods[0].rewrite(e)), mods[1..])
  }

  /**
   * With acceptance that ignores the payload, running the modifiers is the
   * same as applying, in list order, exactly those of the right kind that
   * accept the effect.
   */
  lemma {:induction false} ApplyIsChainOfSelected<P(!new)>(e: Effect<P>, mods: seq<Modifier<P>>, kinds: set<Activation>)
    requires forall i :: 0 <= i < |mods| ==> PayloadBlind(mods[i])
    ensures ApplyModifiers(e, mods, kinds) == Chain(e, Selected(mods, kinds, e))
    decreases |mods|
  {
    if |mods| > 0 {
      var m := mods[0];
      var next := if m.activation in kinds && m.accept(e) then e.(payload := m.rewrite(e)) else e;
      assert SameButPayload(next, e);
      SelectedIgnoresPayload(mods[1..], kinds, next, e);
      ApplyIsChainOfSelected(next, mods[1..], kinds);
      if m.activation in kinds && m.accept(e) {
        assert Selected(mods, kinds, e) == [m] + Selected(mods[1..], kinds, e);
        assert ([m] + Selected(mods[1..], kinds, e))[1..] == Selected(mods[1..], kinds, e);
      } else {
        assert Selected(mods, kinds, e) == Selected(mods[1..], kinds, e);
      }
    }
  }

  lemma {:induction false} SelectedIgnoresPayload<P(!new)>(mods: seq<Modifier<P>>, kinds: set<Activation>, a: Effect<P>, b: Effect<P>)
    requires forall i :: 0 <= i < |mods| ==> PayloadBlind(mods[i])
    requires SameButPayload(a, b)
    ensures Selected(mods, kinds, a) == Selected(mods, kinds, b)
  {
    if |mods| > 0 {
      assert PayloadBlind(mods[0]);
      assert mods[0].accept(a) == mods[0].accept(b);
      SelectedIgnoresPayload(mods[1..], kinds, a, b);
    }
  }

  /** Modifiers of other kinds play no part: dropping them changes nothing. */
  lemma {:induction false} OtherKindsIgnored<P>(e: Effect<P>, mods: seq<Modifier<P>>, kinds: set<Activation>)
    ensures ApplyModifiers(e, mods, kinds) == ApplyModifiers(e, OfKinds(mods, kinds), kinds)
    decreases |mods|
  {
    if |mods| > 0 {
      var m := mods[0];
      var next := if m.activation in kinds && m.accept(e) then e.(payload := m.rewrite(e)) else e;
      OtherKindsIgnored(next, mods[1..], kinds);
      if m.activation in kinds {
        var f := OfKinds(mods[1..], kinds);
        assert OfKinds(mods, kinds) == [m] + f;
        assert ([m] + f)[1..] == f;
      } else {
        assert OfKinds(mods, kinds) == OfKinds(mods[1..], kinds);
      }
    }
  }

  /** The modifiers of the given kinds, in list order. */
  function OfKinds<P>(mods: seq<Modifier<P>>, kinds: set<Activation>): (r: seq<Modifier<P>>)
    ensures |r| <= |mods|
    ensures forall i :: 0 <= i < |r| ==> r[i].activation in kinds
  {
    if |mods| == 0 then []
    else (if mods[0].activation in kinds then [mods[0]] else []) + OfKinds(mods[1..], kinds)
  }

  /** Running two lists back to back is running their concatenation. */
  lemma {:induction false} ApplyConcat<P>(e: Effect<P>, a: seq<Modifier<P>>, b: seq<Modifier<P>>, kinds: set<Activation>)
    ensures ApplyModifiers(e, a + b, kinds) == ApplyModifiers(ApplyModifiers(e, a, kinds), b, kinds)
    decreases |a|
  {
    if |a| > 0 {
      var m := a[0];
      var next := if m.activation in kinds && m.accept(e) then e.(payload := m.rewrite(e)) else e;
      assert (a + b)[0] == m;
      assert (a + b)[1..] == a[1..] + b;
      ApplyConcat(next, a[1..], b, kinds);
    } else {
      assert a + b == b;
    }
  }

  // ---------------------------------------------------------------------------
  // Tag bookkeeping.

  /** Adds a tag: a permanent one always, a volatile one only if it is not already permanent. */
  function AddTag<P>(e: Effect<P>, t: Tag, isPermanent: bool): (r: Effect<P>)
    ensures r.Tags() == e.Tags() + {t}
    ensures isPermanent ==> t in r.permanentTags && r.volatileTags == e.volatileTags
    ensures !isPermanent ==> r.permanentTags == e.permanentTags
    ensures !isPermanent && t in e.permanentTags ==> r == e
    ensures r.sourceTags == e.sourceTags && r.targetTags == e.targetTags && r.payload == e.payload
  {
    if isPermanent then e.(permanentTags := e.permanentTags + {t})
    else if t !in e.permanentTags then e.(volatileTags := e.volatileTags + {t})
    else e
  }

  /**
   * `addTags` as written: the permanent branch adds every tag; the other
   * branch adds to the parameter set a subset of itself, which leaves the
   * effect untouched.
   */
  function AddTagsAsWritten<P>(e: Effect<P>, ts: set<Tag>, arePermanent: bool): (r: Effect<P>)
    ensures arePermanent ==> r.permanentTags == e.permanentTags + ts && r.volatileTags == e.volatileTags
    ensures arePermanent ==> r.Tags() == e.Tags() + ts
    ensures !arePermanent ==> r == e
  {
    if arePermanent then e.(permanentTags := e.permanentTags + ts) else e
  }

  /** Adding volatile tags as written loses them: "FIRE" is not on the effect afterwards. */
  lemma AddTagsAsWrittenDropsVolatileTags()
    ensures "FIRE" !in AddTagsAsWritten(Effect<int>.Effect({}, {}, {}, {}, 0), {"FIRE"}, false).Tags()
    ensures "FIRE" in AddTag(Effect<int>.Effect({}, {}, {}, {}, 0), "FIRE", false).Tags()
  {
  }

  /** `addTags` as evidently intended: every given tag that is not permanent becomes volatile. */
  function AddTags<P>(e: Effect<P>, ts: set<Tag>, arePermanent: bool): (r: Effect<P>)
    ensures r.Tags() == e.Tags() + ts
    ensures !arePermanent ==> r.permanentTags == e.permanentTags
    ensures !arePermanent && e.volatileTags !! e.permanentTags ==> r.volatileTags !! r.permanentTags
  {
    if arePermanent then e.(permanentTags := e.permanentTags + ts)
    else e.(volatileTags := e.volatileTags + (ts - e.permanentTags))
  }

  /** Adding a set of one tag is adding that tag. */
  lemma AddTagsAgreesWithAddTag<P>(e: Effect<P>, t: Tag, permanent: bool)
    ensures AddTags(e, {t}, permanent) == AddTag(e, t, permanent)
  {
  }

  /** Removes a volatile tag; reports whether it was there.  Permanent tags cannot be removed. */
  function RemoveTag<P>(e: Effect<P>, t: Tag): (r: (Effect<P>, bool))
    ensures r.1 <==> t in e.volatileTags
    ensures r.0.volatileTags == e.volatileTags - {t}
    ensures r.0.permanentTags == e.permanentTags
    ensures t in e.permanentTags ==> t in r.0.Tags()
    ensures r.0.Tags() == e.Tags() - ({t} - e.permanentTags)
  {
    (e.(volatileTags := e.volatileTags - {t}), t in e.volatileTags)
  }

  /** Removing a volatile tag just added undoes the addition. */
  lemma RemoveUndoesAdd<P>(e: Effect<P>, t: Tag)
    requires t !in e.Tags()
    ensures RemoveTag(AddTag(e, t, false), t) == (e, true)
  {
    assert e.volatileTags + {t} - {t} == e.volatileTags;
  }

  // ---------------------------------------------------------------------------
  // Tag-gated modifiers.

  /** A modifier that accepts an effect when all its tag requirements are met by the effect's tags. */
  function GatedModifier<P(!new)>(activation: Activation, reqs: seq<TagRequirement>, rewrite: Effect<P> -> P): (m: Modifier<P>)
    ensures m.activation == activation && m.rewrite == rewrite
    ensures forall e: Effect<P> :: m.accept(e) == AllMet(reqs, e.Tags())
    ensures PayloadBlind(m)
  {
    Modifier(activation, (e: Effect<P>) => AllMet(reqs, e.Tags()), rewrite)
  }

  /**
   * The Dark Destructor's defensive modifiers: a resistance gated by ALLOWED
   * {NORMAL_DAMAGE, AP_DAMAGE} followed by a weakness gated by REQUIRED
   * {HOLY_DAMAGE}.  Whatever the two payload rewrites are, a physical hit
   * gets the resistance only, a holy hit the weakness only, a hit carrying
   * both tags the resistance then the weakness, and an untagged one neither.
   */
  lemma DarkDestructorModifiers<P(!new)>(e: Effect<P>, targetTags: set<Tag>, resist: Effect<P> -> P, weaken: Effect<P> -> P)
    ensures
      var resistance := GatedModifier(ActiveOnDefence, [TagRequirement(false, Allowed, ["NORMAL_DAMAGE", "AP_DAMAGE"])], resist);
      var weakness := GatedModifier(ActiveOnDefence, [TagRequirement(false, Required, ["HOLY_DAMAGE"])], weaken);
      var e0 := e.(targetTags := targetTags);
      var r := UpdateEffectByTarget(e, targetTags, [resistance, weakness]);
      var physical := "NORMAL_DAMAGE" in e.Tags() || "AP_DAMAGE" in e.Tags();
      var holy := "HOLY_DAMAGE" in e.Tags();
      && (physical && !holy ==> r.payload == resist(e0))
      && (holy && !physical ==> r.payload == weaken(e0))
      && (physical && holy ==> r.payload == weaken(e0.(payload := resist(e0))))
      && (!physical && !holy ==> r.payload == e.payload)
  {
    var resistance := GatedModifier(ActiveOnDefence, [TagRequirement(false, Allowed, ["NORMAL_DAMAGE", "AP_DAMAGE"])], resist);
    var weakness := GatedModifier(ActiveOnDefence, [TagRequirement(false, Required, ["HOLY_DAMAGE"])], weaken);
    var e0 := e.(targetTags := targetTags);
    var mods := [resistance, weakness];
    assert mods[1..] == [weakness];
    assert mods[1..][1..] == [];
    var physical := "NORMAL_DAMAGE" in e.Tags() || "AP_DAMAGE" in e.Tags();
    var holy := "HOLY_DAMAGE" in e.Tags();
    assert resistance.accept(e0) == physical by {
      var looked := ["NORMAL_DAMAGE", "AP_DAMAGE"];
      assert AllMet([TagRequirement(false, Allowed, looked)], e0.Tags()) == IsMet(Allowed, looked, e0.Tags());
      if physical {
        if "NORMAL_DAMAGE" in e.Tags() {
          assert looked[0] in e0.Tags();
        } else {
          assert looked[1] in e0.Tags();
        }
      }
    }
    assert ActiveOnDefence in DefenceKinds;
    var e1 := if resistance.accept(e0) then e0.(payload := resist(e0)) else e0;
    assert weakness.accept(e1) == holy by {
      var looked := ["HOLY_DAMAGE"];
      assert AllMet([TagRequirement(false, Required, looked)], e1.Tags()) == IsMet(Required, looked, e1.Tags());
    }
    var e2 := if weakness.accept(e1) then e1.(payload := weaken(e1)) else e1;
    assert ApplyModifiers(e0, mods, DefenceKinds) == ApplyModifiers(e1, mods[1..], DefenceKinds);
    assert ApplyModifiers(e1, mods[1..], DefenceKinds) == ApplyModifiers(e2, mods[1..][1..], DefenceKinds);
  }
}
