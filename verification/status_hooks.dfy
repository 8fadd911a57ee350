/**
 * The executor's three status hooks: at an actor's turn start, at its turn
 * end (expired statuses) and right after an effect hit it (newly applied
 * statuses).  Each walks the actor's statuses in order, updates some of them
 * and queues the actions they provide.
 */
module StatusHooks {
  import opened Basics
  import opened Actions
  import opened Statuses
  import opened ExecutorState

  function Reverse<T>(xs: seq<T>): (r: seq<T>)
    ensures |r| == |xs|
  {
    if |xs| == 0 then [] else Reverse(xs[1..]) + [xs[0]]
  }

  // ---------------------------------------------------------------------------
  // Turn start.

  /** Whether a status, once updated at turn start, gets its action queued. */
  predicate QueuesAtTurnStart(u: Status) {
    (u.remaining >= 0 || IsPermanent(u)) && u.current.Some?
  }

  /** The actions turn start queues, in status order. */
  function TurnStartActions(ss: seq<Status>): seq<Action>
  {
    if |ss| == 0 then []
    else
      var u := Update(ss[0]);
      (if !ss[0].updated && QueuesAtTurnStart(u) then [u.current.value] else []) + TurnStartActions(ss[1..])
  }

  /**
   * Turn start: every status not yet updated is updated; the action it then
   * provides is put at the front of the actor's queue when turns remain or
   * the status is permanent.  Later statuses end up in front of earlier ones.
   */
  function TurnStart(ss: seq<Status>, queue: seq<Action>): (r: (seq<Status>, seq<Action>))
    ensures |r.0| == |ss|
    ensures forall i :: 0 <= i < |ss| ==> r.0[i] == (if ss[i].updated then ss[i] else Update(ss[i]))
    ensures forall i :: 0 <= i < |ss| ==> r.0[i].updated
    ensures r.1 == Reverse(TurnStartActions(ss)) + queue
  {
    if |ss| == 0 then ([], queue)
    else
      var s := ss[0];
      var rest := TurnStart(ss[1..], TurnStartQueue(s, queue));
      TurnStartQueueStep(ss, queue);
      TurnStartStatusesStep(ss, rest.0);
      ([if s.updated then s else Update(s)] + rest.0, rest.1)
  }

  lemma TurnStartStatusesStep(ss: seq<Status>, rest: seq<Status>)
    requires |ss| > 0 && |rest| == |ss| - 1
    requires forall i :: 0 <= i < |ss[1..]| ==> rest[i] == (if ss[1..][i].updated then ss[1..][i] else Update(ss[1..][i]))
    ensures var r := [if ss[0].updated then ss[0] else Update(ss[0])] + rest;
            && (forall i :: 0 <= i < |ss| ==> r[i] == (if ss[i].updated then ss[i] else Update(ss[i])))
            && (forall i :: 0 <= i < |ss| ==> r[i].updated)
  {
    assert forall i :: 1 <= i < |ss| ==> ss[i] == ss[1..][i - 1];
  }

  /** The queue turn start passes on to the rest of the statuses after looking at the first. */
  function TurnStartQueue(s: Status, queue: seq<Action>): seq<Action>
  {
    if !s.updated && QueuesAtTurnStart(Update(s)) then [Update(s).current.value] + queue else queue
  }

  lemma TurnStartQueueStep(ss: seq<Status>, queue: seq<Action>)
    requires |ss| > 0
    ensures Reverse(TurnStartActions(ss[1..])) + TurnStartQueue(ss[0], queue) == Reverse(TurnStartActions(ss)) + queue
  {
    var t := TurnStartActions(ss[1..]);
    var u := Update(ss[0]);
    if !ss[0].updated && QueuesAtTurnStart(u) {
      assert TurnStartActions(ss) == [u.current.value] + t;
      PushFrontReverse(u.current.value, t, queue);
    } else {
      assert TurnStartActions(ss) == [] + t == t;
    }
  }

  /** Pushing onto the front of a queue in front of a reversed list reverses one more element. */
  lemma PushFrontReverse<T>(v: T, t: seq<T>, q: seq<T>)
    ensures Reverse(t) + ([v] + q) == Reverse([v] + t) + q
  {
    assert ([v] + t)[1..] == t;
    assert Reverse(t) + [v] + q == Reverse(t) + ([v] + q);
  }

  /** A second turn start in the same round finds every status updated and does nothing. */
  lemma TurnStartIdempotent(ss: seq<Status>, q: seq<Action>, q': seq<Action>)
    ensures TurnStart(TurnStart(ss, q).0, q') == (TurnStart(ss, q).0, q')
  {
    var done := TurnStart(ss, q).0;
    NothingToQueueWhenUpdated(done);
    assert Reverse(TurnStartActions(done)) == [];
  }

  lemma {:induction false} NothingToQueueWhenUpdated(ss: seq<Status>)
    requires forall i :: 0 <= i < |ss| ==> ss[i].updated
    ensures TurnStartActions(ss) == [] && FreshActions(ss) == []
  {
    if |ss| > 0 {
      NothingToQueueWhenUpdated(ss[1..]);
    }
  }

  // ---------------------------------------------------------------------------
  // Turn end.

  /** The actions expiry queues, in status order. */
  function ExpiryActions(ss: seq<Status>): (r: seq<Action>)
    ensures |r| <= |ss|
  {
    if |ss| == 0 then []
    else
      var u := Update(ss[0]);
      (if IsExpired(ss[0]) && u.current.Some? then [u.current.value] else []) + ExpiryActions(ss[1..])
  }

  /**
   * Turn end: each expired status (no turns left) is updated; if that
   * produces an action, the action is appended to the actor's queue and the
   * status is removed.  An expired status that produces nothing stays,
   * updated; the other statuses are left alone.
   */
  function ExpireStatuses(ss: seq<Status>, queue: seq<Action>): (r: (seq<Status>, seq<Action>))
    ensures r.1 == queue + ExpiryActions(ss)
    ensures |r.0| + |ExpiryActions(ss)| == |ss|
  {
    if |ss| == 0 then ([], queue)
    else
      var s := ss[0];
      var rest := ExpireStatuses(ss[1..], ExpireQueue(s, queue));
      ExpireQueueStep(ss, queue);
      if IsExpired(s) && Update(s).current.Some? then rest
      else ([if IsExpired(s) then Update(s) else s] + rest.0, rest.1)
  }

  lemma ExpireQueueStep(ss: seq<Status>, queue: seq<Action>)
    requires |ss| > 0
    ensures ExpireQueue(ss[0], queue) + ExpiryActions(ss[1..]) == queue + ExpiryActions(ss)
    ensures |ExpiryActions(ss)| == |ExpiryActions(ss[1..])| + (if IsExpired(ss[0]) && Update(ss[0]).current.Some? then 1 else 0)
  {
  }

  /** The queue turn end passes on to the rest of the statuses after looking at the first. */
  function ExpireQueue(s: Status, queue: seq<Action>): seq<Action>
  {
    if IsExpired(s) && Update(s).current.Some? then queue + [Update(s).current.value] else queue
  }

  /** A status with turns left survives its actor's turn end unchanged. */
  lemma {:induction false} UnexpiredSurvives(ss: seq<Status>, q: seq<Action>, i: nat)
    requires i < |ss| && !IsExpired(ss[i])
    ensures ss[i] in ExpireStatuses(ss, q).0
    decreases i
  {
    if i > 0 {
      assert ss[i] == ss[1..][i - 1];
      UnexpiredSurvives(ss[1..], ExpireQueue(ss[0], q), i - 1);
    }
  }

  /** An expired status whose update yields no action stays, updated. */
  lemma {:induction false} InertExpiredStays(ss: seq<Status>, q: seq<Action>, i: nat)
    requires i < |ss| && IsExpired(ss[i]) && Update(ss[i]).current.None?
    ensures Update(ss[i]) in ExpireStatuses(ss, q).0
    decreases i
  {
    if i > 0 {
      assert ss[i] == ss[1..][i - 1];
      InertExpiredStays(ss[1..], ExpireQueue(ss[0], q), i - 1);
    }
  }

  /**
   * Nothing else is left after turn end: every remaining status is either an
   * unexpired one or the update of an expired one that yields no action.
   */
  lemma {:induction false} ExpireKeepsOnly(ss: seq<Status>, q: seq<Action>, x: Status)
    requires x in ExpireStatuses(ss, q).0
    ensures (x in ss && !IsExpired(x)) || (x.current.None? && exists s :: s in ss && IsExpired(s) && x == Update(s))
  {
    var s := ss[0];
    var rest := ExpireStatuses(ss[1..], ExpireQueue(s, q));
    if x in rest.0 {
      ExpireKeepsOnly(ss[1..], ExpireQueue(s, q), x);
      if x in ss[1..] && !IsExpired(x) {
        assert x in ss;
      } else {
        var w :| w in ss[1..] && IsExpired(w) && x == Update(w);
        assert w in ss;
      }
    } else {
      assert x == (if IsExpired(s) then Update(s) else s);
    }
  }

  // ---------------------------------------------------------------------------
  // Newly applied statuses.

  /** The actions newly applied statuses provide, in status order. */
  function FreshActions(ss: seq<Status>): seq<Action>
  {
    if |ss| == 0 then []
    else
      var u := Update(ss[0]);
      (if IsFresh(ss[0]) && u.current.Some? then [u.current.value] else []) + FreshActions(ss[1..])
  }

  /**
   * After an effect hit the actor: every status not yet updated whose
   * remaining turns still equal its base duration was applied just now; it
   * is updated and its action is appended to the executor's pending queue.
   */
  function UpdateNewlyApplied(ss: seq<Status>, pending: seq<Action>): (r: (seq<Status>, seq<Action>))
    ensures |r.0| == |ss|
    ensures forall i :: 0 <= i < |ss| ==> r.0[i] == (if IsFresh(ss[i]) then Update(ss[i]) else ss[i])
    ensures r.1 == pending + FreshActions(ss)
  {
    if |ss| == 0 then ([], pending)
    else
      var s := ss[0];
      var u := if IsFresh(s) then Update(s) else s;
      var p := if IsFresh(s) && u.current.Some? then pending + [u.current.value] else pending;
      var rest := UpdateNewlyApplied(ss[1..], p);
      assert p + FreshActions(ss[1..]) == pending + FreshActions(ss);
      ([u] + rest.0, rest.1)
  }

  /** Once a status has been updated it is no longer "newly applied" until it is reset. */
  lemma NewlyAppliedOnce(ss: seq<Status>, p: seq<Action>, p': seq<Action>)
    ensures UpdateNewlyApplied(UpdateNewlyApplied(ss, p).0, p') == (UpdateNewlyApplied(ss, p).0, p')
  {
    var once := UpdateNewlyApplied(ss, p).0;
    forall i | 0 <= i < |once| ensures !IsFresh(once[i]) {
    }
    NoFreshNoActions(once);
  }

  lemma {:induction false} NoFreshNoActions(ss: seq<Status>)
    requires forall i :: 0 <= i < |ss| ==> !IsFresh(ss[i])
    ensures FreshActions(ss) == []
  {
    if |ss| > 0 {
      NoFreshNoActions(ss[1..]);
    }
  }

  /**
   * A two-turn EVERY_ROUND status on an actor: each of its two turn starts
   * queues the activation action in front of the actor's own actions; the
   * first turn end keeps the status, and the second turn end queues the
   * deactivation action and removes the status.  (Between the two turns the
   * round end clears the `updated` flag.)
   */
  lemma TwoTurnStatusLifecycle(s: Status, act: Action, deact: Action, q1: seq<Action>, q2: seq<Action>)
    requires s.remaining == 2 && s.baseDuration == 2 && !s.updated
    requires s.frequency == EveryRound && s.activation == Some(act) && s.deactivation == Some(deact)
    ensures var t1 := TurnStart([s], q1);
            && t1.1 == [act] + q1
            && ExpireStatuses(t1.0, []) == (t1.0, [])
            && var t2 := TurnStart([t1.0[0].(updated := false)], q2);
               && t2.1 == [act] + q2
               && ExpireStatuses(t2.0, []) == ([], [deact])
  {
    var u1 := Update(s);
    TurnStartSingle(s, q1);
    ExpireSingle(u1);
    var u1r := u1.(updated := false);
    var u2 := Update(u1r);
    TurnStartSingle(u1r, q2);
    ExpireSingle(u2);
  }

  lemma TurnStartSingle(s: Status, q: seq<Action>)
    requires !s.updated
    ensures var u := Update(s);
            TurnStart([s], q) == ([u], (if QueuesAtTurnStart(u) then [u.current.value] else []) + q)
  {
    assert [s][1..] == [];
    var u := Update(s);
    var q' := if QueuesAtTurnStart(u) then [u.current.value] + q else q;
    assert TurnStart([], q') == ([], q');
    assert [] + q == q;
    assert [u] + [] == [u];
  }

  lemma ExpireSingle(s: Status)
    ensures var u := Update(s);
            ExpireStatuses([s], []) ==
              if IsExpired(s) && u.current.Some? then ([], [u.current.value])
              else ([if IsExpired(s) then u else s], [])
  {
    assert [s][1..] == [];
    var u := Update(s);
    var q := if IsExpired(s) && u.current.Some? then [u.current.value] else [];
    assert [] + q == q;
    assert ExpireStatuses([], q) == ([], q);
    assert [if IsExpired(s) then u else s] + [] == [if IsExpired(s) then u else s];
  }

  // ---------------------------------------------------------------------------
  // Arena validity is preserved by the hooks.

  lemma UpdateValid(s: Status, n: nat)
    requires ValidStatus(s, n)
    ensures ValidStatus(Update(s), n)
    ensures Update(s).current.Some? ==> ValidAction(Update(s).current.value, n)
  {
  }

  lemma {:induction false} TurnStartActionsValid(ss: seq<Status>, n: nat)
    requires ValidStatuses(ss, n)
    ensures ValidActions(TurnStartActions(ss), n)
  {
    if |ss| > 0 {
      UpdateValid(ss[0], n);
      TurnStartActionsValid(ss[1..], n);
    }
  }

  lemma {:induction false} ExpiryActionsValid(ss: seq<Status>, n: nat)
    requires ValidStatuses(ss, n)
    ensures ValidActions(ExpiryActions(ss), n)
  {
    if |ss| > 0 {
      UpdateValid(ss[0], n);
      ExpiryActionsValid(ss[1..], n);
    }
  }

  lemma {:induction false} FreshActionsValid(ss: seq<Status>, n: nat)
    requires ValidStatuses(ss, n)
    ensures ValidActions(FreshActions(ss), n)
  {
    if |ss| > 0 {
      UpdateValid(ss[0], n);
      FreshActionsValid(ss[1..], n);
    }
  }

  lemma TurnStartValid(ss: seq<Status>, q: seq<Action>, n: nat)
    requires ValidStatuses(ss, n) && ValidActions(q, n)
    ensures ValidStatuses(TurnStart(ss, q).0, n) && ValidActions(TurnStart(ss, q).1, n)
  {
    TurnStartActionsValid(ss, n);
    ReverseValid(TurnStartActions(ss), n);
    var r := TurnStart(ss, q);
    forall i | 0 <= i < |ss| ensures ValidStatus(r.0[i], n) {
      UpdateValid(ss[i], n);
    }
  }

  lemma {:induction false} ReverseValid(xs: seq<Action>, n: nat)
    requires ValidActions(xs, n)
    ensures ValidActions(Reverse(xs), n)
  {
    if |xs| > 0 {
      ReverseValid(xs[1..], n);
    }
  }

  lemma ExpireValid(ss: seq<Status>, q: seq<Action>, n: nat)
    requires ValidStatuses(ss, n) && ValidActions(q, n)
    ensures ValidStatuses(ExpireStatuses(ss, q).0, n) && ValidActions(ExpireStatuses(ss, q).1, n)
  {
    ExpiryActionsValid(ss, n);
    var r := ExpireStatuses(ss, q);
    forall i | 0 <= i < |r.0| ensures ValidStatus(r.0[i], n) {
      var x := r.0[i];
      ExpireKeepsOnly(ss, q, x);
      if x in ss && !IsExpired(x) {
        var j :| 0 <= j < |ss| && ss[j] == x;
      } else {
        var s :| s in ss && IsExpired(s) && x == Update(s);
        var j :| 0 <= j < |ss| && ss[j] == s;
        UpdateValid(s, n);
      }
    }
  }

  lemma NewlyAppliedValid(ss: seq<Status>, p: seq<Action>, n: nat)
    requires ValidStatuses(ss, n) && ValidActions(p, n)
    ensures ValidStatuses(UpdateNewlyApplied(ss, p).0, n) && ValidActions(UpdateNewlyApplied(ss, p).1, n)
  {
    FreshActionsValid(ss, n);
    var r := UpdateNewlyApplied(ss, p);
    forall i | 0 <= i < |ss| ensures ValidStatus(r.0[i], n) {
      UpdateValid(ss[i], n);
    }
  }
}
