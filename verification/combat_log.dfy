/**
 * The combat log lines written for a resolved action (the message
 * construction of GameContentController.logAction): one header line chosen
 * by the action's category, then one line per target with its outcome.
 */
module CombatLog {
  import opened Basics
  import opened Actions

  datatype LogError = MissingSource | MissingResult(target: ActorId)

  /** Joins strings with a separator (Collectors.joining). */
  function Join(xs: seq<string>, sep: string): (r: string)
    ensures |xs| == 1 ==> r == xs[0]
    ensures |xs| == 0 ==> r == ""
  {
    if |xs| == 0 then ""
    else if |xs| == 1 then xs[0]
    else xs[0] + sep + Join(xs[1..], sep)
  }

  /** The lower-case name of an outcome. */
  function OutcomeWord(o: Outcome): string {
    match o
    case Hit => "hit"
    case Missed => "missed"
    case Parried => "parried"
  }

  /** "{t} has been hit", "{t} has been missed", but "{t} has parried". */
  function OutcomeLine(name: string, o: Outcome): string {
    name + " has " + (if o == Parried then "" else "been ") + OutcomeWord(o)
  }

  /** The header line, keyed on the action's category. */
  function Header(category: ActionCategory, sourceName: string, actionName: string,
                  targetNames: seq<string>, sourceIsTarget: bool): string
  {
    match category
    case Standard => sourceName + " used " + actionName + " on " + Join(targetNames, ", ")
    case Special => sourceName + " used " + actionName + " on " + Join(targetNames, ", ")
    case Item => sourceName + " used " + actionName + " on " + (if sourceIsTarget then "self" else Join(targetNames, ", "))
    case Interactable => sourceName + " interacted with " + sourceName
    case StatusCategory => sourceName + " suffers from " + actionName
  }

  /** Position of the first result that concerns `t` (`|results|` when there is none). */
  function FirstIndex(results: seq<TargetResult>, t: ActorId): (k: nat)
    ensures k <= |results|
    ensures k < |results| ==> results[k].target == t
    ensures forall j :: 0 <= j < k ==> results[j].target != t
  {
    if |results| == 0 then 0
    else if results[0].target == t then 0
    else 1 + FirstIndex(results[1..], t)
  }

  /** The outcome of the first result that concerns `t`. */
  function FirstOutcome(results: seq<TargetResult>, t: ActorId): (r: Option<Outcome>)
    ensures r.None? <==> forall i :: 0 <= i < |results| ==> results[i].target != t
  {
    var k := FirstIndex(results, t);
    if k < |results| then Some(results[k].outcome) else None
  }

  /** The names of the given actors. */
  function Names(names: seq<string>, ids: seq<ActorId>): (r: seq<string>)
    requires forall i :: 0 <= i < |ids| ==> ids[i] < |names|
    ensures |r| == |ids| && forall i :: 0 <= i < |ids| ==> r[i] == names[ids[i]]
  {
    if |ids| == 0 then [] else [names[ids[0]]] + Names(names, ids[1..])
  }

  /** One outcome line per target, in target order. */
  function OutcomeLines(names: seq<string>, targets: seq<ActorId>, results: seq<TargetResult>): (r: Result<seq<string>, LogError>)
    requires forall i :: 0 <= i < |targets| ==> targets[i] < |names|
    ensures r.Err? <==> exists i :: 0 <= i < |targets| && FirstOutcome(results, targets[i]).None?
    ensures r.Ok? ==> |r.value| == |targets|
    ensures r.Ok? ==> forall i :: 0 <= i < |targets| ==>
              r.value[i] == OutcomeLine(names[targets[i]], FirstOutcome(results, targets[i]).value)
  {
    if |targets| == 0 then Ok([])
    else
      match FirstOutcome(results, targets[0])
      case None => Err(MissingResult(targets[0]))
      case Some(o) =>
        match OutcomeLines(names, targets[1..], results)
        case Err(e) =>
          MissingOutcomeCons(results, targets);
          Err(e)
        case Ok(rest) =>
          OutcomeLinesCons(names, targets, results, o, rest);
          Ok([OutcomeLine(names[targets[0]], o)] + rest)
  }

  lemma MissingOutcomeCons(results: seq<TargetResult>, targets: seq<ActorId>)
    requires |targets| > 0
    requires exists i :: 0 <= i < |targets[1..]| && FirstOutcome(results, targets[1..][i]).None?
    ensures exists i :: 0 <= i < |targets| && FirstOutcome(results, targets[i]).None?
  {
    var i :| 0 <= i < |targets[1..]| && FirstOutcome(results, targets[1..][i]).None?;
    assert targets[i + 1] == targets[1..][i];
  }

  /** The line of the first target in front of the lines of the others is the lines of all of them. */
  lemma OutcomeLinesCons(names: seq<string>, targets: seq<ActorId>, results: seq<TargetResult>, o: Outcome, rest: seq<string>)
    requires |targets| > 0 && forall i :: 0 <= i < |targets| ==> targets[i] < |names|
    requires FirstOutcome(results, targets[0]) == Some(o)
    requires forall i :: 0 <= i < |targets[1..]| ==> FirstOutcome(results, targets[1..][i]).Some?
    requires |rest| == |targets[1..]|
    requires forall i :: 0 <= i < |targets[1..]| ==>
               rest[i] == OutcomeLine(names[targets[1..][i]], FirstOutcome(results, targets[1..][i]).value)
    ensures forall i :: 0 <= i < |targets| ==> FirstOutcome(results, targets[i]).Some?
    ensures forall i :: 0 <= i < |targets| ==>
              ([OutcomeLine(names[targets[0]], o)] + rest)[i] == OutcomeLine(names[targets[i]], FirstOutcome(results, targets[i]).value)
  {
    forall i | 0 < i < |targets| ensures targets[i] == targets[1..][i - 1] {
    }
  }

  /**
   * The lines logged for an action result: a header, then one line per
   * target.  The source must be set and every target must have a result.
   */
  function LogAction(names: seq<string>, action: Action, results: seq<TargetResult>): (r: Result<seq<string>, LogError>)
    requires action.source.Some? ==> action.source.value < |names|
    requires forall i :: 0 <= i < |action.targets| ==> action.targets[i] < |names|
    ensures action.source.None? ==> r == Err(MissingSource)
    ensures action.source.Some? ==>
              (r.Err? <==> exists i :: 0 <= i < |action.targets| && FirstOutcome(results, action.targets[i]).None?)
    ensures r.Ok? ==> |r.value| == 1 + |action.targets|
    ensures r.Ok? ==> r.value[0] == Header(action.category, names[action.source.value], action.name,
                                           Names(names, action.targets), action.source == action.target)
    ensures r.Ok? ==> forall i :: 0 <= i < |action.targets| ==>
              r.value[i + 1] == OutcomeLine(names[action.targets[i]], FirstOutcome(results, action.targets[i]).value)
  {
    match action.source
    case None => Err(MissingSource)
    case Some(s) =>
      var header := Header(action.category, names[s], action.name, Names(names, action.targets), action.source == action.target);
      match OutcomeLines(names, action.targets, results)
      case Err(e) => Err(e)
      case Ok(lines) => Ok([header] + lines)
  }

  // ---------------------------------------------------------------------------
  // Reading the log back.

  /** The outcome an outcome line reports for the named actor, if it is one. */
  function ReadOutcome(name: string, line: string): Option<Outcome> {
    if line == OutcomeLine(name, Hit) then Some(Hit)
    else if line == OutcomeLine(name, Missed) then Some(Missed)
    else if line == OutcomeLine(name, Parried) then Some(Parried)
    else None
  }

  /** The three outcome lines of one actor are pairwise distinct. */
  lemma OutcomeLinesDistinct(name: string, a: Outcome, b: Outcome)
    requires a != b
    ensures OutcomeLine(name, a) != OutcomeLine(name, b)
  {
    assert |OutcomeLine(name, Hit)| == |name| + 13;
    assert |OutcomeLine(name, Missed)| == |name| + 16;
    assert |OutcomeLine(name, Parried)| == |name| + 12;
  }

  /** An outcome line reads back as the outcome it was written for. */
  lemma ReadOutcomeLine(name: string, o: Outcome)
    ensures ReadOutcome(name, OutcomeLine(name, o)) == Some(o)
  {
    if o != Hit {
      OutcomeLinesDistinct(name, o, Hit);
    }
    if o == Parried {
      OutcomeLinesDistinct(name, o, Missed);
    }
  }

  /** Reads one outcome per line, pairing lines with the given names. */
  function ReadOutcomes(names: seq<string>, lines: seq<string>): Option<seq<Outcome>>
    requires |names| == |lines|
  {
    if |lines| == 0 then Some([])
    else
      match (ReadOutcome(names[0], lines[0]), ReadOutcomes(names[1..], lines[1..]))
      case (Some(o), Some(rest)) => Some([o] + rest)
      case _ => None
  }

  /** Each target's first outcome, in target order. */
  function TargetOutcomes(results: seq<TargetResult>, targets: seq<ActorId>): (r: seq<Outcome>)
    requires forall i :: 0 <= i < |targets| ==> FirstOutcome(results, targets[i]).Some?
    ensures |r| == |targets|
    ensures forall i :: 0 <= i < |targets| ==> r[i] == FirstOutcome(results, targets[i]).value
  {
    if |targets| == 0 then []
    else [FirstOutcome(results, targets[0]).value] + TargetOutcomes(results, targets[1..])
  }

  /**
   * When every target has a result, reading the logged lines back yields
   * each target's outcome, in target order.
   */
  lemma {:induction false} LogRecordsOutcomes(names: seq<string>, targets: seq<ActorId>, results: seq<TargetResult>)
    requires forall i :: 0 <= i < |targets| ==> targets[i] < |names|
    requires forall i :: 0 <= i < |targets| ==> FirstOutcome(results, targets[i]).Some?
    ensures OutcomeLines(names, targets, results).Ok?
    ensures ReadOutcomes(Names(names, targets), OutcomeLines(names, targets, results).value)
            == Some(TargetOutcomes(results, targets))
  {
    var lines := OutcomeLines(names, targets, results).value;
    var ns := Names(names, targets);
    if |targets| > 0 {
      var o := FirstOutcome(results, targets[0]).value;
      LogRecordsOutcomes(names, targets[1..], results);
      ReadOutcomeLine(names[targets[0]], o);
      assert ns[1..] == Names(names, targets[1..]);
      assert lines[1..] == OutcomeLines(names, targets[1..], results).value;
      assert ReadOutcome(ns[0], lines[0]) == Some(o);
    }
  }
}
