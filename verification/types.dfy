/** Data shared by the rule engine, the host's stacking extension and the layout. */
module Types {

  datatype Option<+T> = None | Some(value: T)

  /** One stat effect of a node. The engine knows the ops "add" and "mul";
      any other op only makes the stat appear with its current total. */
  datatype Effect = Effect(stat: string, op: string, value: int)

  /** A node of the skill graph, immutable once loaded. Optional fields of the
      dataset take their JS default: an absent list is [], an absent string is
      "" (falsy), an absent cost is 0. */
  datatype Node = Node(
    id: string,
    name: string,              // the dataset's `label`
    cost: nat,
    reqAll: seq<string>,       // `requires`: AND prerequisites
    reqAny: seq<string>,       // `requiresAny`: OR prerequisites; [] means no constraint
    reqStage: string,          // minimum stage the engine checks, "" when absent
    hostReqStage: string,      // `_reqStage`: the stage the host checks instead, "" when absent
    tags: seq<string>,
    effects: seq<Effect>,
    stackable: bool,
    nodeType: string,          // the dataset's `type` ("principle" marks a column root)
    icon: string)

  /** The closed set of failure reasons the engine and its host report. */
  datatype Reason =
    | NodeNotFound
    | AlreadyActive
    | InsufficientPoints
    | MissingRequiredAll
    | MissingRequiredAny
    | StageTooLow(stage: string)
    | NotActive
    | DependencyExists(dependent: string)
    | StackRejected      // "PN insuficiente ou requisitos não atendidos."
    | NothingToRemove    // "Nada para remover."

  /** The `{ok, reason}` record every operation returns. */
  datatype Check = Ok | Fail(reason: Reason)

  /** The ids a node depends on, through either kind of prerequisite. */
  function Deps(n: Node): seq<string> { n.reqAll + n.reqAny }

  predicate Distinct<T(==)>(s: seq<T>) {
    forall i, j | 0 <= i < j < |s| :: s[i] != s[j]
  }

  lemma DistinctAppend<T>(s: seq<T>, x: T)
    requires Distinct(s) && x !in s
    ensures Distinct(s + [x])
  {
  }

  /** `s` without `x`, the rest in order (JS `Set.prototype.delete`). */
  function Remove(s: seq<string>, x: string): (r: seq<string>)
    ensures forall y :: y in r <==> y in s && y != x
    ensures |r| <= |s|
    ensures Distinct(s) ==> Distinct(r)
  {
    if s == [] then []
    else
      var init := Remove(s[..|s| - 1], x);
      assert forall y :: y in s[..|s| - 1] ==> y in s;
      assert Distinct(s) ==> s[|s| - 1] !in s[..|s| - 1];
      if s[|s| - 1] == x then init else init + [s[|s| - 1]]
  }

  lemma {:induction false} RemoveAbsent(s: seq<string>, x: string)
    requires x !in s
    ensures Remove(s, x) == s
  {
    if s != [] {
      RemoveAbsent(s[..|s| - 1], x);
      assert s[..|s| - 1] + [s[|s| - 1]] == s;
    }
  }

  /** Deleting what was just appended gives back the original sequence. */
  lemma RemoveAppended(s: seq<string>, x: string)
    requires x !in s
    ensures Remove(s + [x], x) == s
  {
    assert (s + [x])[..|s + [x]| - 1] == s;
    RemoveAbsent(s, x);
  }
}
