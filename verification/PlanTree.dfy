/** Grouping plan nodes under their nearest stage ancestor by bounded walks that tolerate cycles. */
module PlanTree {
  import opened Common

  /** A plan node knows the id of its parent, which may be missing, blank or not among the listed nodes. */
  datatype Node = Node(id: string, parent: Option<string>, stage: bool)

  const MaxSteps := 100

  function ParentId(n: Node): Option<string> {
    if n.parent == Some("") then None else n.parent
  }

  /** The id met after k steps up from the node, through listed nodes only. */
  function Ancestor(byId: map<string, Node>, n: Node, k: nat): Option<string>
    requires k >= 1
  {
    if k == 1 then ParentId(n)
    else
      var below := Ancestor(byId, n, k - 1);
      if below.Some? && below.value in byId then ParentId(byId[below.value]) else None
  }

  /** The plain search: the first number of steps, from k on and within the bound, that meets a stage. */
  function StepsToStage(byId: map<string, Node>, stages: set<string>, n: Node, k: nat): (r: Option<nat>)
    requires k >= 1
    ensures r.Some? ==> k <= r.value <= MaxSteps && Ancestor(byId, n, r.value).Some? &&
                        Ancestor(byId, n, r.value).value in stages
    decreases MaxSteps + 1 - k
  {
    if k > MaxSteps then None
    else
      var id := Ancestor(byId, n, k);
      if id.None? then None
      else if id.value in stages then Some(k)
      else StepsToStage(byId, stages, n, k + 1)
  }

  /** Met after k steps, and no stage met before. */
  predicate FirstStageAt(byId: map<string, Node>, stages: set<string>, n: Node, k: nat) {
    && 1 <= k
    && Ancestor(byId, n, k).Some? && Ancestor(byId, n, k).value in stages
    && forall j :: 1 <= j < k ==> Ancestor(byId, n, j).Some? && Ancestor(byId, n, j).value !in stages
  }

  lemma {:induction false} SearchFindsFirst(byId: map<string, Node>, stages: set<string>, n: Node, from: nat, k: nat)
    requires 1 <= from <= k <= MaxSteps && FirstStageAt(byId, stages, n, k)
    ensures StepsToStage(byId, stages, n, from) == Some(k)
    decreases k - from
  {
    if from < k {
      assert Ancestor(byId, n, from).Some?;
      SearchFindsFirst(byId, stages, n, from + 1, k);
    }
  }

  lemma {:induction false} AncestorsBelow(byId: map<string, Node>, n: Node, j: nat, k: nat)
    requires 1 <= j <= k && Ancestor(byId, n, k).Some?
    ensures Ancestor(byId, n, j).Some?
  {
    if j < k {
      AncestorsBelow(byId, n, j, k - 1);
    }
  }

  lemma {:induction false} SearchIsFirst(byId: map<string, Node>, stages: set<string>, n: Node, from: nat)
    requires from >= 1
    requires forall j :: 1 <= j < from ==> Ancestor(byId, n, j).Some? && Ancestor(byId, n, j).value !in stages
    requires StepsToStage(byId, stages, n, from).Some?
    ensures FirstStageAt(byId, stages, n, StepsToStage(byId, stages, n, from).value)
    decreases MaxSteps + 1 - from
  {
    if Ancestor(byId, n, from).value !in stages {
      SearchIsFirst(byId, stages, n, from + 1);
    }
  }

  /** The search finds a stage exactly when the walk meets one within the bound, and it finds the nearest. */
  lemma NearestStage(byId: map<string, Node>, stages: set<string>, n: Node, k: nat)
    requires 1 <= k <= MaxSteps
    ensures StepsToStage(byId, stages, n, 1) == Some(k) <==> FirstStageAt(byId, stages, n, k)
  {
    if FirstStageAt(byId, stages, n, k) {
      SearchFindsFirst(byId, stages, n, 1, k);
    }
    if StepsToStage(byId, stages, n, 1) == Some(k) {
      SearchIsFirst(byId, stages, n, 1);
    }
  }

  // ----- cycles

  lemma {:induction false} Periodic(byId: map<string, Node>, n: Node, i: nat, j: nat, m: nat)
    requires 1 <= i < j && Ancestor(byId, n, i).Some? && Ancestor(byId, n, i) == Ancestor(byId, n, j)
    ensures Ancestor(byId, n, j + m) == Ancestor(byId, n, i + m)
  {
    if m > 0 {
      Periodic(byId, n, i, j, m - 1);
    }
  }

  /** Coming back to an id before any stage was met means that none will ever be met. */
  lemma {:induction false} CycleHasNoStage(byId: map<string, Node>, stages: set<string>, n: Node, i: nat, j: nat, k: nat)
    requires 1 <= i < j && 1 <= k && Ancestor(byId, n, i).Some? && Ancestor(byId, n, i) == Ancestor(byId, n, j)
    requires forall m :: 1 <= m < j ==> Ancestor(byId, n, m).Some? && Ancestor(byId, n, m).value !in stages
    ensures Ancestor(byId, n, k).Some? && Ancestor(byId, n, k).value !in stages
    decreases k
  {
    if k >= j {
      Periodic(byId, n, i, j, k - j);
      CycleHasNoStage(byId, stages, n, i, j, k - (j - i));
    }
  }

  /** On the way to the nearest stage no id is met twice. */
  lemma NoRepeatBeforeStage(byId: map<string, Node>, stages: set<string>, n: Node, k: nat, i: nat, j: nat)
    requires FirstStageAt(byId, stages, n, k) && 1 <= i < j <= k
    ensures Ancestor(byId, n, i) != Ancestor(byId, n, j)
  {
    AncestorsBelow(byId, n, i, k);
    if Ancestor(byId, n, i) == Ancestor(byId, n, j) {
      Periodic(byId, n, i, j, k - j);
    }
  }

  // ----- the walks

  /** The ids met in the first k steps. */
  ghost function Seen(byId: map<string, Node>, n: Node, k: nat): set<string>
  {
    if k == 0 then {} else
      Seen(byId, n, k - 1) + if Ancestor(byId, n, k).Some? then {Ancestor(byId, n, k).value} else {}
  }

  lemma {:induction false} SeenAt(byId: map<string, Node>, n: Node, k: nat, id: string)
    requires id in Seen(byId, n, k)
    ensures exists i :: 1 <= i <= k && Ancestor(byId, n, i) == Some(id)
  {
    if Ancestor(byId, n, k) != Some(id) {
      SeenAt(byId, n, k - 1, id);
    }
  }

  /** The node from which step k + 1 is taken. */
  predicate StandsAt(byId: map<string, Node>, n: Node, k: nat, current: Node) {
    if k == 0 then current == n
    else Ancestor(byId, n, k).Some? && Ancestor(byId, n, k).value in byId && current == byId[Ancestor(byId, n, k).value]
  }

  /** The walk with its cycle check returns what the plain search finds, or a blank id. */
  method FindNearestStageAncestor(n: Node, byId: map<string, Node>, stages: set<string>) returns (id: string)
    ensures id == match StepsToStage(byId, stages, n, 1)
                  case Some(k) => Ancestor(byId, n, k).value
                  case None => ""
  {
    var seen: set<string> := {};
    var current := n;
    for step := 0 to MaxSteps
      invariant StandsAt(byId, n, step, current) && seen == Seen(byId, n, step)
      invariant forall j :: 1 <= j <= step ==> Ancestor(byId, n, j).Some? && Ancestor(byId, n, j).value !in stages
      invariant StepsToStage(byId, stages, n, 1) == StepsToStage(byId, stages, n, step + 1)
    {
      if current.parent.None? || current.parent.value == "" {
        return "";
      }
      var parentId := current.parent.value;
      assert Ancestor(byId, n, step + 1) == Some(parentId);
      if parentId in seen {
        SeenAt(byId, n, step, parentId);
        var i :| 1 <= i <= step && Ancestor(byId, n, i) == Some(parentId);
        NoStageInCycle(byId, stages, n, i, step + 1);
        return "";
      }
      seen := seen + {parentId};
      if parentId in stages {
        return parentId;
      }
      if parentId !in byId {
        assert Ancestor(byId, n, step + 2) == None;
        return "";
      }
      current := byId[parentId];
    }
    return "";
  }

  lemma NoStageInCycle(byId: map<string, Node>, stages: set<string>, n: Node, i: nat, j: nat)
    requires 1 <= i < j && Ancestor(byId, n, i).Some? && Ancestor(byId, n, i) == Ancestor(byId, n, j)
    requires forall m :: 1 <= m < j ==> Ancestor(byId, n, m).Some? && Ancestor(byId, n, m).value !in stages
    ensures StepsToStage(byId, stages, n, 1).None?
  {
    var r := StepsToStage(byId, stages, n, 1);
    if r.Some? {
      CycleHasNoStage(byId, stages, n, i, j, r.value);
    }
  }

  /** Counting the steps up to the nearest stage gives the number of steps the search took. */
  method AncestorDepth(n: Node, byId: map<string, Node>, ancestorId: string, ghost stages: set<string>)
    returns (depth: nat)
    ensures var found := StepsToStage(byId, stages, n, 1);
            found.Some? && ancestorId == Ancestor(byId, n, found.value).value ==> depth == found.value
  {
    ghost var found := StepsToStage(byId, stages, n, 1);
    ghost var met := found.Some? && ancestorId == Ancestor(byId, n, found.value).value;
    if met {
      SearchIsFirst(byId, stages, n, 1);
    }
    depth := 0;
    var seen: set<string> := {};
    var current := n;
    for step := 0 to MaxSteps
      invariant met ==> depth == step < found.value
      invariant met ==> StandsAt(byId, n, step, current) && seen == Seen(byId, n, step)
    {
      if met {
        NextIsNew(byId, stages, n, found.value, step);
      }
      if current.parent.None? || current.parent.value == "" || current.parent.value in seen {
        break;
      }
      seen := seen + {current.parent.value};
      depth := depth + 1;
      if current.parent.value == ancestorId {
        break;
      }
      if current.parent.value !in byId {
        break;
      }
      current := byId[current.parent.value];
    }
  }

  /** Short of the nearest stage, the next step exists, meets a new id, and ends at the stage or at a listed node. */
  lemma NextIsNew(byId: map<string, Node>, stages: set<string>, n: Node, k: nat, step: nat)
    requires FirstStageAt(byId, stages, n, k) && step < k
    ensures Ancestor(byId, n, step + 1).Some?
    ensures Ancestor(byId, n, step + 1).value !in Seen(byId, n, step)
    ensures step + 1 < k ==> Ancestor(byId, n, step + 1).value in byId &&
                             Ancestor(byId, n, step + 1) != Ancestor(byId, n, k)
  {
    AncestorsBelow(byId, n, step + 1, k);
    var id := Ancestor(byId, n, step + 1).value;
    if id in Seen(byId, n, step) {
      SeenAt(byId, n, step, id);
      var i :| 1 <= i <= step && Ancestor(byId, n, i) == Some(id);
      NoRepeatBeforeStage(byId, stages, n, k, i, step + 1);
    }
    if step + 1 < k {
      AncestorsBelow(byId, n, step + 2, k);
    }
  }
}
