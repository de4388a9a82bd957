/** The stage groups of a plan: every node is placed exactly once, children under their nearest stage. */
module PlanGroups {
  import opened Common
  import opened PlanTree

  datatype Child = Child(node: Node, depth: Option<nat>)
  datatype Group = Group(stage: Option<Node>, children: seq<Child>, isCurrent: bool)

  /** Later nodes replace earlier ones of the same id. */
  function ById(nodes: seq<Node>): map<string, Node> {
    if nodes == [] then map[]
    else ById(nodes[..|nodes| - 1])[nodes[|nodes| - 1].id := nodes[|nodes| - 1]]
  }

  function Stages(nodes: seq<Node>): seq<Node> {
    if nodes == [] then []
    else Stages(nodes[..|nodes| - 1]) + if nodes[|nodes| - 1].stage then [nodes[|nodes| - 1]] else []
  }

  function StageIds(nodes: seq<Node>): set<string> {
    set n | n in nodes && n.stage :: n.id
  }

  /** The walk of one node to its nearest stage: the stage id and the number of steps. */
  function Nearest(byId: map<string, Node>, stages: set<string>, n: Node): Option<(string, nat)> {
    var k := StepsToStage(byId, stages, n, 1);
    if k.None? || Ancestor(byId, n, k.value).value == "" then None
    else Some((Ancestor(byId, n, k.value).value, k.value))
  }

  function ChildrenOf(byId: map<string, Node>, stages: set<string>, part: seq<Node>, id: string): seq<Child> {
    if part == [] then []
    else
      var n := part[|part| - 1];
      var near := Nearest(byId, stages, n);
      ChildrenOf(byId, stages, part[..|part| - 1], id) +
      if !n.stage && near.Some? && near.value.0 == id then [Child(n, Some(near.value.1))] else []
  }

  function Orphans(byId: map<string, Node>, stages: set<string>, part: seq<Node>): seq<Child> {
    if part == [] then []
    else
      var n := part[|part| - 1];
      Orphans(byId, stages, part[..|part| - 1]) +
      if !n.stage && Nearest(byId, stages, n).None? then [Child(n, None)] else []
  }

  function StageGroups(byId: map<string, Node>, stages: set<string>, nodes: seq<Node>, heads: seq<Node>,
                       current: Option<string>): seq<Group>
  {
    if heads == [] then []
    else
      var s := heads[|heads| - 1];
      StageGroups(byId, stages, nodes, heads[..|heads| - 1], current) +
      [Group(Some(s), ChildrenOf(byId, stages, nodes, s.id), current == Some(s.id))]
  }

  function Groups(nodes: seq<Node>, current: Option<string>): seq<Group> {
    var byId, stages := ById(nodes), StageIds(nodes);
    var orphans := Orphans(byId, stages, nodes);
    StageGroups(byId, stages, nodes, Stages(nodes), current) +
    if orphans == [] then [] else [Group(None, orphans, false)]
  }

  /** `_build_stages`: three passes that fill dictionaries and lists. */
  method BuildStages(nodes: seq<Node>, current: Option<string>) returns (result: seq<Group>)
    ensures result == Groups(nodes, current)
  {
    var byId, ids, ordered := IndexNodes(nodes);
    var children, orphans := CollectChildren(nodes, byId, ids);
    result := [];
    for i := 0 to |ordered|
      invariant result == StageGroups(byId, ids, nodes, ordered[..i], current)
    {
      var s := ordered[i];
      assert ordered[..i + 1] == ordered[..i] + [s];
      OneMoreGroup(byId, ids, nodes, ordered[..i], s, current);
      StagesAreIds(nodes, s);
      result := result + [Group(Some(s), children[s.id], current == Some(s.id))];
    }
    assert ordered[..|ordered|] == ordered;
    if orphans != [] {
      result := result + [Group(None, orphans, false)];
    }
  }

  lemma OneMoreGroup(byId: map<string, Node>, stages: set<string>, nodes: seq<Node>, heads: seq<Node>, s: Node,
                     current: Option<string>)
    ensures StageGroups(byId, stages, nodes, heads + [s], current) ==
            StageGroups(byId, stages, nodes, heads, current) +
            [Group(Some(s), ChildrenOf(byId, stages, nodes, s.id), current == Some(s.id))]
  {
    assert (heads + [s])[..|heads|] == heads;
  }

  method IndexNodes(nodes: seq<Node>) returns (byId: map<string, Node>, ids: set<string>, ordered: seq<Node>)
    ensures byId == ById(nodes) && ids == StageIds(nodes) && ordered == Stages(nodes)
  {
    byId, ids, ordered := map[], {}, [];
    for i := 0 to |nodes|
      invariant byId == ById(nodes[..i])
      invariant ids == StageIds(nodes[..i])
      invariant ordered == Stages(nodes[..i])
    {
      assert nodes[..i + 1][..i] == nodes[..i];
      StageIdsOneMore(nodes[..i], nodes[i]);
      assert nodes[..i + 1] == nodes[..i] + [nodes[i]];
      byId := byId[nodes[i].id := nodes[i]];
      if nodes[i].stage {
        ids := ids + {nodes[i].id};
        ordered := ordered + [nodes[i]];
      }
    }
    assert nodes[..|nodes|] == nodes;
  }

  lemma StageIdsOneMore(nodes: seq<Node>, n: Node)
    ensures StageIds(nodes + [n]) == StageIds(nodes) + if n.stage then {n.id} else {}
  {
  }

  method CollectChildren(nodes: seq<Node>, byId: map<string, Node>, ids: set<string>)
    returns (children: map<string, seq<Child>>, orphans: seq<Child>)
    ensures children.Keys == ids
    ensures forall id :: id in ids ==> children[id] == ChildrenOf(byId, ids, nodes, id)
    ensures orphans == Orphans(byId, ids, nodes)
  {
    children := map id | id in ids :: [];
    orphans := [];
    for i := 0 to |nodes|
      invariant children.Keys == ids
      invariant forall id :: id in ids ==> children[id] == ChildrenOf(byId, ids, nodes[..i], id)
      invariant orphans == Orphans(byId, ids, nodes[..i])
    {
      var n := nodes[i];
      assert nodes[..i + 1] == nodes[..i] + [n];
      OneMoreNode(byId, ids, nodes[..i], n);
      if !n.stage {
        var near := Place(n, byId, ids);
        if near.Some? {
          var (id, depth) := near.value;
          children := children[id := children[id] + [Child(n, Some(depth))]];
        } else {
          orphans := orphans + [Child(n, None)];
        }
      }
    }
    assert nodes[..|nodes|] == nodes;
  }

  lemma OneMoreNode(byId: map<string, Node>, ids: set<string>, part: seq<Node>, n: Node)
    ensures Orphans(byId, ids, part + [n]) ==
            Orphans(byId, ids, part) + if !n.stage && Nearest(byId, ids, n).None? then [Child(n, None)] else []
    ensures forall id :: ChildrenOf(byId, ids, part + [n], id) ==
              ChildrenOf(byId, ids, part, id) +
              if Under(byId, ids, n, id) then [Child(n, Some(Nearest(byId, ids, n).value.1))] else []
  {
    assert (part + [n])[..|part|] == part;
  }

  /** The two walks of one node: to its stage, then again to count the steps. */
  method Place(n: Node, byId: map<string, Node>, ids: set<string>) returns (near: Option<(string, nat)>)
    ensures near == Nearest(byId, ids, n) && (near.Some? ==> near.value.0 in ids)
  {
    var id := FindNearestStageAncestor(n, byId, ids);
    if id == "" {
      return None;
    }
    var depth := AncestorDepth(n, byId, id, ids);
    return Some((id, depth));
  }

  lemma {:induction false} StagesAreIds(nodes: seq<Node>, s: Node)
    ensures s in Stages(nodes) <==> s in nodes && s.stage
    ensures s in Stages(nodes) ==> s.id in StageIds(nodes)
  {
    if nodes != [] {
      var last := |nodes| - 1;
      assert nodes == nodes[..last] + [nodes[last]];
      StagesAreIds(nodes[..last], s);
    }
  }

  // ----- every node exactly once

  function NodesOf(children: seq<Child>): seq<Node> {
    if children == [] then [] else NodesOf(children[..|children| - 1]) + [children[|children| - 1].node]
  }

  /** All nodes a list of groups shows, heads and children. */
  function Shown(groups: seq<Group>): multiset<Node> {
    if groups == [] then multiset{}
    else
      var g := groups[|groups| - 1];
      Shown(groups[..|groups| - 1]) +
      (if g.stage.Some? then multiset{g.stage.value} else multiset{}) + multiset(NodesOf(g.children))
  }

  function Plain(nodes: seq<Node>): multiset<Node> {
    if nodes == [] then multiset{}
    else Plain(nodes[..|nodes| - 1]) + if nodes[|nodes| - 1].stage then multiset{} else multiset{nodes[|nodes| - 1]}
  }

  lemma {:induction false} StagesAndPlain(nodes: seq<Node>)
    ensures multiset(Stages(nodes)) + Plain(nodes) == multiset(nodes)
  {
    if nodes != [] {
      var last := |nodes| - 1;
      assert nodes == nodes[..last] + [nodes[last]];
      StagesAndPlain(nodes[..last]);
    }
  }

  /** The children of all heads together. */
  function Gathered(byId: map<string, Node>, stages: set<string>, part: seq<Node>, heads: seq<Node>): multiset<Node> {
    if heads == [] then multiset{}
    else
      Gathered(byId, stages, part, heads[..|heads| - 1]) +
      multiset(NodesOf(ChildrenOf(byId, stages, part, heads[|heads| - 1].id)))
  }

  lemma NodesOfAppend(children: seq<Child>, c: Child)
    ensures NodesOf(children + [c]) == NodesOf(children) + [c.node]
  {
    assert (children + [c])[..|children|] == children;
  }

  ghost predicate DistinctIds(nodes: seq<Node>) {
    forall i, j :: 0 <= i < j < |nodes| ==> nodes[i].id != nodes[j].id
  }

  predicate HasHead(heads: seq<Node>, id: string) {
    exists i :: 0 <= i < |heads| && heads[i].id == id
  }

  predicate Under(byId: map<string, Node>, stages: set<string>, n: Node, id: string) {
    !n.stage && Nearest(byId, stages, n).Some? && Nearest(byId, stages, n).value.0 == id
  }

  function Once(n: Node, b: bool): multiset<Node> {
    if b then multiset{n} else multiset{}
  }

  lemma ChildrenOneMore(byId: map<string, Node>, stages: set<string>, part: seq<Node>, n: Node, id: string)
    ensures multiset(NodesOf(ChildrenOf(byId, stages, part + [n], id))) ==
            multiset(NodesOf(ChildrenOf(byId, stages, part, id))) + Once(n, Under(byId, stages, n, id))
  {
    assert (part + [n])[..|part|] == part;
    var before := ChildrenOf(byId, stages, part, id);
    if Under(byId, stages, n, id) {
      NodesOfAppend(before, Child(n, Some(Nearest(byId, stages, n).value.1)));
    } else {
      assert before + [] == before;
    }
  }

  lemma OrphansOneMore(byId: map<string, Node>, stages: set<string>, part: seq<Node>, n: Node)
    ensures multiset(NodesOf(Orphans(byId, stages, part + [n]))) ==
            multiset(NodesOf(Orphans(byId, stages, part))) + Once(n, !n.stage && Nearest(byId, stages, n).None?)
  {
    assert (part + [n])[..|part|] == part;
    var before := Orphans(byId, stages, part);
    NodesOfAppend(before, Child(n, None));
    assert before + [] == before;
  }

  /** The node's nearest stage is among the heads. */
  predicate UnderSome(byId: map<string, Node>, stages: set<string>, n: Node, heads: seq<Node>) {
    !n.stage && Nearest(byId, stages, n).Some? && HasHead(heads, Nearest(byId, stages, n).value.0)
  }

  /** One more node adds itself under exactly one head, if its nearest stage is among the heads. */
  lemma {:induction false} GatherOneMore(byId: map<string, Node>, stages: set<string>, part: seq<Node>, n: Node,
                                         heads: seq<Node>)
    requires DistinctIds(heads)
    ensures Gathered(byId, stages, part + [n], heads) ==
            Gathered(byId, stages, part, heads) + Once(n, UnderSome(byId, stages, n, heads))
  {
    if heads != [] {
      var last := |heads| - 1;
      GatherOneMore(byId, stages, part, n, heads[..last]);
      ChildrenOneMore(byId, stages, part, n, heads[last].id);
      UnderOne(byId, stages, n, heads);
      Regroup(Gathered(byId, stages, part, heads[..last]),
              multiset(NodesOf(ChildrenOf(byId, stages, part, heads[last].id))),
              Once(n, UnderSome(byId, stages, n, heads[..last])),
              Once(n, Under(byId, stages, n, heads[last].id)));
    }
  }

  lemma Regroup(a: multiset<Node>, b: multiset<Node>, x: multiset<Node>, y: multiset<Node>)
    ensures (a + x) + (b + y) == (a + b) + (x + y)
  {
  }

  lemma UnderOne(byId: map<string, Node>, stages: set<string>, n: Node, heads: seq<Node>)
    requires DistinctIds(heads) && heads != []
    ensures var last := |heads| - 1;
            Once(n, UnderSome(byId, stages, n, heads)) ==
            Once(n, UnderSome(byId, stages, n, heads[..last])) + Once(n, Under(byId, stages, n, heads[last].id))
  {
    if Nearest(byId, stages, n).Some? {
      HeadsSplit(heads, Nearest(byId, stages, n).value.0);
    }
  }

  lemma HeadsSplit(heads: seq<Node>, id: string)
    requires DistinctIds(heads) && heads != []
    ensures var last := |heads| - 1;
            && (HasHead(heads, id) <==> HasHead(heads[..last], id) || heads[last].id == id)
            && !(HasHead(heads[..last], id) && heads[last].id == id)
  {
    var last := |heads| - 1;
    if HasHead(heads[..last], id) {
      var i :| 0 <= i < last && heads[..last][i].id == id;
      assert heads[i].id == id;
    }
  }

  lemma {:induction false} GatheredAndOrphans(byId: map<string, Node>, stages: set<string>, part: seq<Node>, heads: seq<Node>)
    requires DistinctIds(heads) && forall id :: id in stages ==> HasHead(heads, id)
    ensures Gathered(byId, stages, part, heads) + multiset(NodesOf(Orphans(byId, stages, part))) == Plain(part)
  {
    if part == [] {
      NothingGathered(byId, stages, heads);
    } else {
      var last := |part| - 1;
      var n := part[last];
      assert part == part[..last] + [n];
      GatheredAndOrphans(byId, stages, part[..last], heads);
      GatherOneMore(byId, stages, part[..last], n, heads);
      OrphansOneMore(byId, stages, part[..last], n);
      NearestIsStage(byId, stages, n);
    }
  }

  lemma NearestIsStage(byId: map<string, Node>, stages: set<string>, n: Node)
    ensures Nearest(byId, stages, n).Some? ==> Nearest(byId, stages, n).value.0 in stages
  {
  }

  lemma {:induction false} NothingGathered(byId: map<string, Node>, stages: set<string>, heads: seq<Node>)
    ensures Gathered(byId, stages, [], heads) == multiset{}
  {
    if heads != [] {
      NothingGathered(byId, stages, heads[..|heads| - 1]);
    }
  }

  lemma {:induction false} ShownByStages(byId: map<string, Node>, stages: set<string>, nodes: seq<Node>, heads: seq<Node>,
                                         current: Option<string>)
    ensures Shown(StageGroups(byId, stages, nodes, heads, current)) ==
            multiset(heads) + Gathered(byId, stages, nodes, heads)
  {
    if heads != [] {
      var last := |heads| - 1;
      assert heads == heads[..last] + [heads[last]];
      ShownByStages(byId, stages, nodes, heads[..last], current);
      OneMoreGroup(byId, stages, nodes, heads[..last], heads[last], current);
      ShownAppend(StageGroups(byId, stages, nodes, heads[..last], current),
                  Group(Some(heads[last]), ChildrenOf(byId, stages, nodes, heads[last].id), current == Some(heads[last].id)));
    }
  }

  lemma {:induction false} StagesDistinct(nodes: seq<Node>)
    requires DistinctIds(nodes)
    ensures DistinctIds(Stages(nodes))
  {
    if nodes != [] {
      var last := |nodes| - 1;
      StagesDistinct(nodes[..last]);
      forall s | s in Stages(nodes[..last]) ensures s.id != nodes[last].id {
        StagesAreIds(nodes[..last], s);
        var i :| 0 <= i < last && nodes[..last][i] == s;
        assert nodes[i] == s;
      }
    }
  }

  lemma StageIdsAreHeads(nodes: seq<Node>)
    ensures forall id :: id in StageIds(nodes) ==> HasHead(Stages(nodes), id)
  {
    forall id | id in StageIds(nodes) ensures HasHead(Stages(nodes), id) {
      var n :| n in nodes && n.stage && n.id == id;
      StagesAreIds(nodes, n);
    }
  }

  /** With distinct ids, whatever the parents (cycles included), the groups show every node exactly once. */
  lemma EveryNodeOnce(nodes: seq<Node>, current: Option<string>)
    requires DistinctIds(nodes)
    ensures Shown(Groups(nodes, current)) == multiset(nodes)
  {
    var byId, stages, heads := ById(nodes), StageIds(nodes), Stages(nodes);
    var orphans := multiset(NodesOf(Orphans(byId, stages, nodes)));
    StagesDistinct(nodes);
    StageIdsAreHeads(nodes);
    ShownIsStagesAndOrphans(nodes, current);
    ShownByStages(byId, stages, nodes, heads, current);
    GatheredAndOrphans(byId, stages, nodes, heads);
    StagesAndPlain(nodes);
    var gathered := Gathered(byId, stages, nodes, heads);
    assert multiset(heads) + gathered + orphans == multiset(heads) + (gathered + orphans);
  }

  lemma ShownIsStagesAndOrphans(nodes: seq<Node>, current: Option<string>)
    ensures var byId, stages := ById(nodes), StageIds(nodes);
            Shown(Groups(nodes, current)) == Shown(StageGroups(byId, stages, nodes, Stages(nodes), current)) +
                                             multiset(NodesOf(Orphans(byId, stages, nodes)))
  {
    var byId, stages := ById(nodes), StageIds(nodes);
    var orphans := Orphans(byId, stages, nodes);
    var byStage := StageGroups(byId, stages, nodes, Stages(nodes), current);
    if orphans != [] {
      ShownAppend(byStage, Group(None, orphans, false));
    } else {
      assert byStage + [] == byStage;
    }
  }

  lemma ShownAppend(groups: seq<Group>, g: Group)
    ensures Shown(groups + [g]) ==
            Shown(groups) + (if g.stage.Some? then multiset{g.stage.value} else multiset{}) + multiset(NodesOf(g.children))
  {
    assert (groups + [g])[..|groups|] == groups;
  }

  lemma {:induction false} ChildIsNearest(byId: map<string, Node>, stages: set<string>, part: seq<Node>, id: string, c: Child)
    requires c in ChildrenOf(byId, stages, part, id)
    ensures c.node in part && !c.node.stage && c.depth.Some?
    ensures FirstStageAt(byId, stages, c.node, c.depth.value) && c.depth.value <= MaxSteps
    ensures Ancestor(byId, c.node, c.depth.value) == Some(id)
  {
    var last := |part| - 1;
    assert part == part[..last] + [part[last]];
    if c in ChildrenOf(byId, stages, part[..last], id) {
      ChildIsNearest(byId, stages, part[..last], id, c);
    } else {
      NearestStage(byId, stages, part[last], c.depth.value);
    }
  }

  lemma {:induction false} OrphanHasNone(byId: map<string, Node>, stages: set<string>, part: seq<Node>, c: Child)
    requires c in Orphans(byId, stages, part) && "" !in stages
    ensures forall k :: 1 <= k <= MaxSteps ==> !FirstStageAt(byId, stages, c.node, k)
  {
    var last := |part| - 1;
    assert part == part[..last] + [part[last]];
    if c in Orphans(byId, stages, part[..last]) {
      OrphanHasNone(byId, stages, part[..last], c);
    } else {
      forall k | 1 <= k <= MaxSteps ensures !FirstStageAt(byId, stages, c.node, k) {
        NearestStage(byId, stages, c.node, k);
      }
    }
  }

  /**
   * A node shown under a stage has that stage as its nearest stage ancestor, met after as many steps as its depth says;
   * a node shown ungrouped meets no stage within the bound.
   */
  lemma PlacedUnderNearest(nodes: seq<Node>, current: Option<string>, g: Group, c: Child)
    requires g in Groups(nodes, current) && c in g.children
    requires forall n :: n in nodes ==> n.id != ""
    ensures var byId, stages := ById(nodes), StageIds(nodes);
            && !c.node.stage
            && (g.stage.Some? ==>
                  c.depth.Some? && c.depth.value <= 100 && FirstStageAt(byId, stages, c.node, c.depth.value) &&
                  Ancestor(byId, c.node, c.depth.value) == Some(g.stage.value.id))
            && (g.stage.None? ==> forall k :: 1 <= k <= 100 ==> !FirstStageAt(byId, stages, c.node, k))
  {
    var byId, stages := ById(nodes), StageIds(nodes);
    if g in StageGroups(byId, stages, nodes, Stages(nodes), current) {
      GroupOfStage(byId, stages, nodes, Stages(nodes), current, g);
      ChildIsNearest(byId, stages, nodes, g.stage.value.id, c);
    } else {
      assert g == Group(None, Orphans(byId, stages, nodes), false);
      OrphanHasNone(byId, stages, nodes, c);
      OrphanIsPlain(byId, stages, nodes, c);
    }
  }

  lemma {:induction false} ReachedIsChild(byId: map<string, Node>, stages: set<string>, part: seq<Node>, n: Node, k: nat,
                                          id: string)
    requires n in part && !n.stage && StepsToStage(byId, stages, n, 1) == Some(k)
    requires Ancestor(byId, n, k) == Some(id) && id != ""
    ensures Child(n, Some(k)) in ChildrenOf(byId, stages, part, id)
  {
    var last := |part| - 1;
    assert part == part[..last] + [part[last]];
    if n != part[last] {
      ReachedIsChild(byId, stages, part[..last], n, k, id);
    }
  }

  lemma {:induction false} HeadHasGroup(byId: map<string, Node>, stages: set<string>, nodes: seq<Node>, heads: seq<Node>,
                                        current: Option<string>, s: Node)
    requires s in heads
    ensures Group(Some(s), ChildrenOf(byId, stages, nodes, s.id), current == Some(s.id))
            in StageGroups(byId, stages, nodes, heads, current)
  {
    var last := |heads| - 1;
    assert heads == heads[..last] + [heads[last]];
    if s != heads[last] {
      HeadHasGroup(byId, stages, nodes, heads[..last], current, s);
    }
  }

  /**
   * The other half: a node whose walk meets a first stage after k steps, within the bound, is shown under that stage at
   * depth k.
   */
  lemma ReachedStageShowsNode(nodes: seq<Node>, current: Option<string>, n: Node, k: nat)
    requires n in nodes && !n.stage && 1 <= k <= 100 && forall x :: x in nodes ==> x.id != ""
    requires FirstStageAt(ById(nodes), StageIds(nodes), n, k)
    ensures exists g :: g in Groups(nodes, current) && g.stage.Some? && Child(n, Some(k)) in g.children &&
                        Ancestor(ById(nodes), n, k) == Some(g.stage.value.id)
  {
    var byId, stages := ById(nodes), StageIds(nodes);
    var id := Ancestor(byId, n, k).value;
    NearestStage(byId, stages, n, k);
    var s :| s in nodes && s.stage && s.id == id;
    StagesAreIds(nodes, s);
    ReachedIsChild(byId, stages, nodes, n, k, id);
    HeadHasGroup(byId, stages, nodes, Stages(nodes), current, s);
    var g := Group(Some(s), ChildrenOf(byId, stages, nodes, s.id), current == Some(s.id));
    assert g in Groups(nodes, current) && Child(n, Some(k)) in g.children;
  }

  lemma {:induction false} OrphanIsPlain(byId: map<string, Node>, stages: set<string>, part: seq<Node>, c: Child)
    requires c in Orphans(byId, stages, part)
    ensures !c.node.stage
  {
    if c in Orphans(byId, stages, part[..|part| - 1]) {
      OrphanIsPlain(byId, stages, part[..|part| - 1], c);
    }
  }

  lemma {:induction false} GroupOfStage(byId: map<string, Node>, stages: set<string>, nodes: seq<Node>, heads: seq<Node>,
                                        current: Option<string>, g: Group)
    requires g in StageGroups(byId, stages, nodes, heads, current)
    ensures g.stage.Some? && g.children == ChildrenOf(byId, stages, nodes, g.stage.value.id)
  {
    var last := |heads| - 1;
    if g in StageGroups(byId, stages, nodes, heads[..last], current) {
      GroupOfStage(byId, stages, nodes, heads[..last], current, g);
    }
  }

  // ----- order

  /** Positions that only grow. */
  ghost predicate Rising(at: seq<nat>, bound: nat) {
    && (forall i :: 0 <= i < |at| ==> at[i] < bound)
    && (forall i, j :: 0 <= i < j < |at| ==> at[i] < at[j])
  }

  lemma RisingOn(at: seq<nat>, n: nat)
    requires Rising(at, n)
    ensures Rising(at, n + 1) && Rising(at + [n], n + 1)
  {
  }

  /** The listed nodes stand at these places of the plan. */
  ghost predicate StandAt(nodes: seq<Node>, listed: seq<Node>, at: seq<nat>) {
    |at| == |listed| && Rising(at, |nodes|) && forall i :: 0 <= i < |at| ==> nodes[at[i]] == listed[i]
  }

  lemma OneMoreStands(nodes: seq<Node>, listed: seq<Node>, at: seq<nat>, n: Node)
    requires StandAt(nodes, listed, at)
    ensures StandAt(nodes + [n], listed, at) && StandAt(nodes + [n], listed + [n], at + [|nodes|])
  {
    RisingOn(at, |nodes|);
  }

  /** The stages are listed in the order of the plan. */
  lemma {:induction false} StagesInOrder(nodes: seq<Node>) returns (at: seq<nat>)
    ensures StandAt(nodes, Stages(nodes), at)
  {
    if nodes == [] {
      at := [];
    } else {
      var n := |nodes| - 1;
      at := StagesInOrder(nodes[..n]);
      assert nodes == nodes[..n] + [nodes[n]];
      OneMoreStands(nodes[..n], Stages(nodes[..n]), at, nodes[n]);
      if nodes[n].stage {
        at := at + [n];
      } else {
        assert Stages(nodes[..n]) + [] == Stages(nodes[..n]);
      }
    }
  }

  /** The children of a stage are listed in the order of the plan. */
  lemma {:induction false} ChildrenInOrder(byId: map<string, Node>, stages: set<string>, part: seq<Node>, id: string)
    returns (at: seq<nat>)
    ensures StandAt(part, NodesOf(ChildrenOf(byId, stages, part, id)), at)
  {
    if part == [] {
      at := [];
    } else {
      var n := |part| - 1;
      var before := ChildrenOf(byId, stages, part[..n], id);
      at := ChildrenInOrder(byId, stages, part[..n], id);
      assert part == part[..n] + [part[n]];
      OneMoreNode(byId, stages, part[..n], part[n]);
      OneMoreStands(part[..n], NodesOf(before), at, part[n]);
      if Under(byId, stages, part[n], id) {
        NodesOfAppend(before, Child(part[n], Some(Nearest(byId, stages, part[n]).value.1)));
        at := at + [n];
      } else {
        assert before + [] == before;
      }
    }
  }

  lemma {:induction false} StageGroupAt(byId: map<string, Node>, stages: set<string>, nodes: seq<Node>, heads: seq<Node>,
                                        current: Option<string>, i: nat)
    requires i < |heads|
    ensures |StageGroups(byId, stages, nodes, heads, current)| == |heads|
    ensures StageGroups(byId, stages, nodes, heads, current)[i] ==
            Group(Some(heads[i]), ChildrenOf(byId, stages, nodes, heads[i].id), current == Some(heads[i].id))
  {
    var last := |heads| - 1;
    if last > 0 {
      StageGroupAt(byId, stages, nodes, heads[..last], current, if i < last then i else 0);
    }
  }

  /**
   * One group per stage in the order of the plan, each with its children in that order, and marked current exactly when
   * it is the current stage; then at most one group without a stage, never marked.
   */
  lemma GroupsInOrder(nodes: seq<Node>, current: Option<string>, i: nat)
    requires i < |Groups(nodes, current)|
    ensures |Stages(nodes)| <= |Groups(nodes, current)| <= |Stages(nodes)| + 1
    ensures var g := Groups(nodes, current)[i];
            if i < |Stages(nodes)|
            then g.stage == Some(Stages(nodes)[i]) && (g.isCurrent <==> current == Some(Stages(nodes)[i].id)) &&
                 g.children == ChildrenOf(ById(nodes), StageIds(nodes), nodes, Stages(nodes)[i].id)
            else g.stage == None && !g.isCurrent && g.children != []
  {
    var byId, stages, heads := ById(nodes), StageIds(nodes), Stages(nodes);
    if heads != [] {
      StageGroupAt(byId, stages, nodes, heads, current, if i < |heads| then i else 0);
    }
  }
}
