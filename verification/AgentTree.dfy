/**
  The static agent tree (crates/openslate-core/src/agent_tree.rs): building it from configurations,
  with the depth-first cycle check, and what a successful build guarantees.
 */
module AgentTree {
  import opened Wrappers

  type AgentId = string

  datatype AgentConfig = AgentConfig(id: AgentId, model: string, children: seq<AgentId>)

  datatype AgentNode = AgentNode(model: string, children: seq<AgentId>)

  datatype Tree = Tree(nodes: map<AgentId, AgentNode>, root: AgentId)

  datatype TreeError =
    | NoRoot
    | MultipleRoots(ids: seq<AgentId>)
    | DuplicateId(id: AgentId)
    | InvalidChildRef(agent: AgentId, child: AgentId)
    | CycleDetected(root: AgentId)

  type Nodes = map<AgentId, AgentNode>

  function Children(nodes: Nodes, id: AgentId): seq<AgentId> {
    if id in nodes then nodes[id].children else []
  }

  // ---- walks and cycles ----

  ghost predicate IsWalk(nodes: Nodes, walk: seq<AgentId>) {
    && walk != []
    && forall i :: 0 <= i < |walk| - 1 ==> walk[i + 1] in Children(nodes, walk[i])
  }

  ghost predicate Repeats(walk: seq<AgentId>) {
    exists i, j :: 0 <= i < j < |walk| && walk[i] == walk[j]
  }

  /** `walk` starts at `id`. */
  ghost predicate WalkFrom(nodes: Nodes, id: AgentId, walk: seq<AgentId>) {
    IsWalk(nodes, walk) && walk[0] == id
  }

  ghost predicate Reaches(nodes: Nodes, id: AgentId, target: AgentId) {
    exists walk :: WalkFrom(nodes, id, walk) && walk[|walk| - 1] == target
  }

  ghost predicate CycleReachable(nodes: Nodes, id: AgentId) {
    exists walk :: WalkFrom(nodes, id, walk) && Repeats(walk)
  }

  /** What the search is after: a walk that comes back to an agent being visited, or to itself. */
  ghost predicate Bad(nodes: Nodes, id: AgentId, visiting: set<AgentId>, walk: seq<AgentId>) {
    WalkFrom(nodes, id, walk) && (walk[|walk| - 1] in visiting || Repeats(walk))
  }

  lemma Prepend(nodes: Nodes, id: AgentId, child: AgentId, walk: seq<AgentId>)
    requires child in Children(nodes, id) && WalkFrom(nodes, child, walk)
    ensures WalkFrom(nodes, id, [id] + walk)
    ensures ([id] + walk)[|walk|] == walk[|walk| - 1]
  {
    var longer := [id] + walk;
    forall i | 0 <= i < |longer| - 1 ensures longer[i + 1] in Children(nodes, longer[i]) {
      if i > 0 {
        assert walk[i - 1 + 1] in Children(nodes, walk[i - 1]);
      }
    }
  }

  /** A bad walk of a child, seen from its parent, is a bad walk of the parent. */
  lemma BadFromChild(nodes: Nodes, id: AgentId, visiting: set<AgentId>, child: AgentId, walk: seq<AgentId>)
    requires child in Children(nodes, id) && Bad(nodes, child, visiting + {id}, walk)
    ensures Bad(nodes, id, visiting, [id] + walk)
  {
    Prepend(nodes, id, child, walk);
    var longer := [id] + walk;
    if Repeats(walk) {
      var i, j :| 0 <= i < j < |walk| && walk[i] == walk[j];
      assert longer[i + 1] == longer[j + 1];
    } else if walk[|walk| - 1] !in visiting {
      assert longer[0] == longer[|walk|];
    }
  }

  /** A bad walk that goes on past its start is a bad walk of some child. */
  lemma BadOfChild(nodes: Nodes, id: AgentId, visiting: set<AgentId>, walk: seq<AgentId>)
    requires Bad(nodes, id, visiting, walk) && id !in visiting
    ensures |walk| > 1 && walk[1] in Children(nodes, id)
    ensures exists shorter :: Bad(nodes, walk[1], visiting + {id}, shorter)
  {
    assert |walk| > 1;
    assert walk[0 + 1] in Children(nodes, walk[0]);
    var tail := walk[1..];
    TailIsWalk(nodes, walk);
    if walk[|walk| - 1] in visiting {
      assert Bad(nodes, walk[1], visiting + {id}, tail);
    } else {
      var i, j :| 0 <= i < j < |walk| && walk[i] == walk[j];
      if i > 0 {
        assert tail[i - 1] == tail[j - 1];
        assert Bad(nodes, walk[1], visiting + {id}, tail);
      } else {
        HeadIsWalk(nodes, tail, j);
        assert Bad(nodes, walk[1], visiting + {id}, tail[..j]);
      }
    }
  }

  lemma TailIsWalk(nodes: Nodes, walk: seq<AgentId>)
    requires IsWalk(nodes, walk) && |walk| > 1
    ensures IsWalk(nodes, walk[1..])
  {
    forall i | 0 <= i < |walk[1..]| - 1 ensures walk[1..][i + 1] in Children(nodes, walk[1..][i]) {
      assert walk[i + 1 + 1] in Children(nodes, walk[i + 1]);
    }
  }

  lemma HeadIsWalk(nodes: Nodes, walk: seq<AgentId>, n: nat)
    requires IsWalk(nodes, walk) && 0 < n <= |walk|
    ensures IsWalk(nodes, walk[..n])
  {
    forall i | 0 <= i < n - 1 ensures walk[..n][i + 1] in Children(nodes, walk[..n][i]) {
      assert walk[i + 1] in Children(nodes, walk[i]);
    }
  }

  // ---- the depth-first search ----

  /** The set the search marks agents in while it is below them. */
  class Visiting {
    var ids: set<AgentId>

    constructor ()
      ensures ids == {}
    {
      ids := {};
    }
  }

  /** Depth-first search. It says yes exactly when some walk from `id` runs into an agent being visited or
      repeats one; after a no, the marks are as before. */
  method HasCycle(id: AgentId, nodes: Nodes, visiting: Visiting) returns (cyclic: bool)
    modifies visiting
    ensures cyclic <==> exists walk :: Bad(nodes, id, old(visiting.ids), walk)
    ensures !cyclic ==> visiting.ids == old(visiting.ids)
    decreases nodes.Keys - visiting.ids, if id in nodes then 1 else 0
  {
    ghost var before := visiting.ids;
    if id in visiting.ids {
      assert Bad(nodes, id, before, [id]);
      return true;
    }
    visiting.ids := visiting.ids + {id};
    ghost var walk: seq<AgentId> := [];
    if id in nodes {
      var children := nodes[id].children;
      for k := 0 to |children|
        invariant visiting.ids == before + {id}
        invariant forall j :: 0 <= j < k ==> !exists walk :: Bad(nodes, children[j], before + {id}, walk)
      {
        assert id in nodes.Keys - before && id !in nodes.Keys - visiting.ids;
        var found := HasCycle(children[k], nodes, visiting);
        if found {
          walk :| Bad(nodes, children[k], before + {id}, walk);
          BadFromChild(nodes, id, before, children[k], walk);
          return true;
        }
      }
    }
    visiting.ids := visiting.ids - {id};
    if walk :| Bad(nodes, id, before, walk) {
      BadOfChild(nodes, id, before, walk);
      assert false;
    }
    return false;
  }

  /** With no marks set, the search decides whether a cycle can be reached. */
  lemma BadFromScratchIsCycle(nodes: Nodes, id: AgentId)
    ensures (exists walk :: Bad(nodes, id, {}, walk)) <==> CycleReachable(nodes, id)
  {
    if CycleReachable(nodes, id) {
      var walk :| WalkFrom(nodes, id, walk) && Repeats(walk);
      assert Bad(nodes, id, {}, walk);
    }
  }

  // ---- building the tree ----

  predicate DistinctIds(agents: seq<AgentConfig>) {
    forall i, j :: 0 <= i < j < |agents| ==> agents[i].id != agents[j].id
  }

  /** The id-to-node map the loop fills. */
  function NodesOf(agents: seq<AgentConfig>): Nodes {
    if agents == [] then map[]
    else
      var last := agents[|agents| - 1];
      NodesOf(agents[..|agents| - 1])[last.id := AgentNode(last.model, last.children)]
  }

  predicate IsSomeonesChild(agents: seq<AgentConfig>, id: AgentId) {
    exists i :: 0 <= i < |agents| && id in agents[i].children
  }

  /** The agents among `some` that are nobody's child in `all`, in order. */
  function Roots(some: seq<AgentConfig>, all: seq<AgentConfig>): (roots: seq<AgentId>)
    ensures forall id :: id in roots <==> exists i :: 0 <= i < |some| && some[i].id == id && !IsSomeonesChild(all, id)
  {
    if some == [] then []
    else (if IsSomeonesChild(all, some[0].id) then [] else [some[0].id]) + Roots(some[1..], all)
  }

  function OwnRoot(one: AgentConfig, all: seq<AgentConfig>): seq<AgentId> {
    if IsSomeonesChild(all, one.id) then [] else [one.id]
  }

  lemma RootsOneInFront(one: AgentConfig, more: seq<AgentConfig>, all: seq<AgentConfig>)
    ensures Roots([one] + more, all) == OwnRoot(one, all) + Roots(more, all)
  {
    assert ([one] + more)[1..] == more;
  }

  lemma RootsOfOne(one: AgentConfig, all: seq<AgentConfig>)
    ensures Roots([one], all) == OwnRoot(one, all)
  {
    assert [one][1..] == [];
    assert Roots([], all) == [];
  }

  lemma RootsWithOneMore(one: AgentConfig, rest: seq<AgentConfig>, more: seq<AgentConfig>, all: seq<AgentConfig>)
    requires Roots(rest + more, all) == Roots(rest, all) + Roots(more, all)
    ensures Roots([one] + (rest + more), all) == Roots([one] + rest, all) + Roots(more, all)
  {
    RootsOneInFront(one, rest, all);
    RootsOneInFront(one, rest + more, all);
    Regroup(OwnRoot(one, all), Roots(rest, all), Roots(more, all));
  }

  lemma FirstOf<T>(some: seq<T>, more: seq<T>)
    requires some != []
    ensures some == [some[0]] + some[1..] && some + more == [some[0]] + (some[1..] + more)
  {
  }

  lemma NoneInFront<T>(more: seq<T>)
    ensures [] + more == more
  {
  }

  /** They stand in the order of the configurations. */
  lemma {:induction false} RootsInOrder(some: seq<AgentConfig>, more: seq<AgentConfig>, all: seq<AgentConfig>)
    ensures Roots(some + more, all) == Roots(some, all) + Roots(more, all)
  {
    if some == [] {
      NoneInFront(more);
      NoneInFront(Roots(more, all));
    } else {
      RootsInOrder(some[1..], more, all);
      FirstOf(some, more);
      RootsWithOneMore(some[0], some[1..], more, all);
    }
  }

  predicate RefsResolve(agents: seq<AgentConfig>, nodes: Nodes) {
    forall i, child :: 0 <= i < |agents| && child in agents[i].children ==> child in nodes
  }

  /** What a successful build promises. */
  ghost predicate WellFormed(tree: Tree) {
    && tree.root in tree.nodes
    && (forall id :: id in tree.nodes && id != tree.root ==>
          exists parent :: parent in tree.nodes && id in tree.nodes[parent].children)
    && (forall parent :: parent in tree.nodes ==> tree.root !in tree.nodes[parent].children)
    && (forall parent, child :: parent in tree.nodes && child in tree.nodes[parent].children ==> child in tree.nodes)
    && !CycleReachable(tree.nodes, tree.root)
  }

  lemma {:induction false} NodesOfHolds(agents: seq<AgentConfig>)
    requires DistinctIds(agents)
    ensures forall id :: id in NodesOf(agents) <==> exists i :: 0 <= i < |agents| && agents[i].id == id
    ensures forall i :: 0 <= i < |agents| ==>
              NodesOf(agents)[agents[i].id] == AgentNode(agents[i].model, agents[i].children)
  {
    if agents != [] {
      NodesOfHolds(agents[..|agents| - 1]);
    }
  }

  lemma OneRootEveryoneElseAChild(agents: seq<AgentConfig>, root: AgentId)
    requires DistinctIds(agents) && Roots(agents, agents) == [root] && RefsResolve(agents, NodesOf(agents))
    requires !CycleReachable(NodesOf(agents), root)
    ensures WellFormed(Tree(NodesOf(agents), root))
  {
    var nodes := NodesOf(agents);
    NodesOfHolds(agents);
    assert root in Roots(agents, agents);
    forall id | id in nodes && id != root
      ensures exists parent :: parent in nodes && id in nodes[parent].children
    {
      assert id !in Roots(agents, agents);
      var i :| 0 <= i < |agents| && id in agents[i].children;
      assert agents[i].id in nodes && id in nodes[agents[i].id].children;
    }
    forall parent | parent in nodes
      ensures root !in nodes[parent].children
      ensures forall child :: child in nodes[parent].children ==> child in nodes
    {
      var i :| 0 <= i < |agents| && agents[i].id == parent;
    }
  }

  ghost predicate Acceptable(agents: seq<AgentConfig>) {
    && DistinctIds(agents)
    && |Roots(agents, agents)| == 1
    && RefsResolve(agents, NodesOf(agents))
    && !CycleReachable(NodesOf(agents), Roots(agents, agents)[0])
  }

  /** What each error reports, in the order the checks are made. */
  ghost predicate Reported(agents: seq<AgentConfig>, error: TreeError) {
    match error
    case DuplicateId(id) =>
      exists i, j :: 0 <= i < j < |agents| && agents[i].id == agents[j].id == id && DistinctIds(agents[..j])
    case NoRoot => DistinctIds(agents) && Roots(agents, agents) == []
    case MultipleRoots(ids) => DistinctIds(agents) && ids == Roots(agents, agents) && |ids| > 1
    case InvalidChildRef(agent, child) =>
      && DistinctIds(agents) && |Roots(agents, agents)| == 1
      && exists i :: 0 <= i < |agents| && agents[i].id == agent && child in agents[i].children && child !in NodesOf(agents)
    case CycleDetected(root) =>
      && DistinctIds(agents) && Roots(agents, agents) == [root] && RefsResolve(agents, NodesOf(agents))
      && CycleReachable(NodesOf(agents), root)
  }

  lemma ReportDuplicate(agents: seq<AgentConfig>, i: nat, j: nat)
    requires i < j < |agents| && agents[i].id == agents[j].id && DistinctIds(agents[..j])
    ensures !DistinctIds(agents) && Reported(agents, DuplicateId(agents[j].id))
  {
  }

  lemma OneMoreNode(agents: seq<AgentConfig>, k: nat)
    requires k < |agents| && DistinctIds(agents[..k])
    ensures agents[k].id in NodesOf(agents[..k]) ==> exists i :: 0 <= i < k && agents[i].id == agents[k].id
    ensures agents[k].id !in NodesOf(agents[..k]) ==> DistinctIds(agents[..k + 1])
    ensures NodesOf(agents[..k + 1])
         == NodesOf(agents[..k])[agents[k].id := AgentNode(agents[k].model, agents[k].children)]
  {
    var front := agents[..k];
    NodesOfHolds(front);
    assert agents[..k + 1][..k] == front;
    if agents[k].id in NodesOf(front) {
      var i :| 0 <= i < k && front[i].id == agents[k].id;
      assert agents[i].id == agents[k].id;
    } else {
      forall i | 0 <= i < k ensures front[i].id != agents[k].id {
      }
      DistinctWithOneMore(front, agents[k]);
      assert agents[..k + 1] == front + [agents[k]];
    }
  }

  lemma DistinctWithOneMore(agents: seq<AgentConfig>, one: AgentConfig)
    requires DistinctIds(agents) && forall i :: 0 <= i < |agents| ==> agents[i].id != one.id
    ensures DistinctIds(agents + [one])
  {
  }

  /** The first loop: one node per configuration, unless an id comes twice. */
  method BuildNodes(agents: seq<AgentConfig>) returns (r: Result<Nodes, TreeError>)
    ensures r.Ok? <==> DistinctIds(agents)
    ensures r.Ok? ==> r.value == NodesOf(agents)
    ensures r.Err? ==> r.error.DuplicateId? && Reported(agents, r.error)
  {
    var nodes: Nodes := map[];
    for k := 0 to |agents|
      invariant nodes == NodesOf(agents[..k]) && DistinctIds(agents[..k])
    {
      OneMoreNode(agents, k);
      if agents[k].id in nodes {
        ghost var i :| 0 <= i < k && agents[i].id == agents[k].id;
        ReportDuplicate(agents, i, k);
        return Err(DuplicateId(agents[k].id));
      }
      nodes := nodes[agents[k].id := AgentNode(agents[k].model, agents[k].children)];
    }
    assert agents[..|agents|] == agents;
    return Ok(nodes);
  }

  lemma ReportRef(agents: seq<AgentConfig>, i: nat, child: AgentId)
    requires DistinctIds(agents) && |Roots(agents, agents)| == 1
    requires i < |agents| && child in agents[i].children && child !in NodesOf(agents)
    ensures Reported(agents, InvalidChildRef(agents[i].id, child)) && !RefsResolve(agents, NodesOf(agents))
  {
  }

  method FirstMissing(children: seq<AgentId>, nodes: Nodes) returns (missing: Option<AgentId>)
    ensures missing.None? ==> forall child :: child in children ==> child in nodes
    ensures missing.Some? ==> missing.value in children && missing.value !in nodes
  {
    for c := 0 to |children|
      invariant forall j :: 0 <= j < c ==> children[j] in nodes
    {
      if children[c] !in nodes {
        return Some(children[c]);
      }
    }
    return None;
  }

  /** The third loop: every child named is an agent. */
  method CheckRefs(agents: seq<AgentConfig>, nodes: Nodes) returns (bad: Option<TreeError>)
    requires DistinctIds(agents) && |Roots(agents, agents)| == 1 && nodes == NodesOf(agents)
    ensures bad.None? <==> RefsResolve(agents, nodes)
    ensures bad.Some? ==> bad.value.InvalidChildRef? && Reported(agents, bad.value)
  {
    for k := 0 to |agents|
      invariant forall i, child :: 0 <= i < k && child in agents[i].children ==> child in nodes
    {
      var missing := FirstMissing(agents[k].children, nodes);
      if missing.Some? {
        ReportRef(agents, k, missing.value);
        return Some(InvalidChildRef(agents[k].id, missing.value));
      }
    }
    return None;
  }

  /** Builds the tree exactly when the configurations are acceptable; otherwise names what is wrong. */
  method FromConfigs(agents: seq<AgentConfig>) returns (r: Result<Tree, TreeError>)
    ensures r.Ok? <==> Acceptable(agents)
    ensures r.Ok? ==> r.value.nodes == NodesOf(agents) && WellFormed(r.value)
    ensures r.Err? ==> Reported(agents, r.error)
  {
    var built := BuildNodes(agents);
    if built.Err? {
      return Err(built.error);
    }
    var nodes := built.value;
    var roots := Roots(agents, agents);
    if |roots| == 0 {
      return Err(NoRoot);
    }
    if |roots| > 1 {
      return Err(MultipleRoots(roots));
    }
    var root := roots[0];
    var bad := CheckRefs(agents, nodes);
    if bad.Some? {
      return Err(bad.value);
    }
    var visiting := new Visiting();
    var cyclic := HasCycle(root, nodes, visiting);
    BadFromScratchIsCycle(nodes, root);
    if cyclic {
      return Err(CycleDetected(root));
    }
    OneRootEveryoneElseAChild(agents, root);
    return Ok(Tree(nodes, root));
  }

  // ---- what a well-formed tree is like ----

  lemma {:induction false} Pigeonhole(walk: seq<AgentId>, ids: set<AgentId>)
    requires forall i :: 0 <= i < |walk| ==> walk[i] in ids
    requires !Repeats(walk)
    ensures |walk| <= |ids|
  {
    if walk != [] {
      var n := |walk| - 1;
      forall i | 0 <= i < n ensures walk[..n][i] in ids - {walk[n]} {
        assert walk[..n][i] == walk[i];
      }
      assert forall i, j :: 0 <= i < j < n ==> walk[..n][i] != walk[..n][j];
      Pigeonhole(walk[..n], ids - {walk[n]});
    }
  }

  lemma {:induction false} WalkStaysInside(tree: Tree, walk: seq<AgentId>, i: nat)
    requires WellFormed(tree) && IsWalk(tree.nodes, walk) && walk[0] in tree.nodes && i < |walk|
    ensures walk[i] in tree.nodes
  {
    if i > 0 {
      WalkStaysInside(tree, walk, i - 1);
      assert walk[i - 1 + 1] in Children(tree.nodes, walk[i - 1]);
    }
  }

  /** Every walk from the root visits an agent at most once, so it is no longer than there are agents. */
  lemma WalksFromRootAreShort(tree: Tree, walk: seq<AgentId>)
    requires WellFormed(tree) && WalkFrom(tree.nodes, tree.root, walk)
    ensures !Repeats(walk)
    ensures |walk| <= |tree.nodes|
  {
    assert !Repeats(walk);
    forall i | 0 <= i < |walk| ensures walk[i] in tree.nodes.Keys {
      WalkStaysInside(tree, walk, i);
    }
    Pigeonhole(walk, tree.nodes.Keys);
  }

  lemma WalksJoin(nodes: Nodes, left: seq<AgentId>, right: seq<AgentId>)
    requires IsWalk(nodes, left) && IsWalk(nodes, right) && left[|left| - 1] == right[0]
    ensures WalkFrom(nodes, left[0], left + right[1..])
  {
    var walk := left + right[1..];
    forall i | 0 <= i < |walk| - 1 ensures walk[i + 1] in Children(nodes, walk[i]) {
      if i < |left| - 1 {
        assert left[i + 1] in Children(nodes, left[i]);
      } else {
        var k := i - (|left| - 1);
        assert right[k + 1] in Children(nodes, right[k]);
      }
    }
  }

  /** Going up from an agent to its parents, for at most `n` steps, ends at the root or makes a walk of
      `n + 1` agents. */
  lemma {:induction false} WalkUp(tree: Tree, id: AgentId, n: nat) returns (walk: seq<AgentId>)
    requires WellFormed(tree) && id in tree.nodes
    ensures IsWalk(tree.nodes, walk) && walk[|walk| - 1] == id && walk[0] in tree.nodes
    ensures walk[0] == tree.root || |walk| == n + 1
  {
    walk := [id];
    if n > 0 && id != tree.root {
      var shorter := WalkUp(tree, id, n - 1);
      if shorter[0] == tree.root {
        walk := shorter;
      } else {
        var parent :| parent in tree.nodes && shorter[0] in tree.nodes[parent].children;
        Prepend(tree.nodes, parent, shorter[0], shorter);
        walk := [parent] + shorter;
      }
    }
  }

  /** A cycle further on is a cycle. */
  lemma CycleFurtherOn(nodes: Nodes, id: AgentId, later: AgentId)
    requires Reaches(nodes, id, later) && CycleReachable(nodes, later)
    ensures CycleReachable(nodes, id)
  {
    var left :| WalkFrom(nodes, id, left) && left[|left| - 1] == later;
    var right :| WalkFrom(nodes, later, right) && Repeats(right);
    WalksJoin(nodes, left, right);
    var i, j :| 0 <= i < j < |right| && right[i] == right[j];
    var walk := left + right[1..];
    assert walk[|left| - 1 + i] == right[i] && walk[|left| - 1 + j] == right[j];
    assert Repeats(walk);
  }

  /** The check looks only where the root can reach. All agents are reachable from the root exactly when
      no cycle is left anywhere. */
  lemma AllReachableIffAcyclic(tree: Tree)
    requires WellFormed(tree)
    ensures (forall id :: id in tree.nodes ==> Reaches(tree.nodes, tree.root, id))
       <==> (forall id :: id in tree.nodes ==> !CycleReachable(tree.nodes, id))
  {
    forall id | id in tree.nodes && Reaches(tree.nodes, tree.root, id) && CycleReachable(tree.nodes, id)
      ensures false
    {
      CycleFurtherOn(tree.nodes, tree.root, id);
    }
    if forall id :: id in tree.nodes ==> !CycleReachable(tree.nodes, id) {
      forall id | id in tree.nodes ensures Reaches(tree.nodes, tree.root, id) {
        var walk := WalkUp(tree, id, |tree.nodes|);
        if walk[0] != tree.root {
          assert !CycleReachable(tree.nodes, walk[0]);
          assert !Repeats(walk);
          forall i | 0 <= i < |walk| ensures walk[i] in tree.nodes.Keys {
            WalkStaysInside(tree, walk, i);
          }
          Pigeonhole(walk, tree.nodes.Keys);
        }
        assert WalkFrom(tree.nodes, tree.root, walk);
      }
    }
  }

  lemma SecondIsChild(nodes: Nodes, walk: seq<AgentId>)
    requires IsWalk(nodes, walk) && |walk| > 1
    ensures walk[1] in Children(nodes, walk[0])
  {
    assert walk[0 + 1] in Children(nodes, walk[0]);
  }

  lemma ChildlessHasNoCycle(nodes: Nodes, id: AgentId)
    requires Children(nodes, id) == []
    ensures !CycleReachable(nodes, id)
  {
    forall walk | WalkFrom(nodes, id, walk) && Repeats(walk) ensures false {
      SecondIsChild(nodes, walk);
    }
  }

  lemma TwoAgentsInACircle(nodes: Nodes)
    requires Children(nodes, "a") == ["b"] && Children(nodes, "b") == ["a"]
    ensures CycleReachable(nodes, "a")
  {
    var cycle := ["a", "b", "a"];
    forall i | 0 <= i < |cycle| - 1 ensures cycle[i + 1] in Children(nodes, cycle[i]) {
      assert i == 0 || i == 1;
    }
    assert WalkFrom(nodes, "a", cycle);
    assert cycle[0] == cycle[2];
  }

  /** A childless root, and two agents that are each other's child. */
  function Detached(): seq<AgentConfig> {
    [AgentConfig("r", "m", []), AgentConfig("a", "m", ["b"]), AgentConfig("b", "m", ["a"])]
  }

  lemma DetachedHasOneRoot()
    ensures Roots(Detached(), Detached()) == ["r"]
  {
    var agents := Detached();
    assert "b" in agents[1].children && "a" in agents[2].children;
    assert !IsSomeonesChild(agents, "r") && IsSomeonesChild(agents, "a") && IsSomeonesChild(agents, "b");
    assert agents[1..] == [agents[1], agents[2]] && agents[1..][1..] == [agents[2]] && agents[1..][1..][1..] == [];
  }

  lemma DetachedNodes()
    ensures DistinctIds(Detached())
    ensures var nodes := NodesOf(Detached());
            && nodes.Keys == {"r", "a", "b"}
            && Children(nodes, "r") == [] && Children(nodes, "a") == ["b"] && Children(nodes, "b") == ["a"]
  {
    var agents := Detached();
    assert agents[0].id == "r" && agents[1].id == "a" && agents[2].id == "b";
    NodesOfHolds(agents);
  }

  lemma DetachedRefsResolve()
    ensures RefsResolve(Detached(), NodesOf(Detached()))
  {
    DetachedNodes();
    forall i, child | 0 <= i < |Detached()| && child in Detached()[i].children
      ensures child in NodesOf(Detached())
    {
      assert i == 0 || i == 1 || i == 2;
      assert child in NodesOf(Detached()).Keys;
    }
  }

  /** A cycle the root cannot reach does get through. */
  lemma UnreachableCycleIsAccepted()
    ensures Acceptable(Detached()) && CycleReachable(NodesOf(Detached()), "a")
  {
    DetachedHasOneRoot();
    DetachedNodes();
    DetachedRefsResolve();
    ChildlessHasNoCycle(NodesOf(Detached()), "r");
    TwoAgentsInACircle(NodesOf(Detached()));
  }
}
