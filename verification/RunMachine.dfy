/**
  A run as a state machine: the history so far and the caller stack, changed by one action at a time.
  `Invariant` holds in every state such a run can reach; `RunSteps` shows that every played script is
  a run of the machine.
 */
module RunMachine {
  import opened Wrappers
  import opened AgentTree
  import opened Run

  datatype State = State(h: History, path: seq<Frame>)

  datatype Action =
    | Decide(tool: string, approved: bool)
    | Charge(tool: string, dispatched: bool)
    | Fold(calls: nat)
    | Push(agent: AgentId)
    | Leave
    | End(outcome: Outcome)
    | Drop

  function Top(path: seq<Frame>): Frame
    requires path != []
  {
    path[|path| - 1]
  }

  function Pop(path: seq<Frame>): seq<Frame>
    requires path != []
  {
    path[..|path| - 1]
  }

  predicate Resolves(env: Env, agent: AgentId) {
    agent in env.tree.nodes && env.tree.nodes[agent].model in env.resolvable
  }

  predicate JustApproved(h: History, tool: string) {
    h.Log? && h.event == Decided(tool, true)
  }

  predicate Enabled(env: Env, s: State, a: Action) {
    match a
    case Decide(_, _) => true
    case Charge(tool, dispatched) =>
      JustApproved(s.h, tool) && tool != CALL_AGENT && MayCharge(env, s.h) && dispatched == !CodeOnly(env, tool)
    case Fold(n) => env.ptcEnabled && s.h.Log? && s.h.event == Charged(RUN_CODE, true) && n < U32
    case Push(agent) =>
      && JustApproved(s.h, CALL_AGENT) && s.path != []
      && IsChild(env.tree, Top(s.path).agent, agent)
      && WithinLimits(env.limits, Top(s.path).depth + 1, Counted(s.h), Spawns(s.h))
    case Leave => |s.path| > 1 && !Resolves(env, Top(s.path).agent)
    case End(_) => s.path != [] && Resolves(env, Top(s.path).agent)
    case Drop => |s.path| > 1 && Resolves(env, Top(s.path).agent) && (Watchdog(s.h).Some? || env.mayCancel)
  }

  function After(env: Env, s: State, a: Action): State
    requires Enabled(env, s, a)
  {
    match a
    case Decide(tool, approved) => State(Log(s.h, Decided(tool, approved)), s.path)
    case Charge(tool, dispatched) => State(Log(s.h, Charged(tool, dispatched)), s.path)
    case Fold(n) => State(Log(s.h, Folded(n)), s.path)
    case Push(agent) =>
      var frame := Frame(agent, Spawns(s.h) + 1, Top(s.path).depth + 1);
      State(Log(s.h, Spawned(frame.node, agent, Top(s.path).node)), s.path + [frame])
    case Leave => State(s.h, Pop(s.path))
    case End(outcome) => State(Log(s.h, Ended(Top(s.path).node, outcome)), Pop(s.path))
    case Drop => State(Log(s.h, Dropped(Top(s.path).node)), Pop(s.path))
  }

  /** Where the run of a root whose model resolves begins. */
  function Initial(env: Env): State {
    State(Start, [RootFrame(env)])
  }

  // ---- runs of the machine ----

  datatype Trace = Done | Then(before: Trace, action: Action)

  /** The trace can be run from `s` and leads to `t`. */
  ghost predicate RunsTo(env: Env, s: State, trace: Trace, t: State) {
    match trace
    case Done => s == t
    case Then(b, a) => exists m :: RunsTo(env, s, b, m) && Enabled(env, m, a) && After(env, m, a) == t
  }

  ghost predicate Leads(env: Env, s: State, t: State) {
    exists trace :: RunsTo(env, s, trace, t)
  }

  lemma StepLeads(env: Env, s: State, a: Action)
    requires Enabled(env, s, a)
    ensures Leads(env, s, After(env, s, a))
  {
    assert RunsTo(env, s, Done, s);
    assert RunsTo(env, s, Then(Done, a), After(env, s, a));
  }

  lemma StayLeads(env: Env, s: State)
    ensures Leads(env, s, s)
  {
    assert RunsTo(env, s, Done, s);
  }

  lemma {:induction false} TracesJoin(env: Env, r: State, first: Trace, s: State, second: Trace, t: State)
    requires RunsTo(env, r, first, s) && RunsTo(env, s, second, t)
    ensures Leads(env, r, t)
    decreases second
  {
    match second
    case Done => assert RunsTo(env, r, first, t);
    case Then(b, a) =>
      var m :| RunsTo(env, s, b, m) && Enabled(env, m, a) && After(env, m, a) == t;
      TracesJoin(env, r, first, s, b, m);
      var joined :| RunsTo(env, r, joined, m);
      assert RunsTo(env, r, Then(joined, a), t);
  }

  lemma LeadsJoin(env: Env, r: State, s: State, t: State)
    requires Leads(env, r, s) && Leads(env, s, t)
    ensures Leads(env, r, t)
  {
    var first :| RunsTo(env, r, first, s);
    var second :| RunsTo(env, s, second, t);
    TracesJoin(env, r, first, s, second, t);
  }

  // ---- the caller stack is a path of the agent tree ----

  predicate FrameFits(env: Env, nodes: ExecutionNodes, path: seq<Frame>, i: nat)
    requires i < |path|
  {
    var f := path[i];
    && f.depth == i && f.node in nodes
    && nodes[f.node].agent == f.agent && nodes[f.node].depth == i
    && (i == 0 ==> f == RootFrame(env))
    && (i > 0 ==> nodes[f.node].parent == Some(path[i - 1].node) && IsChild(env.tree, path[i - 1].agent, f.agent))
  }

  /** Frame i stands at depth i, on an execution node of depth i that hangs below the node of frame i - 1, for
      an agent that is a child of the agent of frame i - 1. */
  predicate StackFits(env: Env, nodes: ExecutionNodes, path: seq<Frame>) {
    forall i :: 0 <= i < |path| ==> FrameFits(env, nodes, path, i)
  }

  predicate NodeFits(env: Env, nodes: ExecutionNodes, n: nat)
    requires n in nodes
  {
    match nodes[n].parent
    case None => n == 0 && nodes[n].agent == env.tree.root && nodes[n].depth == 0
    case Some(p) =>
      && p < n && p in nodes
      && nodes[n].depth == nodes[p].depth + 1 < env.limits.maxDepth
      && IsChild(env.tree, nodes[p].agent, nodes[n].agent)
  }

  /** The nodes are numbered from 0 to `last`. */
  ghost predicate Numbered(nodes: ExecutionNodes, last: nat) {
    forall n: nat :: n in nodes <==> n <= last
  }

  /** The execution tree has the root and one node per child call, each one level below its parent, within the
      depth limit, and mirrors the agent tree. */
  ghost predicate TreeFits(env: Env, h: History, nodes: ExecutionNodes) {
    && Numbered(nodes, Spawns(h))
    && (forall n :: n in nodes ==> NodeFits(env, nodes, n))
  }

  predicate BudgetKept(env: Env, h: History) {
    Spawns(h) <= env.limits.maxChildAgentCalls
    && (env.limits.maxToolCalls == 0 ==> Spawns(h) == 0)
  }

  ghost predicate Structure(env: Env, s: State) {
    var nodes := NodesAfter(env.tree.root, s.h);
    TreeFits(env, s.h, nodes) && StackFits(env, nodes, s.path) && BudgetKept(env, s.h)
  }

  lemma InitialStructure(env: Env)
    ensures Structure(env, Initial(env))
  {
    var s := Initial(env);
    assert FrameFits(env, NodesAfter(env.tree.root, Start), s.path, 0);
  }

  /** Only the statuses differ. */
  predicate SameShape(a: ExecutionNodes, b: ExecutionNodes) {
    a.Keys == b.Keys && forall n :: n in a ==> b[n].(status := a[n].status) == a[n]
  }

  lemma ShapeIsEnough(env: Env, h: History, h': History, a: ExecutionNodes, b: ExecutionNodes, path: seq<Frame>)
    requires SameShape(a, b) && Spawns(h) == Spawns(h')
    requires TreeFits(env, h, a) && StackFits(env, a, path)
    ensures TreeFits(env, h', b) && StackFits(env, b, path)
  {
    forall n | n in b ensures NodeFits(env, b, n) {
      assert NodeFits(env, a, n);
    }
    forall i | 0 <= i < |path| ensures FrameFits(env, b, path, i) {
      assert FrameFits(env, a, path, i);
    }
  }

  lemma PopFits(env: Env, nodes: ExecutionNodes, path: seq<Frame>)
    requires path != [] && StackFits(env, nodes, path)
    ensures StackFits(env, nodes, Pop(path))
  {
    forall i | 0 <= i < |path| - 1 ensures FrameFits(env, nodes, Pop(path), i) {
      assert FrameFits(env, nodes, path, i);
    }
  }

  lemma NodesStillFit(env: Env, nodes: ExecutionNodes, node: nat, agent: AgentId, parent: nat, n: nat)
    requires parent in nodes && parent < node && node !in nodes
    requires IsChild(env.tree, nodes[parent].agent, agent) && nodes[parent].depth + 1 < env.limits.maxDepth
    requires n == node || (n in nodes && NodeFits(env, nodes, n))
    ensures NodeFits(env, nodes[node := ChildNode(nodes, agent, parent)], n)
  {
  }

  lemma TreeGrows(env: Env, h: History, nodes: ExecutionNodes, node: nat, agent: AgentId, parent: nat)
    requires TreeFits(env, h, nodes) && parent in nodes && node == Spawns(h) + 1
    requires IsChild(env.tree, nodes[parent].agent, agent) && nodes[parent].depth + 1 < env.limits.maxDepth
    ensures node !in nodes
    ensures TreeFits(env, Log(h, Spawned(node, agent, parent)), nodes[node := ChildNode(nodes, agent, parent)])
  {
    var nodes' := nodes[node := ChildNode(nodes, agent, parent)];
    forall n | n in nodes' ensures NodeFits(env, nodes', n) {
      NodesStillFit(env, nodes, node, agent, parent, n);
    }
    NumberedGrows(nodes, node, ChildNode(nodes, agent, parent));
  }

  lemma NumberedGrows(nodes: ExecutionNodes, node: nat, grown: ExecutionNode)
    requires node > 0 && Numbered(nodes, node - 1)
    ensures Numbered(nodes[node := grown], node)
  {
  }

  lemma StackGrows(env: Env, nodes: ExecutionNodes, path: seq<Frame>, frame: Frame)
    requires path != [] && StackFits(env, nodes, path) && frame.node !in nodes
    requires frame.depth == |path| && IsChild(env.tree, Top(path).agent, frame.agent)
    ensures StackFits(env, nodes[frame.node := ChildNode(nodes, frame.agent, Top(path).node)], path + [frame])
  {
    var nodes' := nodes[frame.node := ChildNode(nodes, frame.agent, Top(path).node)];
    assert FrameFits(env, nodes, path, |path| - 1);
    forall i | 0 <= i < |path| + 1 ensures FrameFits(env, nodes', path + [frame], i) {
      if i < |path| {
        assert FrameFits(env, nodes, path, i);
      }
    }
  }

  lemma PushFits(env: Env, s: State, agent: AgentId)
    requires Structure(env, s) && Enabled(env, s, Push(agent))
    ensures Structure(env, After(env, s, Push(agent)))
  {
    var nodes := NodesAfter(env.tree.root, s.h);
    var top := Top(s.path);
    var frame := Frame(agent, Spawns(s.h) + 1, top.depth + 1);
    var spawned := Log(s.h, Spawned(frame.node, agent, top.node));
    var nodes' := nodes[frame.node := ChildNode(nodes, agent, top.node)];
    assert After(env, s, Push(agent)) == State(spawned, s.path + [frame]);
    assert NodesAfter(env.tree.root, spawned) == nodes';
    assert TreeFits(env, spawned, nodes') && frame.node !in nodes by {
      assert FrameFits(env, nodes, s.path, |s.path| - 1);
      TreeGrows(env, s.h, nodes, frame.node, agent, top.node);
    }
    assert StackFits(env, nodes', s.path + [frame]) by {
      assert FrameFits(env, nodes, s.path, |s.path| - 1);
      StackGrows(env, nodes, s.path, frame);
    }
  }

  ghost predicate ShapeSame(env: Env, s: State, t: State) {
    && SameShape(NodesAfter(env.tree.root, s.h), NodesAfter(env.tree.root, t.h))
    && Spawns(s.h) == Spawns(t.h)
    && (t.path == s.path || (s.path != [] && t.path == Pop(s.path)))
  }

  lemma ShapeKept(env: Env, s: State, a: Action)
    requires Enabled(env, s, a) && !a.Push?
    ensures ShapeSame(env, s, After(env, s, a))
  {
  }

  lemma ShapeKeepsStructure(env: Env, s: State, t: State)
    requires Structure(env, s) && ShapeSame(env, s, t)
    ensures Structure(env, t)
  {
    var nodes' := NodesAfter(env.tree.root, t.h);
    ShapeIsEnough(env, s.h, t.h, NodesAfter(env.tree.root, s.h), nodes', s.path);
    if t.path != s.path {
      PopFits(env, nodes', s.path);
    }
  }

  lemma StructureKept(env: Env, s: State, a: Action)
    requires Structure(env, s) && Enabled(env, s, a)
    ensures Structure(env, After(env, s, a))
  {
    if a.Push? {
      PushFits(env, s, a.agent);
    } else {
      ShapeKept(env, s, a);
      ShapeKeepsStructure(env, s, After(env, s, a));
    }
  }

  // ---- who is still running ----

  predicate HasDropped(h: History, n: nat) {
    match h
    case Start => false
    case Log(b, e) => e == Dropped(n) || HasDropped(b, n)
  }

  /** How often the layer of `n` has come to an end. */
  function Endings(h: History, n: nat): nat {
    match h
    case Start => 0
    case Log(b, Ended(m, _)) => Endings(b, n) + if m == n then 1 else 0
    case Log(b, _) => Endings(b, n)
  }

  /** Did the layer of `n` return. */
  predicate HasReturned(h: History, n: nat) {
    match h
    case Start => false
    case Log(b, e) => (e.Ended? && e.node == n && e.outcome.Returned?) || HasReturned(b, n)
  }

  predicate OnStack(path: seq<Frame>, n: nat) {
    exists i :: 0 <= i < |path| && path[i].node == n
  }

  /** A node runs while its frame is on the stack, and for good if its model alias did not resolve or its
      future was dropped; it is completed when its layer returned, broken when it ended otherwise. */
  ghost predicate StatusFits(env: Env, s: State, nodes: ExecutionNodes, n: nat)
    requires n in nodes
  {
    && (nodes[n].status == Running <==>
          OnStack(s.path, n) || !Resolves(env, nodes[n].agent) || HasDropped(s.h, n))
    && (nodes[n].status == Completed <==> HasReturned(s.h, n))
    && Endings(s.h, n) == (if nodes[n].status == Running then 0 else 1)
    && (OnStack(s.path, n) ==> !HasDropped(s.h, n))
  }

  predicate NoTraceOf(h: History, n: nat) {
    !HasDropped(h, n) && Endings(h, n) == 0 && !HasReturned(h, n)
  }

  ghost predicate Statuses(env: Env, s: State) {
    var nodes := NodesAfter(env.tree.root, s.h);
    && (forall n :: n in nodes ==> StatusFits(env, s, nodes, n))
    && (forall n: nat :: n !in nodes ==> NoTraceOf(s.h, n))
  }

  lemma InitialStatuses(env: Env)
    ensures Statuses(env, Initial(env))
  {
    var s := Initial(env);
    assert s.path[0].node == 0;
  }

  /** Frames of a stack that fits have different nodes, so popping the top takes one node off it. */
  lemma OffTheStack(env: Env, nodes: ExecutionNodes, path: seq<Frame>, n: nat)
    requires path != [] && StackFits(env, nodes, path)
    ensures OnStack(Pop(path), n) <==> OnStack(path, n) && n != Top(path).node
  {
    forall i | 0 <= i < |path| ensures path[i].node in nodes && nodes[path[i].node].depth == i {
      assert FrameFits(env, nodes, path, i);
    }
    if OnStack(path, n) && n != Top(path).node {
      var i :| 0 <= i < |path| && path[i].node == n;
      assert Pop(path)[i].node == n;
    }
  }

  lemma OntoTheStack(path: seq<Frame>, frame: Frame, n: nat)
    ensures OnStack(path + [frame], n) <==> OnStack(path, n) || n == frame.node
  {
    if OnStack(path, n) {
      var i :| 0 <= i < |path| && path[i].node == n;
      assert (path + [frame])[i].node == n;
    }
    if n == frame.node {
      assert (path + [frame])[|path|].node == n;
    }
  }

  lemma StatusesAfterPush(env: Env, s: State, agent: AgentId)
    requires Structure(env, s) && Statuses(env, s) && Enabled(env, s, Push(agent))
    ensures Statuses(env, After(env, s, Push(agent)))
  {
    var nodes := NodesAfter(env.tree.root, s.h);
    var t := After(env, s, Push(agent));
    var frame := Frame(agent, Spawns(s.h) + 1, Top(s.path).depth + 1);
    var nodes' := nodes[frame.node := ChildNode(nodes, agent, Top(s.path).node)];
    forall n | n in nodes' ensures StatusFits(env, t, nodes', n) {
      OntoTheStack(s.path, frame, n);
      if n != frame.node {
        assert StatusFits(env, s, nodes, n);
      } else {
        assert NoTraceOf(s.h, n);
      }
    }
    forall n: nat | n !in nodes' ensures NoTraceOf(t.h, n) {
      assert NoTraceOf(s.h, n);
    }
  }

  lemma StatusAfterLeave(env: Env, s: State, nodes: ExecutionNodes, n: nat)
    requires StackFits(env, nodes, s.path) && Enabled(env, s, Leave) && n in nodes && StatusFits(env, s, nodes, n)
    ensures StatusFits(env, State(s.h, Pop(s.path)), nodes, n)
  {
    assert FrameFits(env, nodes, s.path, |s.path| - 1);
    OffTheStack(env, nodes, s.path, n);
  }

  lemma StatusAfterEnd(env: Env, s: State, nodes: ExecutionNodes, n: nat, outcome: Outcome)
    requires StackFits(env, nodes, s.path) && Enabled(env, s, End(outcome)) && n in nodes && StatusFits(env, s, nodes, n)
    ensures var node := Top(s.path).node;
            var t := State(Log(s.h, Ended(node, outcome)), Pop(s.path));
            StatusFits(env, t, WithStatus(nodes, node, StatusOf(outcome)), n)
  {
    assert FrameFits(env, nodes, s.path, |s.path| - 1);
    OffTheStack(env, nodes, s.path, n);
    assert OnStack(s.path, Top(s.path).node);
  }

  lemma StatusAfterDrop(env: Env, s: State, nodes: ExecutionNodes, n: nat)
    requires StackFits(env, nodes, s.path) && Enabled(env, s, Drop) && n in nodes && StatusFits(env, s, nodes, n)
    ensures StatusFits(env, State(Log(s.h, Dropped(Top(s.path).node)), Pop(s.path)), nodes, n)
  {
    assert FrameFits(env, nodes, s.path, |s.path| - 1);
    OffTheStack(env, nodes, s.path, n);
    assert OnStack(s.path, Top(s.path).node);
  }

  lemma NoTraceAfterPop(env: Env, s: State, nodes: ExecutionNodes, a: Action, n: nat)
    requires StackFits(env, nodes, s.path) && Enabled(env, s, a) && (a.Leave? || a.End? || a.Drop?)
    requires n !in nodes && NoTraceOf(s.h, n)
    ensures NoTraceOf(After(env, s, a).h, n)
  {
    assert FrameFits(env, nodes, s.path, |s.path| - 1);
  }

  lemma StatusesAfterPop(env: Env, s: State, a: Action)
    requires Structure(env, s) && Statuses(env, s) && Enabled(env, s, a)
    requires a.Leave? || a.End? || a.Drop?
    ensures Statuses(env, After(env, s, a))
  {
    var nodes := NodesAfter(env.tree.root, s.h);
    var t := After(env, s, a);
    var nodes' := NodesAfter(env.tree.root, t.h);
    forall n | n in nodes' ensures StatusFits(env, t, nodes', n) {
      StatusAfterPop(env, s, nodes, a, n);
    }
    forall n: nat | n !in nodes' ensures NoTraceOf(t.h, n) {
      NoTraceAfterPop(env, s, nodes, a, n);
    }
  }

  lemma StatusAfterPop(env: Env, s: State, nodes: ExecutionNodes, a: Action, n: nat)
    requires nodes == NodesAfter(env.tree.root, s.h) && StackFits(env, nodes, s.path)
    requires Enabled(env, s, a) && (a.Leave? || a.End? || a.Drop?)
    requires n in nodes && StatusFits(env, s, nodes, n)
    ensures var t := After(env, s, a);
            n in NodesAfter(env.tree.root, t.h) && StatusFits(env, t, NodesAfter(env.tree.root, t.h), n)
  {
    match a
    case Leave => StatusAfterLeave(env, s, nodes, n);
    case End(outcome) => StatusAfterEnd(env, s, nodes, n, outcome);
    case Drop => StatusAfterDrop(env, s, nodes, n);
  }

  lemma StatusesKept(env: Env, s: State, a: Action)
    requires Structure(env, s) && Statuses(env, s) && Enabled(env, s, a)
    ensures Statuses(env, After(env, s, a))
  {
    match a
    case Push(agent) => StatusesAfterPush(env, s, agent);
    case Leave => StatusesAfterPop(env, s, a);
    case End(_) => StatusesAfterPop(env, s, a);
    case Drop => StatusesAfterPop(env, s, a);
    case _ =>
      var nodes := NodesAfter(env.tree.root, s.h);
      var t := After(env, s, a);
      forall n | n in nodes ensures StatusFits(env, t, nodes, n) {
        assert StatusFits(env, s, nodes, n);
      }
      forall n: nat | n !in nodes ensures NoTraceOf(t.h, n) {
        assert NoTraceOf(s.h, n);
      }
  }
}
