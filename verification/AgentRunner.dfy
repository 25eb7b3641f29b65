/**
  The runner and its execution tree as the objects they are (crates/openslate-core/src/runner.rs,
  execution.rs): counters, the caller stack, the denial map and the node map, updated in place.

  `history` is the record of what happened. Every counter is proved to be what the record says, and every
  method to play its part of the script.
 */
module AgentRunner {
  import opened Wrappers
  import opened AgentTree
  import opened Run
  import RunLaws
  import RunMachine
  import RunOutcomes

  const U64: nat := 0x1_0000_0000_0000_0000

  class ExecutionTree {
    var nodes: ExecutionNodes

    constructor (root: AgentId)
      ensures nodes == map[0 := RootNode(root)]
    {
      nodes := map[0 := RootNode(root)];
    }

    /** Ids are fresh: every id below the number of nodes is taken, no other is. */
    ghost predicate Dense()
      reads this
    {
      forall n: nat :: n in nodes <==> n < |nodes|
    }

    method CreateChild(agent: AgentId, parent: nat) returns (id: nat)
      requires Dense()
      modifies this
      ensures Dense()
      ensures id == |old(nodes)| && id !in old(nodes)
      ensures nodes == old(nodes)[id := ChildNode(old(nodes), agent, parent)]
    {
      var parentDepth := if parent in nodes then nodes[parent].depth else 0;
      id := |nodes|;
      nodes := nodes[id := ExecutionNode(agent, Some(parent), parentDepth + 1, Running)];
    }

    /** An unknown id is ignored. */
    method UpdateStatus(id: nat, status: Status)
      modifies this
      ensures nodes == WithStatus(old(nodes), id, status)
      ensures |nodes| == |old(nodes)| && nodes.Keys == old(nodes).Keys
    {
      if id in nodes {
        nodes := nodes[id := nodes[id].(status := status)];
        assert nodes.Keys == old(nodes).Keys;
        assert |nodes| == |nodes.Keys|;
      }
    }
  }

  lemma AddWrapping(a: nat, b: nat, width: nat)
    requires width == U32 || width == U64
    ensures (a % width + b) % width == (a + b) % width
  {
  }

  /** What the runner has on its books: counters, denials, the tripped tool, the execution nodes and the totals. */
  datatype Books = Ledger(
    childCalls: nat,
    toolCalls: nat,
    denials: map<string, nat>,
    watchdog: Option<string>,
    nodes: ExecutionNodes,
    input: nat,
    output: nat,
    cost: real)

  /** A tool without an entry has no denial since its last approval. */
  ghost predicate DenialsCounted(denials: map<string, nat>, h: History) {
    forall tool :: (if tool in denials then denials[tool] else 0) == Streak(h, tool)
  }

  /** The books say what the history says, counters in their width. */
  ghost predicate Agrees(env: Env, h: History, b: Books) {
    && b.childCalls == Spawns(h)
    && b.toolCalls == Counted(h)
    && DenialsCounted(b.denials, h)
    && b.watchdog == Watchdog(h)
    && b.nodes == NodesAfter(env.tree.root, h)
    && b.input == Spent(h).input % U64
    && b.output == Spent(h).output % U64
    && b.cost == Spent(h).cost
  }

  lemma OneMoreTally(env: Env, h: History, b: Books, e: Event, calls: nat)
    requires Agrees(env, h, b) && (e == Folded(calls) || (e.Charged? && calls == 1))
    ensures Agrees(env, Log(h, e), b.(toolCalls := (b.toolCalls + calls) % U32))
  {
    AddWrapping(Tally(h), calls, U32);
    assert Tally(Log(h, e)) == Tally(h) + calls;
  }

  function Noted(b: Books, name: string, approved: bool): Books {
    if approved then b.(denials := b.denials - {name})
    else
      var count := (if name in b.denials then b.denials[name] else 0) + 1;
      var watchdog := if count >= APPROVAL_DENIAL_LIMIT then Some(name) else b.watchdog;
      b.(denials := b.denials[name := count], watchdog := watchdog)
  }

  function Settled(b: Books, node: nat, outcome: Outcome): Books {
    match outcome
    case Failed => b.(nodes := WithStatus(b.nodes, node, Broken))
    case Returned(usage) =>
      b.(nodes := WithStatus(b.nodes, node, Completed),
         input := (b.input + usage.input) % U64,
         output := (b.output + usage.output) % U64,
         cost := b.cost + usage.cost)
  }

  lemma OneMoreDecision(env: Env, h: History, b: Books, name: string, approved: bool)
    requires Agrees(env, h, b)
    ensures Agrees(env, Log(h, Decided(name, approved)), Noted(b, name, approved))
  {
    var h' := Log(h, Decided(name, approved));
    assert Streak(h', name) == if approved then 0 else Streak(h, name) + 1;
  }

  lemma OneMoreSpawn(env: Env, h: History, b: Books, node: nat, agent: AgentId, parent: nat)
    requires Agrees(env, h, b)
    ensures Agrees(env, Log(h, Spawned(node, agent, parent)),
                   b.(childCalls := b.childCalls + 1, nodes := b.nodes[node := ChildNode(b.nodes, agent, parent)]))
  {
  }

  lemma OneMoreEnding(env: Env, h: History, b: Books, node: nat, outcome: Outcome)
    requires Agrees(env, h, b)
    ensures Agrees(env, Log(h, Ended(node, outcome)), Settled(b, node, outcome))
  {
    if outcome.Returned? {
      AddWrapping(Spent(h).input, outcome.usage.input, U64);
      AddWrapping(Spent(h).output, outcome.usage.output, U64);
    }
  }

  lemma OneMoreDrop(env: Env, h: History, b: Books, node: nat)
    requires Agrees(env, h, b)
    ensures Agrees(env, Log(h, Dropped(node)), b)
  {
  }

  class AgentRunner {
    const env: Env
    const executionTree: ExecutionTree

    var callerStack: seq<Frame>
    var childCallCount: nat
    var toolCallCount: nat
    var denialCounts: map<string, nat>
    var watchdogTool: Option<string>
    var totalInputTokens: nat
    var totalOutputTokens: nat
    var totalCost: real
    ghost var history: History

    ghost predicate Valid()
      reads this, executionTree
    {
      && env.tree.root in env.tree.nodes
      && Agrees(env, history, OnBooks())
      && executionTree.Dense() && |executionTree.nodes| == childCallCount + 1
    }

    ghost function OnBooks(): Books
      reads this, executionTree
    {
      Ledger(childCallCount, toolCallCount, denialCounts, watchdogTool, executionTree.nodes,
                  totalInputTokens, totalOutputTokens, totalCost)
    }

    /** While something is on the stack, the runner is in a state that the machine of runs can reach. */
    ghost predicate OnTrack()
      reads this`callerStack, this`history
    {
      callerStack != [] ==> RunLaws.Reachable(env, RunMachine.State(history, callerStack))
    }

    constructor (env: Env)
      requires env.tree.root in env.tree.nodes
      ensures Valid() && fresh(executionTree)
      ensures this.env == env && history == Start && callerStack == []
    {
      this.env := env;
      executionTree := new ExecutionTree(env.tree.root);
      callerStack := [];
      childCallCount, toolCallCount := 0, 0;
      denialCounts := map[];
      watchdogTool := None;
      totalInputTokens, totalOutputTokens, totalCost := 0, 0, 0.0;
      history := Start;
    }

    // ---- the approval watchdog ----

    method NoteDenial(name: string) returns (tripped: bool)
      modifies this`denialCounts
      ensures var count := if name in old(denialCounts) then old(denialCounts)[name] else 0;
              denialCounts == old(denialCounts)[name := count + 1] && (tripped <==> count + 1 >= APPROVAL_DENIAL_LIMIT)
    {
      var count := (if name in denialCounts then denialCounts[name] else 0) + 1;
      denialCounts := denialCounts[name := count];
      tripped := count >= APPROVAL_DENIAL_LIMIT;
    }

    /** An approval ends the tool's run of denials. */
    method ClearDenials(name: string)
      requires Valid()
      modifies this`denialCounts, this`history
      ensures Valid() && history == Log(old(history), Decided(name, true))
    {
      OneMoreDecision(env, history, OnBooks(), name, true);
      denialCounts := denialCounts - {name};
      history := Log(history, Decided(name, true));
    }

    /** A denial feeds the watchdog; the last tool to reach the limit is the one on record. */
    method DeniedOutput(name: string)
      requires Valid()
      modifies this`denialCounts, this`watchdogTool, this`history
      ensures Valid() && history == Log(old(history), Decided(name, false))
    {
      OneMoreDecision(env, history, OnBooks(), name, false);
      var tripped := NoteDenial(name);
      if tripped {
        watchdogTool := Some(name);
      }
      history := Log(history, Decided(name, false));
    }

    // ---- waiting ----

    /** A permit of the abort branch is stored exactly while a tripped tool is on record. */
    method WaitFor(await: Await) returns (flow: Flow)
      requires Valid()
      ensures flow == Waiting(env, Depth(callerStack), history, await)
    {
      if await.Straight? {
        return Onward;
      }
      if watchdogTool.Some? {
        return Unwind(-1);
      }
      if env.mayCancel && await.cancelSeenAt.Some? && await.cancelSeenAt.value < |callerStack| - 1 {
        return Unwind(await.cancelSeenAt.value);
      }
      return Onward;
    }

    // ---- tool calls ----

    /** The one gate every tool call goes through. */
    method Execute(c: Call) returns (flow: Flow)
      requires Valid() && OnTrack()
      modifies this, executionTree
      ensures Valid() && OnTrack() && callerStack == old(callerStack)
      ensures Run.Step(history, flow) == PlayCall(env, old(callerStack), old(history), c)
      decreases c, 2
    {
      if callerStack != [] {
        RunLaws.ReachableCall(env, callerStack, history, c);
      }
      flow := WaitFor(c.before);
      if flow.Unwind? {
        return;
      }
      if !c.approved {
        DeniedOutput(c.name);
        return Onward;
      }
      ClearDenials(c.name);
      if c.name == CALL_AGENT {
        flow := HandleCallAgent(c);
        return;
      }
      if env.limits.maxToolCalls > 0 && toolCallCount >= env.limits.maxToolCalls {
        return Onward;
      }
      var dispatched := !OnlyFromCode(env, c);
      CountCall(c.name, dispatched);
      if !dispatched || (IsScript(env, c) && !c.hasCode) {
        return Onward;
      }
      flow := WaitFor(c.inside);
      if flow.Onward? && IsScript(env, c) && c.bridgeCalls > 0 {
        FoldCalls(c.bridgeCalls);
      }
    }

    method CountCall(name: string, dispatched: bool)
      requires Valid()
      modifies this`toolCallCount, this`history
      ensures Valid() && history == Log(old(history), Charged(name, dispatched))
    {
      OneMoreTally(env, history, OnBooks(), Charged(name, dispatched), 1);
      toolCallCount := (toolCallCount + 1) % U32;
      history := Log(history, Charged(name, dispatched));
    }

    method FoldCalls(reported: nat)
      requires Valid()
      modifies this`toolCallCount, this`history
      ensures Valid() && history == Log(old(history), Folded(Saturated(reported)))
    {
      var calls := if reported < U32 then reported else U32 - 1;
      OneMoreTally(env, history, OnBooks(), Folded(calls), calls);
      toolCallCount := (toolCallCount + calls) % U32;
      history := Log(history, Folded(calls));
    }

    // ---- delegation ----

    method HandleCallAgent(c: Call) returns (flow: Flow)
      requires Valid() && OnTrack() && RunMachine.JustApproved(history, CALL_AGENT)
      modifies this, executionTree
      ensures Valid() && OnTrack() && callerStack == old(callerStack)
      ensures Run.Step(history, flow) == PlayDelegation(env, old(callerStack), old(history), c)
      decreases c, 1
    {
      var allowed := MayCallAgent(c);
      if !allowed {
        return Onward;
      }
      var caller := callerStack[|callerStack| - 1];
      var childDepth := caller.depth + 1;
      RunLaws.ReachableSpawn(env, callerStack, history, c);
      var node := Spawn(c.target.value, caller.node);
      flow := RunAgent(Frame(c.target.value, node, childDepth), c.child);
    }

    /** The checks before a delegation, in their order. */
    method MayCallAgent(c: Call) returns (allowed: bool)
      requires Valid()
      ensures allowed == MayDelegate(env, callerStack, history, c)
    {
      if c.target.None? || !c.hasTask || callerStack == [] {
        return false;
      }
      var caller := callerStack[|callerStack| - 1];
      if !IsChild(env.tree, caller.agent, c.target.value) {
        return false;
      }
      return WithinLimits(env.limits, caller.depth + 1, toolCallCount, childCallCount);
    }

    method Spawn(agent: AgentId, parent: nat) returns (node: nat)
      requires Valid()
      modifies this`childCallCount, this`history, executionTree
      ensures Valid() && node == Spawns(old(history)) + 1
      ensures history == Log(old(history), Spawned(node, agent, parent))
    {
      OneMoreSpawn(env, history, OnBooks(), |executionTree.nodes|, agent, parent);
      childCallCount := childCallCount + 1;
      node := executionTree.CreateChild(agent, parent);
      history := Log(history, Spawned(node, agent, parent));
    }

    /** Runs a child. Its frame is pushed on entry and popped on every way out. */
    method RunAgent(frame: Frame, layer: Layer) returns (flow: Flow)
      requires Valid() && frame.agent in env.tree.nodes && callerStack != []
      requires RunLaws.Reachable(env, RunMachine.State(history, callerStack + [frame]))
      modifies this, executionTree
      ensures Valid() && OnTrack() && callerStack == old(callerStack)
      ensures Run.Step(history, flow) == PlayChild(env, old(callerStack) + [frame], old(history), layer)
      decreases layer, 2
    {
      RunLaws.ReachableChild(env, callerStack, frame, history, layer);
      callerStack := callerStack + [frame];
      if env.tree.nodes[frame.agent].model !in env.resolvable {
        callerStack := callerStack[..|callerStack| - 1];
        return Onward;
      }
      var ending := ExecuteRun(layer);
      match ending {
        case Ends(outcome) =>
          Finish(frame.node, outcome);
          flow := Onward;
        case Gone(level) =>
          OneMoreDrop(env, history, OnBooks(), frame.node);
          history := Log(history, Dropped(frame.node));
          flow := Unwind(level);
      }
      callerStack := callerStack[..|callerStack| - 1];
    }

    method AccumulateTokens(usage: Usage)
      modifies this`totalInputTokens, this`totalOutputTokens, this`totalCost
      ensures totalInputTokens == (old(totalInputTokens) + usage.input) % U64
      ensures totalOutputTokens == (old(totalOutputTokens) + usage.output) % U64
      ensures totalCost == old(totalCost) + usage.cost
    {
      totalInputTokens := (totalInputTokens + usage.input) % U64;
      totalOutputTokens := (totalOutputTokens + usage.output) % U64;
      totalCost := totalCost + usage.cost;
    }

    /** Usage counts only when the layer returned. */
    method Finish(node: nat, outcome: Outcome)
      requires Valid()
      modifies this`totalInputTokens, this`totalOutputTokens, this`totalCost, this`history, executionTree
      ensures Valid() && history == Log(old(history), Ended(node, outcome))
    {
      OneMoreEnding(env, history, OnBooks(), node, outcome);
      match outcome {
        case Returned(usage) =>
          AccumulateTokens(usage);
          executionTree.UpdateStatus(node, Completed);
        case Failed =>
          executionTree.UpdateStatus(node, Broken);
      }
      assert OnBooks() == Settled(old(OnBooks()), node, outcome);
      history := Log(history, Ended(node, outcome));
    }

    /** The loop of one layer, call after call. */
    method ExecuteRun(layer: Layer) returns (ending: Ending)
      requires Valid() && OnTrack()
      modifies this, executionTree
      ensures Valid() && OnTrack() && callerStack == old(callerStack)
      ensures Body(history, ending) == PlayBody(env, old(callerStack), old(history), layer)
      decreases layer, 1
    {
      var flow := Onward;
      var k := 0;
      assert layer.calls[0..] == layer.calls;
      while k < |layer.calls| && flow.Onward?
        invariant k <= |layer.calls|
        invariant Valid() && OnTrack() && callerStack == old(callerStack)
        invariant PlayCalls(env, callerStack, old(history), layer.calls)
               == if flow.Onward? then PlayCalls(env, callerStack, history, layer.calls[k..]) else Run.Step(history, flow)
      {
        assert layer.calls[k..][1..] == layer.calls[k + 1..];
        flow := Execute(layer.calls[k]);
        k := k + 1;
      }
      if flow.Onward? {
        flow := WaitFor(layer.last);
      }
      match flow {
        case Onward => ending := Ends(layer.outcome);
        case Unwind(level) =>
          ending := if level == |callerStack| - 1 then Ends(Returned(layer.interrupted)) else Gone(level);
      }
    }

    /** Runs the root. The watchdog has the last word on the result. */
    method RunRoot(cancelled: bool, layer: Layer) returns (result: RunResult)
      requires Valid() && history == Start && callerStack == []
      modifies this, executionTree
      ensures Valid() && callerStack == []
      ensures RunEnd(history, result) == PlayRun(env, cancelled, layer)
      ensures |executionTree.nodes| == 1 + childCallCount && childCallCount <= env.limits.maxChildAgentCalls
      ensures result.ApprovalAbort? <==> exists tool :: RunLaws.DeniedThreeTimesInARow(history, tool)
      ensures RunLaws.Gated(env, history) && RunOutcomes.Paid(env, history)
    {
      RunLaws.WhatEveryRunKeeps(env, cancelled, layer);
      RunOutcomes.EveryApprovedCallIsCounted(env, cancelled, layer);
      if cancelled {
        return Cancelled;
      }
      if env.tree.nodes[env.tree.root].model !in env.resolvable {
        return UnresolvedModel;
      }
      callerStack := callerStack + [Frame(env.tree.root, 0, 0)];
      assert callerStack == [RootFrame(env)];
      RunMachine.StayLeads(env, RunMachine.Initial(env));
      var ending := ExecuteRun(layer);
      if watchdogTool.Some? {
        result := ApprovalAbort(watchdogTool.value, env.tree.root);
      } else {
        match ending {
          case Ends(Returned(usage)) => result := Finished(usage);
          case Ends(Failed) => result := LoopError;
          case Gone(_) => result := Cancelled;
        }
      }
      Finish(0, if result.Finished? then Returned(result.usage) else Failed);
      callerStack := callerStack[..|callerStack| - 1];
    }
  }

  /** Whatever call is under way, the runner's stack is a path from the root in both trees. */
  lemma StackIsAPath(runner: AgentRunner)
    requires runner.Valid() && runner.OnTrack() && runner.callerStack != []
    ensures RunMachine.StackFits(runner.env, runner.executionTree.nodes, runner.callerStack)
    ensures RunMachine.TreeFits(runner.env, runner.history, runner.executionTree.nodes)
    ensures RunLaws.Gated(runner.env, runner.history)
  {
    RunLaws.ReachableStatesFit(runner.env, RunMachine.State(runner.history, runner.callerStack));
    RunLaws.ReachableIsGated(runner.env, RunMachine.State(runner.history, runner.callerStack));
  }
}
