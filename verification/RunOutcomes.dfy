/**
  What each part of a script comes to (crates/openslate-core/src/runner.rs): which calls are counted, dispatched or
  delegated, how a layer is recorded and charged, and what a run reports.

  The laws here read the script and the state before it. Where something waits, a run stops for three denials in a
  row or for a cancellation seen further up.
 */
module RunOutcomes {
  import opened Wrappers
  import opened AgentTree
  import opened Run
  import opened RunMachine
  import opened RunLaws

  // ---- where a run stops ----

  ghost predicate Tripped(h: History) {
    exists tool :: DeniedThreeTimesInARow(h, tool)
  }

  /** A layer at `depth` that waits here is given up. */
  ghost predicate Stops(env: Env, depth: int, h: History, await: Await) {
    && await.Wait?
    && (Tripped(h) || (env.mayCancel && await.cancelSeenAt.Some? && await.cancelSeenAt.value < depth))
  }

  /** It is given up down to the layer that saw the cancellation first, or altogether. */
  ghost function StopsAt(h: History, await: Await): int {
    if Tripped(h) || await.Straight? || await.cancelSeenAt.None? then -1 else await.cancelSeenAt.value
  }

  lemma WaitingMeans(env: Env, depth: int, h: History, await: Await)
    ensures Waiting(env, depth, h, await) == if Stops(env, depth, h, await) then Unwind(StopsAt(h, await)) else Onward
  {
    WatchdogIsThreeInARow(h);
  }

  // ---- one call ----

  /** There is no tool budget, or the 32-bit counter is below it. */
  predicate BudgetLeft(env: Env, h: History) {
    env.limits.maxToolCalls == 0 || Tally(h) % 0x1_0000_0000 < env.limits.maxToolCalls
  }

  /** Where the provider's wait stops the run, the call is never decided on. */
  lemma StoppedCallIsNotMade(env: Env, path: seq<Frame>, h: History, c: Call)
    requires Stops(env, |path| - 1, h, c.before)
    ensures PlayCall(env, path, h, c) == Step(h, Unwind(StopsAt(h, c.before)))
  {
    WaitingMeans(env, |path| - 1, h, c.before);
  }

  /** A denied call leaves its denial, and the layer goes on. */
  lemma DeniedCallIsOnlyDenied(env: Env, path: seq<Frame>, h: History, c: Call)
    requires !Stops(env, |path| - 1, h, c.before) && !c.approved
    ensures PlayCall(env, path, h, c) == Step(Log(h, Decided(c.name, false)), Onward)
  {
    WaitingMeans(env, |path| - 1, h, c.before);
  }

  /** An approved call of a tool whose budget is used up leaves its approval. */
  lemma OverBudgetCallIsNotCounted(env: Env, path: seq<Frame>, h: History, c: Call)
    requires !Stops(env, |path| - 1, h, c.before) && c.approved && c.name != CALL_AGENT && !BudgetLeft(env, h)
    ensures PlayCall(env, path, h, c) == Step(Log(h, Decided(c.name, true)), Onward)
  {
    WaitingMeans(env, |path| - 1, h, c.before);
    assert Tally(Log(h, Decided(c.name, true))) == Tally(h);
  }

  /** A tool for code only is turned away when it is called directly. */
  predicate TurnedAway(env: Env, c: Call) {
    c.name != RUN_CODE && env.ptcEnabled && c.name in env.ptcOnly
  }

  predicate RunsCode(env: Env, c: Call) {
    c.name == RUN_CODE && env.ptcEnabled
  }

  /** An approved and counted call, with the calls of its script. */
  ghost function CountedCall(env: Env, path: seq<Frame>, h: History, c: Call): History {
    var charged := Log(Log(h, Decided(c.name, true)), Charged(c.name, !TurnedAway(env, c)));
    if RunsCode(env, c) && c.hasCode && c.bridgeCalls > 0 && !Stops(env, |path| - 1, charged, c.inside) then
      Log(charged, Folded(if c.bridgeCalls < 0x1_0000_0000 then c.bridgeCalls else 0xFFFF_FFFF))
    else charged
  }

  /** Any other approved call is counted, and dispatched unless it is turned away; a script that is not stopped adds the
      calls it reports. */
  lemma ApprovedCallIsCounted(env: Env, path: seq<Frame>, h: History, c: Call)
    requires !Stops(env, |path| - 1, h, c.before) && c.approved && c.name != CALL_AGENT && BudgetLeft(env, h)
    ensures PlayCall(env, path, h, c).h == CountedCall(env, path, h, c)
    ensures Charges(PlayCall(env, path, h, c).h) == Charges(h) + 1
    ensures var charged := Log(Log(h, Decided(c.name, true)), Charged(c.name, !TurnedAway(env, c)));
            PlayCall(env, path, h, c).flow ==
              if !TurnedAway(env, c) && !(RunsCode(env, c) && !c.hasCode) && Stops(env, |path| - 1, charged, c.inside)
              then Unwind(StopsAt(charged, c.inside)) else Onward
  {
    var decided := Log(h, Decided(c.name, true));
    var charged := Log(decided, Charged(c.name, !TurnedAway(env, c)));
    WaitingMeans(env, |path| - 1, h, c.before);
    WaitingMeans(env, |path| - 1, charged, c.inside);
    assert Tally(decided) == Tally(h) && Charges(decided) == Charges(h) && Charges(charged) == Charges(h) + 1;
    assert PlayCall(env, path, h, c) == PlayTool(env, path, decided, c);
  }

  // ---- calls in a row ----

  /** Calls are made one after the other, until one of them stops the layer. */
  lemma {:induction false} CallsAreMadeInOrder(env: Env, path: seq<Frame>, h: History, first: seq<Call>, rest: seq<Call>)
    ensures var step := PlayCalls(env, path, h, first);
            PlayCalls(env, path, h, first + rest) ==
              if step.flow.Onward? then PlayCalls(env, path, step.h, rest) else step
    ensures PlayCalls(env, path, h, []) == Step(h, Onward)
    decreases |first|
  {
    if first == [] {
      assert first + rest == rest;
    } else {
      var step := PlayCall(env, path, h, first[0]);
      assert (first + rest)[0] == first[0] && (first + rest)[1..] == first[1..] + rest;
      if step.flow.Onward? {
        CallsAreMadeInOrder(env, path, step.h, first[1..], rest);
      }
    }
  }

  lemma OneCallIsItself(env: Env, path: seq<Frame>, h: History, c: Call)
    ensures PlayCalls(env, path, h, [c]) == PlayCall(env, path, h, c)
  {
    var step := PlayCall(env, path, h, c);
    assert [c][1..] == [];
    assert PlayCalls(env, path, step.h, []) == Step(step.h, Onward);
  }

  // ---- delegations ----

  lemma {:induction false} EarlierStill(p: History, h: History, h': History)
    requires Earlier(p, h) && Earlier(h, h')
    ensures Earlier(p, h')
  {
    if h != h' {
      EarlierStill(p, h, h'.before);
    }
  }

  lemma {:induction false} CallOnlyLogs(env: Env, path: seq<Frame>, h: History, c: Call)
    ensures Earlier(h, PlayCall(env, path, h, c).h)
    decreases c, 2
  {
    var decided := Log(h, Decided(c.name, c.approved));
    assert Earlier(h, decided);
    if Waiting(env, Depth(path), h, c.before).Onward? && c.approved {
      if c.name == CALL_AGENT {
        DelegationOnlyLogs(env, path, decided, c);
        EarlierStill(h, decided, PlayDelegation(env, path, decided, c).h);
      } else {
        var charged := Log(decided, Charged(c.name, !OnlyFromCode(env, c)));
        assert Earlier(h, charged);
      }
    }
  }

  lemma {:induction false} DelegationOnlyLogs(env: Env, path: seq<Frame>, h: History, c: Call)
    ensures Earlier(h, PlayDelegation(env, path, h, c).h)
    ensures MayDelegate(env, path, h, c) ==>
              var frame := ChildFrame(path, h, c);
              Earlier(Log(h, Spawned(frame.node, frame.agent, Top(path).node)), PlayDelegation(env, path, h, c).h)
    decreases c, 1
  {
    if MayDelegate(env, path, h, c) {
      var frame := ChildFrame(path, h, c);
      var spawned := Log(h, Spawned(frame.node, frame.agent, Top(path).node));
      ChildOnlyLogs(env, path + [frame], spawned, c.child);
      assert Earlier(h, spawned);
      EarlierStill(h, spawned, PlayDelegation(env, path, h, c).h);
    }
  }

  lemma {:induction false} ChildOnlyLogs(env: Env, path: seq<Frame>, h: History, layer: Layer)
    requires path != [] && Top(path).agent in env.tree.nodes
    ensures Earlier(h, PlayChild(env, path, h, layer).h)
    decreases layer, 2
  {
    if Resolves(env, Top(path).agent) {
      CallsOnlyLog(env, path, h, layer.calls);
      var body := PlayBody(env, path, h, layer);
      EarlierStill(h, body.h, PlayChild(env, path, h, layer).h);
    }
  }

  lemma {:induction false} CallsOnlyLog(env: Env, path: seq<Frame>, h: History, calls: seq<Call>)
    ensures Earlier(h, PlayCalls(env, path, h, calls).h)
    decreases calls, 0
  {
    if calls != [] {
      var step := PlayCall(env, path, h, calls[0]);
      CallOnlyLogs(env, path, h, calls[0]);
      if step.flow.Onward? {
        CallsOnlyLog(env, path, step.h, calls[1..]);
        EarlierStill(h, step.h, PlayCalls(env, path, step.h, calls[1..]).h);
      }
    }
  }

  lemma {:induction false} SpawnsOnlyGrow(p: History, h: History)
    requires Earlier(p, h)
    ensures Spawns(p) <= Spawns(h)
  {
    if p != h {
      SpawnsOnlyGrow(p, h.before);
    }
  }

  /** What a delegation needs: an agent and a task, a child of the caller's own agent, one more level below the depth
      limit, and room in both budgets. Unlike for a tool, a budget of 0 is none. */
  predicate DelegationAllowed(env: Env, path: seq<Frame>, h: History, c: Call)
    requires path != []
  {
    && c.target.Some? && c.hasTask
    && c.target.value in Children(env.tree.nodes, path[|path| - 1].agent) && c.target.value in env.tree.nodes
    && |path| < env.limits.maxDepth
    && Tally(h) % 0x1_0000_0000 < env.limits.maxToolCalls
    && Spawns(h) < env.limits.maxChildAgentCalls
  }

  lemma AllowedMeans(env: Env, path: seq<Frame>, h: History, c: Call)
    requires path != [] && Reachable(env, State(h, path))
    ensures MayDelegate(env, path, Log(h, Decided(c.name, c.approved)), c) <==> DelegationAllowed(env, path, h, c)
    ensures Top(path).depth == |path| - 1
  {
    var decided := Log(h, Decided(c.name, c.approved));
    ReachableStatesFit(env, State(h, path));
    assert FrameFits(env, NodesAfter(env.tree.root, h), path, |path| - 1);
    assert Tally(decided) == Tally(h) && Spawns(decided) == Spawns(h);
  }

  /** An approved delegation is made if and only if it is allowed: then a node for the target is the next event, below
      the caller's node, and otherwise nothing happens. */
  lemma DelegationIsMadeIffAllowed(env: Env, path: seq<Frame>, h: History, c: Call)
    requires path != [] && Reachable(env, State(h, path))
    requires !Stops(env, |path| - 1, h, c.before) && Delegates(c)
    ensures var after := PlayCall(env, path, h, c);
            var decided := Log(h, Decided(CALL_AGENT, true));
            && (Spawns(after.h) > Spawns(h) <==> DelegationAllowed(env, path, h, c))
            && (DelegationAllowed(env, path, h, c) ==>
                  Earlier(Log(decided, Spawned(Spawns(h) + 1, c.target.value, Top(path).node)), after.h))
            && (!DelegationAllowed(env, path, h, c) ==> after == Step(decided, Onward))
  {
    var decided := Log(h, Decided(CALL_AGENT, true));
    WaitingMeans(env, |path| - 1, h, c.before);
    AllowedMeans(env, path, h, c);
    assert PlayCall(env, path, h, c) == PlayDelegation(env, path, decided, c);
    assert Spawns(decided) == Spawns(h);
    if DelegationAllowed(env, path, h, c) {
      DelegationOnlyLogs(env, path, decided, c);
      var spawned := Log(decided, Spawned(Spawns(h) + 1, c.target.value, Top(path).node));
      SpawnsOnlyGrow(spawned, PlayDelegation(env, path, decided, c).h);
    }
  }

  // ---- how a layer ends ----

  /** How the loop of a layer ends after its calls: as its script says, unless a wait stops it; interrupted and returning
      if it is the layer that saw the cancellation; and not at all if it is given up. */
  ghost function LoopEnding(env: Env, depth: int, calls: Step, layer: Layer): Option<Outcome> {
    if calls.flow.Unwind? then
      (if calls.flow.level == depth then Some(Returned(layer.interrupted)) else None)
    else if Stops(env, depth, calls.h, layer.last) then
      (if StopsAt(calls.h, layer.last) == depth then Some(Returned(layer.interrupted)) else None)
    else Some(layer.outcome)
  }

  /** Where a layer is given up that does not end. */
  ghost function GivenUpAt(calls: Step, layer: Layer): int {
    if calls.flow.Unwind? then calls.flow.level else StopsAt(calls.h, layer.last)
  }

  lemma BodyEndsSo(env: Env, path: seq<Frame>, h: History, layer: Layer)
    ensures var calls := PlayCalls(env, path, h, layer.calls);
            var body := PlayBody(env, path, h, layer);
            && body.h == calls.h
            && (match LoopEnding(env, |path| - 1, calls, layer)
                case Some(outcome) => body.ending == Ends(outcome)
                case None => body.ending == Gone(GivenUpAt(calls, layer)))
  {
    WaitingMeans(env, |path| - 1, PlayCalls(env, path, h, layer.calls).h, layer.last);
  }

  function UsageOf(outcome: Outcome): Usage {
    match outcome
    case Returned(usage) => usage
    case Failed => Usage(0, 0, 0.0)
  }

  ghost predicate RecordedAs(env: Env, h: History, n: nat, ending: Option<Outcome>) {
    var nodes := NodesAfter(env.tree.root, h);
    && n in nodes
    && (match ending
        case Some(Returned(_)) => nodes[n].status == Completed
        case Some(Failed) => nodes[n].status == Broken
        case None => nodes[n].status == Running && HasDropped(h, n))
    && UsedBy(h, n) == if ending.Some? then UsageOf(ending.value) else Usage(0, 0, 0.0)
  }

  lemma RecordedAfterEnding(env: Env, h: History, n: nat, outcome: Outcome)
    requires n in NodesAfter(env.tree.root, h) && UsedBy(h, n) == Usage(0, 0, 0.0)
    ensures RecordedAs(env, Log(h, Ended(n, outcome)), n, Some(outcome))
  {
  }

  lemma RecordedAfterDrop(env: Env, h: History, n: nat)
    requires n in NodesAfter(env.tree.root, h) && UsedBy(h, n) == Usage(0, 0, 0.0)
    requires NodesAfter(env.tree.root, h)[n].status == Running
    ensures RecordedAs(env, Log(h, Dropped(n)), n, None)
  {
  }

  /** While a layer runs its node is running and charged with nothing. */
  lemma RunningLayerIsFree(env: Env, s: State)
    requires Reachable(env, s) && s.path != []
    ensures var nodes := NodesAfter(env.tree.root, s.h);
            var n := Top(s.path).node;
            n in nodes && nodes[n].status == Running && UsedBy(s.h, n) == Usage(0, 0, 0.0)
  {
    ReachableStatesFit(env, s);
    var nodes := NodesAfter(env.tree.root, s.h);
    var n := Top(s.path).node;
    TopIsThere(env, nodes, s.path);
    assert StatusFits(env, s, nodes, n);
    assert OnStack(s.path, n) by {
      assert s.path[|s.path| - 1].node == n;
    }
    UnreturnedUsesNothing(s.h, n);
  }

  /** The usage of a layer's own ending is what the totals gain at it. */
  predicate Gains(before: Usage, after: Usage, ending: Option<Outcome>) {
    var usage := if ending.Some? then UsageOf(ending.value) else Usage(0, 0, 0.0);
    && after.input == before.input + usage.input
    && after.output == before.output + usage.output
    && after.cost == before.cost + usage.cost
  }

  /** A child whose model resolves is recorded and charged as its own loop ended: completed with the usage it returned,
      broken with nothing, or running with nothing if it was given up. Its caller goes on exactly if it ended. */
  lemma ChildIsRecordedAsItsLoopEnded(env: Env, path: seq<Frame>, h: History, layer: Layer)
    requires |path| > 1 && Reachable(env, State(h, path)) && Resolves(env, Top(path).agent)
    ensures var calls := PlayCalls(env, path, h, layer.calls);
            var ending := LoopEnding(env, |path| - 1, calls, layer);
            var after := PlayChild(env, path, h, layer);
            && RecordedAs(env, after.h, Top(path).node, ending) && Gains(Spent(calls.h), Spent(after.h), ending)
            && after.flow == if ending.Some? then Onward else Unwind(GivenUpAt(calls, layer))
  {
    var calls := PlayCalls(env, path, h, layer.calls);
    var n := Top(path).node;
    PlayedCalls(env, path, h, layer.calls);
    LeadsJoin(env, Initial(env), State(h, path), State(calls.h, path));
    RunningLayerIsFree(env, State(calls.h, path));
    BodyEndsSo(env, path, h, layer);
    match LoopEnding(env, |path| - 1, calls, layer) {
      case Some(outcome) =>
        RecordedAfterEnding(env, calls.h, n, outcome);
      case None =>
        RecordedAfterDrop(env, calls.h, n);
    }
  }

  /** The child's frame. */
  function FrameOf(path: seq<Frame>, h: History, c: Call): Frame
    requires c.target.Some?
  {
    Frame(c.target.value, Spawns(h) + 1, |path|)
  }

  /** The history in which the child begins: the approval, and its node below the caller's. */
  function ChildBegins(path: seq<Frame>, h: History, c: Call): History
    requires path != [] && c.target.Some?
  {
    Log(Log(h, Decided(CALL_AGENT, true)), Spawned(Spawns(h) + 1, c.target.value, Top(path).node))
  }

  predicate Delegates(c: Call) {
    c.approved && c.name == CALL_AGENT
  }

  lemma DelegationPlaysItsChild(env: Env, path: seq<Frame>, h: History, c: Call)
    requires path != [] && Reachable(env, State(h, path)) && !Stops(env, |path| - 1, h, c.before)
    requires Delegates(c) && DelegationAllowed(env, path, h, c)
    ensures PlayCall(env, path, h, c) == PlayChild(env, path + [FrameOf(path, h, c)], ChildBegins(path, h, c), c.child)
    ensures Reachable(env, State(ChildBegins(path, h, c), path + [FrameOf(path, h, c)]))
  {
    var decided := Log(h, Decided(CALL_AGENT, true));
    WaitingMeans(env, |path| - 1, h, c.before);
    AllowedMeans(env, path, h, c);
    assert Spawns(decided) == Spawns(h);
    assert ChildFrame(path, decided, c) == FrameOf(path, h, c);
    ReachableCall(env, path, h, c);
    ReachableSpawn(env, path, decided, c);
  }

  /** So a delegation that is made, to a child whose model resolves, records the child's node as the child's loop ended. */
  lemma DelegationRecordsItsChild(env: Env, path: seq<Frame>, h: History, c: Call)
    requires path != [] && Reachable(env, State(h, path)) && !Stops(env, |path| - 1, h, c.before)
    requires Delegates(c) && DelegationAllowed(env, path, h, c) && Resolves(env, c.target.value)
    ensures var calls := PlayCalls(env, path + [FrameOf(path, h, c)], ChildBegins(path, h, c), c.child.calls);
            var ending := LoopEnding(env, |path|, calls, c.child);
            var after := PlayCall(env, path, h, c);
            && RecordedAs(env, after.h, Spawns(h) + 1, ending) && Gains(Spent(calls.h), Spent(after.h), ending)
            && after.flow == if ending.Some? then Onward else Unwind(GivenUpAt(calls, c.child))
  {
    DelegationPlaysItsChild(env, path, h, c);
    PopPush(path, FrameOf(path, h, c));
    ChildIsRecordedAsItsLoopEnded(env, path + [FrameOf(path, h, c)], ChildBegins(path, h, c), c.child);
  }

  /** And one to a child whose model does not resolve leaves the node as it was made. */
  lemma DelegationLeavesUnresolvedChild(env: Env, path: seq<Frame>, h: History, c: Call)
    requires path != [] && Reachable(env, State(h, path)) && !Stops(env, |path| - 1, h, c.before)
    requires Delegates(c) && DelegationAllowed(env, path, h, c) && !Resolves(env, c.target.value)
    ensures PlayCall(env, path, h, c) == Step(ChildBegins(path, h, c), Onward)
  {
    DelegationPlaysItsChild(env, path, h, c);
    UnresolvedChildLeaves(env, path, FrameOf(path, h, c), ChildBegins(path, h, c), c.child);
  }

  lemma UnresolvedChildLeaves(env: Env, path: seq<Frame>, frame: Frame, h: History, layer: Layer)
    requires frame.agent in env.tree.nodes && !Resolves(env, frame.agent)
    ensures PlayChild(env, path + [frame], h, layer) == Step(h, Onward)
  {
    PopPush(path, frame);
  }

  // ---- what a run reports ----

  /** The result of any run, from what its root's loop came to. */
  lemma RunReportsItsLoop(env: Env, cancelled: bool, layer: Layer)
    requires env.tree.root in env.tree.nodes
    ensures var end := PlayRun(env, cancelled, layer);
            var calls := PlayCalls(env, [Frame(env.tree.root, 0, 0)], Start, layer.calls);
            var ending := LoopEnding(env, 0, calls, layer);
            var starts := !cancelled && Resolves(env, env.tree.root);
            && (end.result == Cancelled <==> cancelled)
            && (end.result == UnresolvedModel <==> !cancelled && !Resolves(env, env.tree.root))
            && (end.result.ApprovalAbort? <==> starts && Tripped(calls.h))
            && (end.result.ApprovalAbort? ==> end.result.agent == env.tree.root)
            && (end.result == LoopError <==> starts && !Tripped(calls.h) && ending == Some(Failed))
            && (end.result.Finished? <==> starts && !Tripped(calls.h) && ending.Some? && ending.value.Returned?)
            && (end.result.Finished? ==> end.result.usage == ending.value.usage)
  {
    var path := [Frame(env.tree.root, 0, 0)];
    var calls := PlayCalls(env, path, Start, layer.calls);
    assert path == [RootFrame(env)];
    BodyEndsSo(env, path, Start, layer);
    WatchdogIsThreeInARow(calls.h);
    if Starts(env, cancelled) {
      RunIsARunOfTheMachine(env, layer);
    }
  }

  // ---- every approved call is counted ----

  /** The last event is an approval of a tool whose budget is not used up: the call is still to be counted. */
  predicate Owes(env: Env, h: History) {
    h.Log? && h.event.Decided? && h.event.approved && h.event.tool != CALL_AGENT && BudgetLeft(env, h)
  }

  /** Every approval of a tool is directly followed by the counting of that call, unless the budget was used up; only
      tools for code are not dispatched. */
  predicate Followed(env: Env, h: History) {
    h.Start? ||
    (Followed(env, h.before) &&
     (Owes(env, h.before) ==> h.event == Charged(h.before.event.tool, !CodeOnly(env, h.before.event.tool))))
  }

  predicate Paid(env: Env, h: History) {
    Followed(env, h) && !Owes(env, h)
  }

  lemma {:induction false} CallIsPaid(env: Env, path: seq<Frame>, h: History, c: Call)
    requires Paid(env, h)
    ensures Paid(env, PlayCall(env, path, h, c).h)
    decreases c, 2
  {
    var decided := Log(h, Decided(c.name, c.approved));
    if Waiting(env, Depth(path), h, c.before).Onward? {
      assert Followed(env, decided);
      if c.approved && c.name == CALL_AGENT {
        DelegationIsPaid(env, path, decided, c);
      } else if c.approved {
        ToolIsPaid(env, path, decided, c);
      }
    }
  }

  lemma ToolIsPaid(env: Env, path: seq<Frame>, h: History, c: Call)
    requires Followed(env, h) && JustApproved(h, c.name) && c.name != CALL_AGENT
    ensures Paid(env, PlayTool(env, path, h, c).h)
  {
    if MayCharge(env, h) {
      var charged := Log(h, Charged(c.name, !OnlyFromCode(env, c)));
      assert Paid(env, charged);
      assert Paid(env, Log(charged, Folded(Saturated(c.bridgeCalls))));
    }
  }

  lemma {:induction false} DelegationIsPaid(env: Env, path: seq<Frame>, h: History, c: Call)
    requires Paid(env, h)
    ensures Paid(env, PlayDelegation(env, path, h, c).h)
    decreases c, 1
  {
    if MayDelegate(env, path, h, c) {
      var frame := ChildFrame(path, h, c);
      var spawned := Log(h, Spawned(frame.node, frame.agent, Top(path).node));
      assert Paid(env, spawned);
      ChildIsPaid(env, path + [frame], spawned, c.child);
    }
  }

  lemma {:induction false} ChildIsPaid(env: Env, path: seq<Frame>, h: History, layer: Layer)
    requires path != [] && Top(path).agent in env.tree.nodes && Paid(env, h)
    ensures Paid(env, PlayChild(env, path, h, layer).h)
    decreases layer, 2
  {
    if Resolves(env, Top(path).agent) {
      CallsArePaid(env, path, h, layer.calls);
      assert Paid(env, PlayBody(env, path, h, layer).h);
    }
  }

  lemma {:induction false} CallsArePaid(env: Env, path: seq<Frame>, h: History, calls: seq<Call>)
    requires Paid(env, h)
    ensures Paid(env, PlayCalls(env, path, h, calls).h)
    decreases calls, 0
  {
    if calls != [] {
      CallIsPaid(env, path, h, calls[0]);
      CallsArePaid(env, path, PlayCall(env, path, h, calls[0]).h, calls[1..]);
    }
  }

  /** In every run, at any depth, each approved call of a tool is counted right behind its approval. */
  lemma EveryApprovedCallIsCounted(env: Env, cancelled: bool, layer: Layer)
    requires env.tree.root in env.tree.nodes
    ensures Paid(env, PlayRun(env, cancelled, layer).h)
  {
    if Starts(env, cancelled) {
      CallsArePaid(env, [RootFrame(env)], Start, layer.calls);
      assert Paid(env, PlayBody(env, [RootFrame(env)], Start, layer).h);
    }
  }
}
