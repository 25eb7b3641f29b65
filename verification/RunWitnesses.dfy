/**
  Scripts that show where the limits and reports of a run end: a script that breaks the tool budget, a child that
  is left running, and a run that is aborted although its loop returned.
 */
module RunWitnesses {
  import opened Wrappers
  import opened AgentTree
  import opened Run
  import opened RunMachine
  import opened RunLaws
  import opened RunOutcomes

  // ---- when the tool budget can be broken ----

  /** An approved script that never waits and reports `bridgeCalls` tool calls. */
  function Script(bridgeCalls: nat): Call {
    var nothing := Layer([], Straight, Failed, Usage(0, 0, 0.0));
    Call(RUN_CODE, true, Straight, Straight, None, false, nothing, true, bridgeCalls)
  }

  function Repeated(c: Call, count: nat): seq<Call> {
    if count == 0 then [] else [c] + Repeated(c, count - 1)
  }

  /** What is logged of a script that calls no tool. */
  function AfterIdle(h: History): History {
    Log(Log(h, Decided(RUN_CODE, true)), Charged(RUN_CODE, true))
  }

  function AfterIdles(h: History, count: nat): History
    decreases count
  {
    if count == 0 then h else AfterIdles(AfterIdle(h), count - 1)
  }

  function AfterScript(h: History, calls: nat): History {
    Log(AfterIdle(h), Folded(calls))
  }

  lemma IdleCounts(h: History, most: nat)
    ensures Tally(AfterIdle(h)) == Tally(h) + 1
    ensures Charges(AfterIdle(h)) == Charges(h) + 1
    ensures FoldsAtMost(AfterIdle(h), most) <==> FoldsAtMost(h, most)
  {
    var decided := Log(h, Decided(RUN_CODE, true));
    assert Tally(decided) == Tally(h) && Charges(decided) == Charges(h);
    assert FoldsAtMost(decided, most) == FoldsAtMost(h, most);
  }

  lemma {:induction false} IdlesCount(h: History, count: nat, most: nat)
    ensures Tally(AfterIdles(h, count)) == Tally(h) + count
    ensures Charges(AfterIdles(h, count)) == Charges(h) + count
    ensures FoldsAtMost(AfterIdles(h, count), most) <==> FoldsAtMost(h, most)
    decreases count
  {
    if count > 0 {
      IdleCounts(h, most);
      IdlesCount(AfterIdle(h), count - 1, most);
    }
  }

  lemma ScriptCounts(h: History, calls: nat, most: nat)
    ensures Tally(AfterScript(h, calls)) == Tally(h) + 1 + calls
    ensures Charges(AfterScript(h, calls)) == Charges(h) + 1
    ensures FoldsAtMost(h, most) && calls <= most ==> FoldsAtMost(AfterScript(h, calls), most)
  {
    IdleCounts(h, most);
  }

  lemma ScriptIsPlayed(env: Env, path: seq<Frame>, h: History, bridgeCalls: nat)
    requires env.ptcEnabled && MayCharge(env, Log(h, Decided(RUN_CODE, true))) && bridgeCalls < U32
    ensures PlayCall(env, path, h, Script(bridgeCalls))
         == Step(if bridgeCalls == 0 then AfterIdle(h) else AfterScript(h, bridgeCalls), Onward)
  {
    assert RUN_CODE != CALL_AGENT;
  }

  lemma MayChargeUnless(env: Env, h: History)
    requires Tally(h) < env.limits.maxToolCalls < U32
    ensures MayCharge(env, Log(h, Decided(RUN_CODE, true)))
  {
    assert Tally(Log(h, Decided(RUN_CODE, true))) == Tally(h);
  }

  lemma {:induction false} IdlesArePlayed(env: Env, path: seq<Frame>, h: History, count: nat, rest: seq<Call>)
    requires env.ptcEnabled && Tally(h) + count <= env.limits.maxToolCalls < U32
    ensures PlayCalls(env, path, h, Repeated(Script(0), count) + rest) == PlayCalls(env, path, AfterIdles(h, count), rest)
    decreases count
  {
    var calls := Repeated(Script(0), count) + rest;
    if count == 0 {
      assert calls == rest;
    } else {
      assert calls[0] == Script(0) && calls[1..] == Repeated(Script(0), count - 1) + rest;
      MayChargeUnless(env, h);
      ScriptIsPlayed(env, path, h, 0);
      IdleCounts(h, 0);
      IdlesArePlayed(env, path, AfterIdle(h), count - 1, rest);
      assert PlayCalls(env, path, h, calls) == PlayCalls(env, path, AfterIdle(h), calls[1..]);
    }
  }

  /** The layer that uses up the budget, makes the counter wrap to zero, and calls on. */
  function Wrapping(maxToolCalls: nat): Layer
    requires 0 < maxToolCalls < U32
  {
    var calls := Repeated(Script(0), maxToolCalls - 1) + [Script(U32 - maxToolCalls), Script(0)];
    Layer(calls, Straight, Failed, Usage(0, 0, 0.0))
  }

  function AfterWrapping(maxToolCalls: nat): History
    requires 0 < maxToolCalls < U32
  {
    AfterIdle(AfterScript(AfterIdles(Start, maxToolCalls - 1), U32 - maxToolCalls))
  }

  lemma TwoCalls(env: Env, path: seq<Frame>, h: History, c: Call, d: Call)
    requires PlayCall(env, path, h, c).flow.Onward?
    ensures PlayCalls(env, path, h, [c, d]).h == PlayCall(env, path, PlayCall(env, path, h, c).h, d).h
  {
    var h' := PlayCall(env, path, h, c).h;
    assert [c, d][1..] == [d] && [d][1..] == [];
    assert PlayCalls(env, path, h, [c, d]) == PlayCalls(env, path, h', [d]);
    assert PlayCalls(env, path, h', [d]).h == PlayCall(env, path, h', d).h;
  }

  lemma WrappedMayCharge(env: Env, h: History)
    requires 0 < env.limits.maxToolCalls && Tally(h) == U32
    ensures MayCharge(env, Log(h, Decided(RUN_CODE, true)))
  {
    assert Tally(Log(h, Decided(RUN_CODE, true))) == U32;
  }

  lemma WrappingIsPlayed(env: Env, path: seq<Frame>)
    requires env.ptcEnabled && 0 < env.limits.maxToolCalls < U32
    ensures PlayCalls(env, path, Start, Wrapping(env.limits.maxToolCalls).calls).h == AfterWrapping(env.limits.maxToolCalls)
  {
    var max := env.limits.maxToolCalls;
    var h := AfterIdles(Start, max - 1);
    IdlesArePlayed(env, path, Start, max - 1, [Script(U32 - max), Script(0)]);
    IdlesCount(Start, max - 1, 0);
    MayChargeUnless(env, h);
    ScriptIsPlayed(env, path, h, U32 - max);
    ScriptCounts(h, U32 - max, 0);
    WrappedMayCharge(env, AfterScript(h, U32 - max));
    ScriptIsPlayed(env, path, AfterScript(h, U32 - max), 0);
    TwoCalls(env, path, h, Script(U32 - max), Script(0));
  }

  lemma WrappingBreaksTheBudget(env: Env, most: nat)
    requires Starts(env, false) && env.ptcEnabled
    requires 0 < env.limits.maxToolCalls < U32 && U32 <= env.limits.maxToolCalls + most
    ensures var h := PlayRun(env, false, Wrapping(env.limits.maxToolCalls)).h;
            FoldsAtMost(h, most) && Charges(h) == env.limits.maxToolCalls + 1
  {
    var max := env.limits.maxToolCalls;
    var h := AfterIdles(Start, max - 1);
    WrappingIsPlayed(env, [RootFrame(env)]);
    IdlesCount(Start, max - 1, most);
    ScriptCounts(h, U32 - max, most);
    IdleCounts(AfterScript(h, U32 - max), most);
    assert PlayBody(env, [RootFrame(env)], Start, Wrapping(max)).h == AfterWrapping(max);
  }

  lemma {:induction false} NothingFoldedWithoutPtc(env: Env, h: History, most: nat)
    requires !env.ptcEnabled && Gated(env, h)
    ensures FoldsAtMost(h, most)
  {
    if h.Log? {
      NothingFoldedWithoutPtc(env, h.before, most);
    }
  }

  /** Direct calls stay within the budget in every run exactly when there are no scripts, or the budget and the
      largest number of calls a script may report do not overflow the counter together. */
  lemma BudgetHoldsIffCounterCannotWrap(env: Env, most: nat)
    requires Starts(env, false) && 0 < env.limits.maxToolCalls < U32
    ensures (forall layer :: FoldsAtMost(PlayRun(env, false, layer).h, most) ==>
               Charges(PlayRun(env, false, layer).h) <= env.limits.maxToolCalls)
       <==> !env.ptcEnabled || env.limits.maxToolCalls + most < U32
  {
    if env.ptcEnabled && U32 <= env.limits.maxToolCalls + most {
      WrappingBreaksTheBudget(env, most);
    } else {
      forall layer | FoldsAtMost(PlayRun(env, false, layer).h, most)
        ensures Charges(PlayRun(env, false, layer).h) <= env.limits.maxToolCalls
      {
        BudgetHolds(env, layer, most);
      }
    }
  }

  lemma BudgetHolds(env: Env, layer: Layer, most: nat)
    requires Starts(env, false) && 0 < env.limits.maxToolCalls < U32
    requires !env.ptcEnabled || env.limits.maxToolCalls + most < U32
    requires FoldsAtMost(PlayRun(env, false, layer).h, most)
    ensures Charges(PlayRun(env, false, layer).h) <= env.limits.maxToolCalls
  {
    var end := PlayRun(env, false, layer).h;
    RunIsARunOfTheMachine(env, layer);
    if env.ptcEnabled {
      ToolBudget(env, State(end, []), most);
    } else {
      NothingWithoutItsOwnApproval(env, false, layer);
      NothingFoldedWithoutPtc(env, end, 0);
      ToolBudget(env, State(end, []), 0);
    }
  }

  // ---- a child that is left running ----

  /** An approved delegation to `child`, which would return at once. */
  function Delegation(child: AgentId): Call {
    var nothing := Layer([], Straight, Returned(Usage(0, 0, 0.0)), Usage(0, 0, 0.0));
    Call(CALL_AGENT, true, Straight, Straight, Some(child), true, nothing, false, 0)
  }

  predicate MayTry(env: Env, child: AgentId) {
    && Starts(env, false)
    && IsChild(env.tree, env.tree.root, child)
    && env.limits.maxDepth > 1 && env.limits.maxToolCalls > 0 && env.limits.maxChildAgentCalls > 0
  }

  function AfterDelegation(child: AgentId): History {
    Log(Log(Start, Decided(CALL_AGENT, true)), Spawned(1, child, 0))
  }

  lemma UnresolvedChildIsLeft(env: Env, child: AgentId)
    requires MayTry(env, child) && !Resolves(env, child)
    ensures PlayCall(env, [RootFrame(env)], Start, Delegation(child)) == Step(AfterDelegation(child), Onward)
  {
    var path := [RootFrame(env)];
    var decided := Log(Start, Decided(CALL_AGENT, true));
    assert Tally(decided) == 0 && Spawns(decided) == 0 && Counted(decided) == 0;
    assert MayDelegate(env, path, decided, Delegation(child));
    assert ChildFrame(path, decided, Delegation(child)) == Frame(child, 1, 1);
    UnresolvedChildLeaves(env, path, Frame(child, 1, 1), AfterDelegation(child), Delegation(child).child);
    assert PlayDelegation(env, path, decided, Delegation(child)) == Step(AfterDelegation(child), Onward);
  }

  /** A child whose model alias does not resolve is started and never marked: the run finishes, and the child's node is
      running for good. */
  lemma UnresolvedChildKeepsRunning(env: Env, child: AgentId, usage: Usage)
    requires MayTry(env, child) && !Resolves(env, child)
    ensures var end := PlayRun(env, false, Layer([Delegation(child)], Straight, Returned(usage), usage));
            var nodes := NodesAfter(env.tree.root, end.h);
            && end.result == Finished(usage)
            && 1 in nodes && nodes[1] == ExecutionNode(child, Some(0), 1, Running)
  {
    var path := [RootFrame(env)];
    var layer := Layer([Delegation(child)], Straight, Returned(usage), usage);
    UnresolvedChildIsLeft(env, child);
    OneCallIsItself(env, path, Start, Delegation(child));
    assert PlayBody(env, path, Start, layer) == Body(AfterDelegation(child), Ends(Returned(usage)));
    assert Watchdog(AfterDelegation(child)) == None;
    OneChild(env.tree.root, child);
  }

  lemma OneChild(root: AgentId, child: AgentId)
    ensures NodesAfter(root, AfterDelegation(child))
         == map[0 := RootNode(root), 1 := ExecutionNode(child, Some(0), 1, Running)]
  {
    var decided := Log(Start, Decided(CALL_AGENT, true));
    assert NodesAfter(root, decided) == NodesAfter(root, Start) == map[0 := RootNode(root)];
  }

  /** Agents `r` and `c`, whose alias does not resolve: a level may point at a model entry that is missing. */
  function DanglingAlias(): Env {
    var nodes: Nodes := map["r" := AgentNode("m", ["c"]), "c" := AgentNode("x", [])];
    Env(Tree(nodes, "r"), {"m"}, Limits(2, 1, 1), false, {}, false)
  }

  lemma DanglingAliasMayBeTried()
    ensures MayTry(DanglingAlias(), "c") && !Resolves(DanglingAlias(), "c")
  {
    var env := DanglingAlias();
    assert "c"[0] != "r"[0] && "x"[0] != "m"[0];
    assert env.tree.nodes["c"].model == "x" && env.tree.nodes["r"].model == "m";
    assert Children(env.tree.nodes, "r") == ["c"];
  }

  /** The run of `r` finishes with the node of `c` running. */
  lemma DanglingAliasKeepsRunning(usage: Usage)
    ensures var env := DanglingAlias();
            var end := PlayRun(env, false, Layer([Delegation("c")], Straight, Returned(usage), usage));
            var nodes := NodesAfter(env.tree.root, end.h);
            end.result == Finished(usage) && 1 in nodes && nodes[1] == ExecutionNode("c", Some(0), 1, Running)
  {
    DanglingAliasMayBeTried();
    UnresolvedChildKeepsRunning(DanglingAlias(), "c", usage);
  }

  // ---- an abort although the loop returned ----

  function Denied(tool: string): Call {
    var nothing := Layer([], Straight, Failed, Usage(0, 0, 0.0));
    Call(tool, false, Straight, Straight, None, false, nothing, false, 0)
  }

  function Stubborn(tool: string, usage: Usage): Layer {
    Layer([Denied(tool), Denied(tool), Denied(tool)], Straight, Returned(usage), usage)
  }

  function AfterDenials(tool: string): History {
    Log(Log(Log(Start, Decided(tool, false)), Decided(tool, false)), Decided(tool, false))
  }

  lemma ThreeCalls(env: Env, path: seq<Frame>, tool: string)
    ensures PlayCalls(env, path, Start, Stubborn(tool, Usage(0, 0, 0.0)).calls) == Step(AfterDenials(tool), Onward)
  {
    var c := Denied(tool);
    var h := Log(Log(Start, Decided(tool, false)), Decided(tool, false));
    assert [c, c, c][1..] == [c, c] && [c, c][1..] == [c];
    OneCallIsItself(env, path, h, c);
    assert PlayCalls(env, path, Log(Start, Decided(tool, false)), [c, c]) == PlayCalls(env, path, h, [c]);
  }

  lemma ThirdDenialTrips(tool: string)
    ensures Watchdog(AfterDenials(tool)) == Some(tool) && Spent(AfterDenials(tool)) == Usage(0, 0, 0.0)
  {
    var one := Log(Start, Decided(tool, false));
    var two := Log(one, Decided(tool, false));
    assert Streak(one, tool) == 1;
    assert Streak(two, tool) == 2;
    assert Streak(AfterDenials(tool), tool) == 3;
    assert Spent(one) == Usage(0, 0, 0.0);
    assert Spent(two) == Usage(0, 0, 0.0);
  }

  /** The loop of the root returns with its usage, and the run is aborted all the same, counting nothing. */
  lemma AbortDropsWhatTheLoopReturned(env: Env, tool: string, usage: Usage)
    requires Starts(env, false)
    ensures PlayBody(env, [RootFrame(env)], Start, Stubborn(tool, usage)).ending == Ends(Returned(usage))
    ensures var end := PlayRun(env, false, Stubborn(tool, usage));
            end.result == ApprovalAbort(tool, env.tree.root) && Spent(end.h) == Usage(0, 0, 0.0)
  {
    ThreeCalls(env, [RootFrame(env)], tool);
    ThirdDenialTrips(tool);
  }
}
