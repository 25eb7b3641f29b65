/**
  What holds of every run (crates/openslate-core/src/runner.rs, execution.rs): played scripts are runs of
  the machine, and every reachable state keeps the stack, the execution tree, the budgets and the statuses.
 */
module RunLaws {
  import opened Wrappers
  import opened AgentTree
  import opened Run
  import opened RunMachine

  // ---- every reachable state ----

  predicate AnyDropped(h: History) {
    match h
    case Start => false
    case Log(b, e) => e.Dropped? || AnyDropped(b)
  }

  ghost predicate Invariant(env: Env, s: State) {
    && Structure(env, s)
    && Statuses(env, s)
    && (AnyDropped(s.h) ==> Watchdog(s.h).Some? || env.mayCancel)
  }

  lemma InvariantKept(env: Env, s: State, a: Action)
    requires Invariant(env, s) && Enabled(env, s, a)
    ensures Invariant(env, After(env, s, a))
  {
    StructureKept(env, s, a);
    StatusesKept(env, s, a);
  }

  lemma {:induction false} InvariantAlways(env: Env, trace: Trace, s: State)
    requires RunsTo(env, Initial(env), trace, s)
    ensures Invariant(env, s)
    decreases trace
  {
    match trace
    case Done =>
      InitialStructure(env);
      InitialStatuses(env);
    case Then(b, a) =>
      var m :| RunsTo(env, Initial(env), b, m) && Enabled(env, m, a) && After(env, m, a) == s;
      InvariantAlways(env, b, m);
      InvariantKept(env, m, a);
  }

  ghost predicate Reachable(env: Env, s: State) {
    Leads(env, Initial(env), s)
  }

  /** The caller stack is a path of the agent tree from the root, its execution nodes are a path of the
      execution tree, and both trees fit together in every state a run can reach. */
  lemma ReachableStatesFit(env: Env, s: State)
    requires Reachable(env, s)
    ensures Invariant(env, s)
  {
    var trace :| RunsTo(env, Initial(env), trace, s);
    InvariantAlways(env, trace, s);
  }

  function Agents(path: seq<Frame>): (agents: seq<AgentId>)
    ensures |agents| == |path| && forall i :: 0 <= i < |path| ==> agents[i] == path[i].agent
  {
    seq(|path|, i requires 0 <= i < |path| => path[i].agent)
  }

  /** In a well-formed tree no agent is on the stack twice, so delegation goes no deeper than there are
      agents, whatever the limits are. */
  lemma NoAgentTwiceOnTheStack(env: Env, s: State)
    requires WellFormed(env.tree) && Reachable(env, s) && s.path != []
    ensures WalkFrom(env.tree.nodes, env.tree.root, Agents(s.path))
    ensures forall i, j :: 0 <= i < j < |s.path| ==> s.path[i].agent != s.path[j].agent
    ensures |s.path| <= |env.tree.nodes|
  {
    ReachableStatesFit(env, s);
    var nodes := NodesAfter(env.tree.root, s.h);
    var agents := Agents(s.path);
    forall i | 0 <= i < |agents| - 1 ensures agents[i + 1] in Children(env.tree.nodes, agents[i]) {
      assert FrameFits(env, nodes, s.path, i + 1);
    }
    assert FrameFits(env, nodes, s.path, 0);
    WalksFromRootAreShort(env.tree, agents);
    assert !Repeats(agents);
    forall i, j | 0 <= i < j < |s.path| ensures s.path[i].agent != s.path[j].agent {
      assert agents[i] == s.path[i].agent && agents[j] == s.path[j].agent;
    }
  }

  // ---- counting ----

  lemma {:induction false} UpTo(n: nat, ids: set<nat>)
    requires forall i: nat :: i in ids <==> i <= n
    ensures |ids| == n + 1
  {
    if n > 0 {
      UpTo(n - 1, ids - {n});
    } else {
      assert ids == {0};
    }
  }

  /** There is one execution node for the root and one for every child call, and child calls keep to
      their limit. No node is deeper than the depth limit allows, nor the root. */
  lemma NodesAreChildCallsPlusOne(env: Env, s: State)
    requires Reachable(env, s)
    ensures var nodes := NodesAfter(env.tree.root, s.h);
            && |nodes| == 1 + Spawns(s.h)
            && Spawns(s.h) <= env.limits.maxChildAgentCalls
            && forall n :: n in nodes && nodes[n].parent.Some? ==> nodes[n].depth < env.limits.maxDepth
  {
    ReachableStatesFit(env, s);
    var nodes := NodesAfter(env.tree.root, s.h);
    UpTo(Spawns(s.h), nodes.Keys);
    assert |nodes| == |nodes.Keys|;
    forall n | n in nodes && nodes[n].parent.Some? ensures nodes[n].depth < env.limits.maxDepth {
      assert NodeFits(env, nodes, n);
    }
  }

  /** A tool budget of 0 lets every direct call through and no delegation: the two checks read it
      differently. */
  lemma ZeroToolBudget(env: Env, s: State)
    requires env.limits.maxToolCalls == 0 && Reachable(env, s)
    ensures MayCharge(env, s.h) && Spawns(s.h) == 0
    ensures forall agent :: !Enabled(env, s, Push(agent))
  {
    ReachableStatesFit(env, s);
  }

  predicate FoldsAtMost(h: History, most: nat) {
    h.Start? || (FoldsAtMost(h.before, most) && (h.event.Folded? ==> h.event.calls <= most))
  }

  predicate JustCharged(h: History) {
    h.Log? && h.event.Charged?
  }

  lemma {:induction false} ToolBudgetAlways(env: Env, trace: Trace, s: State, most: nat)
    requires RunsTo(env, Initial(env), trace, s) && FoldsAtMost(s.h, most)
    requires 0 < env.limits.maxToolCalls && env.limits.maxToolCalls + most < U32
    ensures Charges(s.h) <= env.limits.maxToolCalls
    ensures Tally(s.h) <= env.limits.maxToolCalls + most
    ensures JustCharged(s.h) ==> Tally(s.h) <= env.limits.maxToolCalls
    ensures Charges(s.h) <= Tally(s.h)
    decreases trace
  {
    match trace
    case Done =>
    case Then(b, a) =>
      var m :| RunsTo(env, Initial(env), b, m) && Enabled(env, m, a) && After(env, m, a) == s;
      assert FoldsAtMost(m.h, most);
      ToolBudgetAlways(env, b, m, most);
  }

  /** With a budget of `maxToolCalls` and at most `most` calls per script, direct calls stay within the budget
      and all calls exceed it by at most one script, as long as the 32-bit counter cannot wrap. */
  lemma ToolBudget(env: Env, s: State, most: nat)
    requires Reachable(env, s) && FoldsAtMost(s.h, most)
    requires 0 < env.limits.maxToolCalls && env.limits.maxToolCalls + most < U32
    ensures Charges(s.h) <= env.limits.maxToolCalls
    ensures Tally(s.h) <= env.limits.maxToolCalls + most
    ensures Counted(s.h) == Tally(s.h)
  {
    var trace :| RunsTo(env, Initial(env), trace, s);
    ToolBudgetAlways(env, trace, s, most);
  }

  // ---- the gate ----

  /** Every call that was counted and every child that was started stands right behind an approval of its own;
      a tool for code only was never dispatched; calls were folded in right behind a dispatched script. */
  predicate Gated(env: Env, h: History) {
    h.Start? || (Gated(env, h.before) && GatedEvent(env, h.before, h.event))
  }

  predicate GatedEvent(env: Env, b: History, e: Event) {
    || e.Decided? || e.Ended? || e.Dropped?
    || (e.Charged? && JustApproved(b, e.tool) && e.tool != CALL_AGENT && (e.dispatched <==> !CodeOnly(env, e.tool)))
    || (e.Spawned? && JustApproved(b, CALL_AGENT))
    || (e.Folded? && env.ptcEnabled && b.Log? && b.event == Charged(RUN_CODE, true))
  }

  lemma {:induction false} GatedAlways(env: Env, trace: Trace, s: State)
    requires RunsTo(env, Initial(env), trace, s)
    ensures Gated(env, s.h)
    decreases trace
  {
    match trace
    case Done =>
    case Then(b, a) =>
      var m :| RunsTo(env, Initial(env), b, m) && Enabled(env, m, a) && After(env, m, a) == s;
      GatedAlways(env, b, m);
  }

  lemma ReachableIsGated(env: Env, s: State)
    requires Reachable(env, s)
    ensures Gated(env, s.h)
  {
    var trace :| RunsTo(env, Initial(env), trace, s);
    GatedAlways(env, trace, s);
  }

  /** The gate is the single way through: whatever the script, at any depth of delegation, nothing was counted,
      dispatched, delegated or folded in without an approval of its own right before. */
  lemma NothingWithoutItsOwnApproval(env: Env, cancelled: bool, layer: Layer)
    requires env.tree.root in env.tree.nodes
    ensures Gated(env, PlayRun(env, cancelled, layer).h)
  {
    if Starts(env, cancelled) {
      RunIsARunOfTheMachine(env, layer);
      ReachableIsGated(env, State(PlayRun(env, false, layer).h, []));
    }
  }

  // ---- the watchdog ----

  /** The decisions made on one tool, in order. */
  function Own(h: History, tool: string): seq<bool> {
    match h
    case Start => []
    case Log(b, Decided(t, approved)) => if t == tool then Own(b, tool) + [approved] else Own(b, tool)
    case Log(b, _) => Own(b, tool)
  }

  function TrailingDenials(decisions: seq<bool>): nat {
    if decisions == [] || decisions[|decisions| - 1] then 0
    else TrailingDenials(decisions[..|decisions| - 1]) + 1
  }

  predicate ThreeInARow(decisions: seq<bool>) {
    exists i :: 0 <= i && i + 2 < |decisions| && !decisions[i] && !decisions[i + 1] && !decisions[i + 2]
  }

  /** The counter of a tool is the trailing run of denials in that tool's own decisions; what is decided on
      other tools does not matter. */
  lemma {:induction false} StreakIsTrailingDenials(h: History, tool: string)
    ensures Streak(h, tool) == TrailingDenials(Own(h, tool))
  {
    match h
    case Start =>
    case Log(b, e) =>
      StreakIsTrailingDenials(b, tool);
      if e.Decided? && e.tool == tool {
        assert Own(h, tool)[..|Own(b, tool)|] == Own(b, tool);
      }
  }

  lemma {:induction false} TrailingIsSuffix(decisions: seq<bool>)
    ensures TrailingDenials(decisions) <= |decisions|
    ensures forall i :: |decisions| - TrailingDenials(decisions) <= i < |decisions| ==> !decisions[i]
    ensures TrailingDenials(decisions) < |decisions| ==> decisions[|decisions| - TrailingDenials(decisions) - 1]
  {
    if decisions != [] && !decisions[|decisions| - 1] {
      TrailingIsSuffix(decisions[..|decisions| - 1]);
    }
  }

  lemma ThreeInARowGrows(decisions: seq<bool>, approved: bool)
    ensures ThreeInARow(decisions + [approved])
       <==> ThreeInARow(decisions) || TrailingDenials(decisions + [approved]) >= APPROVAL_DENIAL_LIMIT
  {
    var longer := decisions + [approved];
    TrailingIsSuffix(longer);
    if ThreeInARow(decisions) {
      var i :| 0 <= i && i + 2 < |decisions| && !decisions[i] && !decisions[i + 1] && !decisions[i + 2];
      assert !longer[i] && !longer[i + 1] && !longer[i + 2];
    }
    if ThreeInARow(longer) {
      var i :| 0 <= i && i + 2 < |longer| && !longer[i] && !longer[i + 1] && !longer[i + 2];
      if i + 2 < |decisions| {
        assert !decisions[i] && !decisions[i + 1] && !decisions[i + 2];
      }
    }
    if TrailingDenials(longer) >= APPROVAL_DENIAL_LIMIT {
      var i := |longer| - 3;
      assert !longer[i] && !longer[i + 1] && !longer[i + 2];
    }
  }

  predicate DeniedThreeTimesInARow(h: History, tool: string) {
    ThreeInARow(Own(h, tool))
  }

  lemma OneMoreEvent(b: History, e: Event, tool: string)
    ensures DeniedThreeTimesInARow(Log(b, e), tool) <==>
              || DeniedThreeTimesInARow(b, tool)
              || (e == Decided(tool, false) && Streak(Log(b, e), tool) >= APPROVAL_DENIAL_LIMIT)
  {
    if e.Decided? && e.tool == tool {
      StreakIsTrailingDenials(Log(b, e), tool);
      ThreeInARowGrows(Own(b, tool), e.approved);
    }
  }

  /** The watchdog has tripped exactly when some tool was denied three times in a row. */
  lemma {:induction false} WatchdogIsThreeInARow(h: History)
    ensures Watchdog(h).Some? <==> exists tool :: DeniedThreeTimesInARow(h, tool)
  {
    match h
    case Start =>
    case Log(b, e) =>
      WatchdogIsThreeInARow(b);
      if tool :| DeniedThreeTimesInARow(b, tool) {
        OneMoreEvent(b, e, tool);
      }
      if e.Decided? {
        OneMoreEvent(b, e, e.tool);
      }
      if tool :| DeniedThreeTimesInARow(h, tool) {
        OneMoreEvent(b, e, tool);
      }
  }

  /** `p` is what `h` was at some time. */
  predicate Earlier(p: History, h: History) {
    p == h || (h.Log? && Earlier(p, h.before))
  }

  function Events(h: History): nat {
    match h
    case Start => 0
    case Log(b, _) => Events(b) + 1
  }

  lemma {:induction false} EarlierIsShorter(p: History, h: History)
    requires Earlier(p, h)
    ensures Events(p) <= Events(h) && (Events(p) == Events(h) ==> p == h)
  {
    if p != h {
      EarlierIsShorter(p, h.before);
    }
  }

  /** At the time `p` of the history `h`, `tool` was denied for at least the third time in a row. */
  predicate TrippedAt(h: History, p: History, tool: string) {
    && Earlier(p, h)
    && p.Log? && p.event == Decided(tool, false)
    && TrailingDenials(Own(p, tool)) >= APPROVAL_DENIAL_LIMIT
  }

  /** `tool` was denied for at least the third time in a row, and later no tool was. */
  ghost predicate LastToTrip(h: History, tool: string) {
    exists p :: TrippedAt(h, p, tool) && forall q, other :: TrippedAt(h, q, other) ==> Earlier(q, p)
  }

  lemma TripsNow(h: History, now: string, tool: string)
    requires TrippedAt(h, h, now)
    ensures LastToTrip(h, tool) <==> tool == now
  {
    if LastToTrip(h, tool) {
      var p :| TrippedAt(h, p, tool) && forall q, other :: TrippedAt(h, q, other) ==> Earlier(q, p);
      assert Earlier(h, p);
      EarlierIsShorter(h, p);
      EarlierIsShorter(p, h);
    }
  }

  lemma TripsNotNow(h: History, tool: string)
    requires h.Log? && forall other :: !TrippedAt(h, h, other)
    ensures LastToTrip(h, tool) <==> LastToTrip(h.before, tool)
  {
    forall p, other ensures TrippedAt(h, p, other) <==> TrippedAt(h.before, p, other) {
      if TrippedAt(h, p, other) {
        assert p != h;
      }
    }
  }

  /** The tool on record is the last that was denied for at least the third time in a row. */
  lemma {:induction false} WatchdogIsLastToTrip(h: History, tool: string)
    ensures Watchdog(h) == Some(tool) <==> LastToTrip(h, tool)
  {
    match h
    case Start =>
    case Log(b, e) =>
      WatchdogIsLastToTrip(b, tool);
      if e.Decided? {
        StreakIsTrailingDenials(h, e.tool);
      }
      if e.Decided? && !e.approved && Streak(h, e.tool) >= APPROVAL_DENIAL_LIMIT {
        TripsNow(h, e.tool, tool);
      } else {
        TripsNotNow(h, tool);
      }
  }

  // ---- played scripts are runs of the machine ----

  /** Where layers are given up: only for a tripped watchdog or a cancelled token. */
  predicate FlowFits(env: Env, depth: int, h: History, flow: Flow) {
    || flow.Onward?
    || (flow.level == -1 <= depth && Watchdog(h).Some?)
    || (0 <= flow.level <= depth && env.mayCancel)
  }

  lemma PlayedTool(env: Env, path: seq<Frame>, h: History, c: Call)
    requires path != [] && JustApproved(h, c.name) && c.name != CALL_AGENT
    ensures var step := PlayTool(env, path, h, c);
            Leads(env, State(h, path), State(step.h, path)) && FlowFits(env, Depth(path), step.h, step.flow)
  {
    var s := State(h, path);
    StayLeads(env, s);
    if MayCharge(env, h) {
      var charge := Charge(c.name, !OnlyFromCode(env, c));
      StepLeads(env, s, charge);
      var charged := After(env, s, charge);
      if IsScript(env, c) && c.hasCode {
        StepLeads(env, charged, Fold(Saturated(c.bridgeCalls)));
        LeadsJoin(env, s, charged, After(env, charged, Fold(Saturated(c.bridgeCalls))));
      }
    }
  }

  lemma {:induction false} PlayedCall(env: Env, path: seq<Frame>, h: History, c: Call)
    requires path != []
    ensures var step := PlayCall(env, path, h, c);
            Leads(env, State(h, path), State(step.h, path)) && FlowFits(env, Depth(path), step.h, step.flow)
    decreases c, 2
  {
    var s := State(h, path);
    StayLeads(env, s);
    if Waiting(env, Depth(path), h, c.before).Onward? {
      var decide := Decide(c.name, c.approved);
      var decided := After(env, s, decide);
      StepLeads(env, s, decide);
      if c.approved {
        if c.name == CALL_AGENT {
          PlayedDelegation(env, path, decided.h, c);
        } else {
          PlayedTool(env, path, decided.h, c);
        }
        LeadsJoin(env, s, decided, State(PlayCall(env, path, h, c).h, path));
      }
    }
  }

  lemma PopPush(path: seq<Frame>, frame: Frame)
    ensures Pop(path + [frame]) == path && Top(path + [frame]) == frame
  {
  }

  lemma {:induction false} PlayedDelegation(env: Env, path: seq<Frame>, h: History, c: Call)
    requires path != [] && JustApproved(h, CALL_AGENT)
    ensures var step := PlayDelegation(env, path, h, c);
            Leads(env, State(h, path), State(step.h, path)) && FlowFits(env, Depth(path), step.h, step.flow)
    decreases c, 1
  {
    var s := State(h, path);
    StayLeads(env, s);
    if MayDelegate(env, path, h, c) {
      var push := Push(c.target.value);
      var pushed := After(env, s, push);
      StepLeads(env, s, push);
      PlayedChild(env, pushed.path, pushed.h, c.child);
      PopPush(path, ChildFrame(path, h, c));
      LeadsJoin(env, s, pushed, State(PlayDelegation(env, path, h, c).h, path));
    }
  }

  lemma {:induction false} PlayedChild(env: Env, path: seq<Frame>, h: History, layer: Layer)
    requires |path| > 1 && Top(path).agent in env.tree.nodes
    ensures var step := PlayChild(env, path, h, layer);
            Leads(env, State(h, path), State(step.h, Pop(path))) && FlowFits(env, Depth(path) - 1, step.h, step.flow)
    decreases layer, 2
  {
    var s := State(h, path);
    if !Resolves(env, Top(path).agent) {
      StepLeads(env, s, Leave);
    } else {
      var body := PlayBody(env, path, h, layer);
      PlayedBody(env, path, h, layer);
      var m := State(body.h, path);
      var last := if body.ending.Ends? then End(body.ending.outcome) else Drop;
      StepLeads(env, m, last);
      LeadsJoin(env, s, m, After(env, m, last));
    }
  }

  lemma {:induction false} PlayedBody(env: Env, path: seq<Frame>, h: History, layer: Layer)
    requires path != []
    ensures var body := PlayBody(env, path, h, layer);
            && Leads(env, State(h, path), State(body.h, path))
            && (body.ending.Gone? ==> FlowFits(env, Depth(path) - 1, body.h, Unwind(body.ending.level)))
    decreases layer, 1
  {
    PlayedCalls(env, path, h, layer.calls);
  }

  lemma {:induction false} PlayedCalls(env: Env, path: seq<Frame>, h: History, calls: seq<Call>)
    requires path != []
    ensures var step := PlayCalls(env, path, h, calls);
            Leads(env, State(h, path), State(step.h, path)) && FlowFits(env, Depth(path), step.h, step.flow)
    decreases calls, 0
  {
    StayLeads(env, State(h, path));
    if calls != [] {
      var step := PlayCall(env, path, h, calls[0]);
      PlayedCall(env, path, h, calls[0]);
      if step.flow.Onward? {
        PlayedCalls(env, path, step.h, calls[1..]);
        LeadsJoin(env, State(h, path), State(step.h, path), State(PlayCalls(env, path, h, calls).h, path));
      }
    }
  }

  // ---- played parts of a run lead from reachable states to reachable states ----

  lemma ReachableCall(env: Env, path: seq<Frame>, h: History, c: Call)
    requires path != [] && Reachable(env, State(h, path))
    ensures Reachable(env, State(PlayCall(env, path, h, c).h, path))
    ensures Reachable(env, State(Log(h, Decided(c.name, c.approved)), path))
  {
    var s := State(h, path);
    PlayedCall(env, path, h, c);
    LeadsJoin(env, Initial(env), s, State(PlayCall(env, path, h, c).h, path));
    StepLeads(env, s, Decide(c.name, c.approved));
    LeadsJoin(env, Initial(env), s, After(env, s, Decide(c.name, c.approved)));
  }

  lemma ReachableSpawn(env: Env, path: seq<Frame>, h: History, c: Call)
    requires path != [] && Reachable(env, State(h, path)) && JustApproved(h, CALL_AGENT) && MayDelegate(env, path, h, c)
    ensures var frame := ChildFrame(path, h, c);
            Reachable(env, State(Log(h, Spawned(frame.node, frame.agent, Top(path).node)), path + [frame]))
  {
    var s := State(h, path);
    StepLeads(env, s, Push(c.target.value));
    LeadsJoin(env, Initial(env), s, After(env, s, Push(c.target.value)));
  }

  lemma ReachableChild(env: Env, path: seq<Frame>, frame: Frame, h: History, layer: Layer)
    requires path != [] && frame.agent in env.tree.nodes && Reachable(env, State(h, path + [frame]))
    ensures Reachable(env, State(PlayChild(env, path + [frame], h, layer).h, path))
  {
    PlayedChild(env, path + [frame], h, layer);
    PopPush(path, frame);
    LeadsJoin(env, Initial(env), State(h, path + [frame]), State(PlayChild(env, path + [frame], h, layer).h, path));
  }

  predicate Starts(env: Env, cancelled: bool) {
    !cancelled && Resolves(env, env.tree.root)
  }

  /** A run that starts is a run of the machine that ends with an empty stack. It is never reported as
      cancelled. */
  lemma RunIsARunOfTheMachine(env: Env, layer: Layer)
    requires Starts(env, false)
    ensures var end := PlayRun(env, false, layer);
            Reachable(env, State(end.h, [])) && end.result != Cancelled && end.result != UnresolvedModel
  {
    var body := PlayBody(env, [RootFrame(env)], Start, layer);
    PlayedBody(env, [RootFrame(env)], Start, layer);
    var m := State(body.h, [RootFrame(env)]);
    var end := End(OutcomeOf(Verdict(env, body)));
    StepLeads(env, m, end);
    assert Pop(m.path) == [];
    LeadsJoin(env, Initial(env), m, After(env, m, end));
  }

  /** A run is aborted exactly when some tool was denied three times in a row, whatever its loop
      came to; the abort names the last tool to be denied for the third time in a row, or more often. */
  lemma AbortsExactlyOnThreeInARow(env: Env, cancelled: bool, layer: Layer)
    requires env.tree.root in env.tree.nodes
    ensures var end := PlayRun(env, cancelled, layer);
            && (end.result.ApprovalAbort? <==> exists tool :: DeniedThreeTimesInARow(end.h, tool))
            && (end.result.ApprovalAbort? ==> LastToTrip(end.h, end.result.tool))
  {
    var end := PlayRun(env, cancelled, layer);
    WatchdogIsThreeInARow(end.h);
    if end.result.ApprovalAbort? {
      WatchdogIsLastToTrip(end.h, end.result.tool);
    }
  }

  /** What holds at the end of a run, whether it started or not. */
  lemma WhatEveryRunKeeps(env: Env, cancelled: bool, layer: Layer)
    requires env.tree.root in env.tree.nodes
    ensures var end := PlayRun(env, cancelled, layer);
            && Spawns(end.h) <= env.limits.maxChildAgentCalls
            && Gated(env, end.h)
            && (end.result.ApprovalAbort? <==> exists tool :: DeniedThreeTimesInARow(end.h, tool))
  {
    NothingWithoutItsOwnApproval(env, cancelled, layer);
    AbortsExactlyOnThreeInARow(env, cancelled, layer);
    if Starts(env, cancelled) {
      RunIsARunOfTheMachine(env, layer);
      NodesAreChildCallsPlusOne(env, State(PlayRun(env, cancelled, layer).h, []));
    }
  }

  /** At the end of a run a node is still running exactly when its model alias did not resolve, its layer was
      dropped in flight, or the run was cancelled before it began; layers are dropped only in runs that are aborted or
      cancelled. A node is completed exactly when its layer returned, and no layer ends twice. */
  lemma WhoIsStillRunningAtTheEnd(env: Env, cancelled: bool, layer: Layer, n: nat)
    requires env.tree.root in env.tree.nodes
    ensures var end := PlayRun(env, cancelled, layer);
            var nodes := NodesAfter(env.tree.root, end.h);
            n in nodes ==>
              && (nodes[n].status == Running <==>
                    !Resolves(env, nodes[n].agent) || HasDropped(end.h, n) || end.result == Cancelled)
              && (nodes[n].status == Completed <==> HasReturned(end.h, n))
              && Endings(end.h, n) <= 1
              && (HasDropped(end.h, n) ==> end.result.ApprovalAbort? || env.mayCancel)
  {
    var end := PlayRun(env, cancelled, layer);
    var nodes := NodesAfter(env.tree.root, end.h);
    if Starts(env, cancelled) && n in nodes {
      RunIsARunOfTheMachine(env, layer);
      ReachableStatesFit(env, State(end.h, []));
      assert StatusFits(env, State(end.h, []), nodes, n);
      DroppedIsDropped(end.h, n);
    }
  }

  lemma {:induction false} DroppedIsDropped(h: History, n: nat)
    ensures HasDropped(h, n) ==> AnyDropped(h)
  {
    if h.Log? {
      DroppedIsDropped(h.before, n);
    }
  }

  // ---- usage ----

  /** What the layer of node `n` is charged with: its usage if it returned. */
  function UsedBy(h: History, n: nat): Usage {
    match h
    case Start => Usage(0, 0, 0.0)
    case Log(b, Ended(m, Returned(u))) => if m == n then Plus(UsedBy(b, n), u) else UsedBy(b, n)
    case Log(b, _) => UsedBy(b, n)
  }

  function UsedByFirst(h: History, count: nat): Usage {
    if count == 0 then Usage(0, 0, 0.0) else Plus(UsedByFirst(h, count - 1), UsedBy(h, count - 1))
  }

  lemma {:induction false} NobodyElsePays(b: History, e: Event, count: nat)
    requires e.Ended? ==> e.outcome.Failed? || e.node >= count
    ensures UsedByFirst(Log(b, e), count) == UsedByFirst(b, count)
  {
    if count > 0 {
      NobodyElsePays(b, e, count - 1);
    }
  }

  lemma {:induction false} OneNodePays(b: History, n: nat, u: Usage, count: nat)
    requires n < count
    ensures UsedByFirst(Log(b, Ended(n, Returned(u))), count) == Plus(UsedByFirst(b, count), u)
  {
    var h := Log(b, Ended(n, Returned(u)));
    if n == count - 1 {
      NobodyElsePays(b, Ended(n, Returned(u)), n);
      PlusRegrouped(UsedByFirst(b, n), UsedBy(b, n), u);
    } else {
      OneNodePays(b, n, u, count - 1);
      PlusRegrouped(UsedByFirst(b, count - 1), u, UsedBy(b, count - 1));
    }
    assert UsedByFirst(h, count) == Plus(UsedByFirst(h, count - 1), UsedBy(h, count - 1));
  }

  lemma PlusRegrouped(a: Usage, b: Usage, c: Usage)
    ensures Plus(a, Plus(b, c)) == Plus(Plus(a, b), c) == Plus(Plus(a, c), b)
  {
  }

  predicate OnlyFirstEnd(h: History, count: nat) {
    h.Start? || (OnlyFirstEnd(h.before, count) && (h.event.Ended? ==> h.event.node < count))
  }

  lemma {:induction false} NothingUsed(count: nat)
    ensures UsedByFirst(Start, count) == Usage(0, 0, 0.0)
  {
    if count > 0 {
      NothingUsed(count - 1);
    }
  }

  lemma {:induction false} SpentIsUsed(h: History, count: nat)
    requires OnlyFirstEnd(h, count)
    ensures Spent(h) == UsedByFirst(h, count)
  {
    match h
    case Start => NothingUsed(count);
    case Log(b, e) =>
      SpentIsUsed(b, count);
      if e.Ended? && e.outcome.Returned? {
        OneNodePays(b, e.node, e.outcome.usage, count);
      } else {
        NobodyElsePays(b, e, count);
      }
  }

  lemma {:induction false} OnlyNodesEnd(env: Env, trace: Trace, s: State, count: nat)
    requires RunsTo(env, Initial(env), trace, s) && Spawns(s.h) < count
    ensures OnlyFirstEnd(s.h, count)
    decreases trace
  {
    match trace
    case Done =>
    case Then(b, a) =>
      var m :| RunsTo(env, Initial(env), b, m) && Enabled(env, m, a) && After(env, m, a) == s;
      OnlyNodesEnd(env, b, m, count);
      if a.End? {
        InvariantAlways(env, b, m);
        TopIsANode(env, m);
      }
  }

  lemma TopIsANode(env: Env, s: State)
    requires Structure(env, s) && s.path != []
    ensures Top(s.path).node <= Spawns(s.h)
  {
    TopIsThere(env, NodesAfter(env.tree.root, s.h), s.path);
  }

  lemma TopIsThere(env: Env, nodes: ExecutionNodes, path: seq<Frame>)
    requires path != [] && StackFits(env, nodes, path)
    ensures Top(path).node in nodes
  {
    assert FrameFits(env, nodes, path, |path| - 1);
  }

  lemma {:induction false} UnreturnedUsesNothing(h: History, n: nat)
    requires !HasReturned(h, n)
    ensures UsedBy(h, n) == Usage(0, 0, 0.0)
  {
    if h.Log? {
      UnreturnedUsesNothing(h.before, n);
    }
  }

  /** Usage is conserved: what the run has spent is the sum over its nodes, a node adds what its layer reported
      if it is completed and nothing otherwise. */
  lemma UsageIsConserved(env: Env, layer: Layer)
    requires Starts(env, false)
    ensures var h := PlayRun(env, false, layer).h;
            var nodes := NodesAfter(env.tree.root, h);
            && Spent(h) == UsedByFirst(h, |nodes|)
            && forall n :: n in nodes && nodes[n].status != Completed ==> UsedBy(h, n) == Usage(0, 0, 0.0)
  {
    var h := PlayRun(env, false, layer).h;
    var s := State(h, []);
    RunIsARunOfTheMachine(env, layer);
    NodesAreChildCallsPlusOne(env, s);
    var trace :| RunsTo(env, Initial(env), trace, s);
    OnlyNodesEnd(env, trace, s, Spawns(h) + 1);
    SpentIsUsed(h, Spawns(h) + 1);
    var nodes := NodesAfter(env.tree.root, h);
    forall n | n in nodes && nodes[n].status != Completed ensures UsedBy(h, n) == Usage(0, 0, 0.0) {
      WhoIsStillRunningAtTheEnd(env, false, layer, n);
      UnreturnedUsesNothing(h, n);
    }
  }

  lemma UsedByStep(h: History, n: nat, outcome: Outcome)
    requires UsedBy(h, n) == Usage(0, 0, 0.0)
    ensures UsedBy(Log(h, Ended(n, outcome)), n)
         == if outcome.Returned? then outcome.usage else Usage(0, 0, 0.0)
  {
  }

  /** The root is completed exactly when the run finishes, and counted exactly then, with the usage the run
      reports. */
  lemma RootCompletedIffFinished(env: Env, layer: Layer)
    requires Starts(env, false)
    ensures var end := PlayRun(env, false, layer);
            var nodes := NodesAfter(env.tree.root, end.h);
            && 0 in nodes
            && (nodes[0].status == Completed <==> end.result.Finished?)
            && UsedBy(end.h, 0) == if end.result.Finished? then end.result.usage else Usage(0, 0, 0.0)
  {
    var end := PlayRun(env, false, layer);
    RunIsARunOfTheMachine(env, layer);
    ReachableStatesFit(env, State(end.h, []));
    var body := PlayBody(env, [RootFrame(env)], Start, layer);
    PlayedBody(env, [RootFrame(env)], Start, layer);
    ReachableStatesFit(env, State(body.h, [RootFrame(env)]));
    var before := NodesAfter(env.tree.root, body.h);
    assert FrameFits(env, before, [RootFrame(env)], 0);
    assert NodesAfter(env.tree.root, end.h) == WithStatus(before, 0, StatusOf(OutcomeOf(end.result)));
    WhoIsStillRunningAtTheEnd(env, false, layer, 0);
    assert StatusFits(env, State(body.h, [RootFrame(env)]), before, 0);
    assert OnStack([RootFrame(env)], 0);
    UnreturnedUsesNothing(body.h, 0);
    UsedByStep(body.h, 0, OutcomeOf(end.result));
  }

  // ---- what costs no tool call ----

  /** Every call of the layer, and of every child it may run, is denied or a delegation. */
  predicate CallsNoTool(layer: Layer)
    decreases layer, 1
  {
    NoToolAmong(layer.calls)
  }

  predicate NoToolAmong(calls: seq<Call>)
    decreases calls, 0
  {
    calls == [] || ((!calls[0].approved || (calls[0].name == CALL_AGENT && CallsNoTool(calls[0].child)))
                    && NoToolAmong(calls[1..]))
  }

  predicate SameTallies(h: History, h': History) {
    Tally(h) == Tally(h') && Charges(h) == Charges(h')
  }

  lemma {:induction false} FreeCall(env: Env, path: seq<Frame>, h: History, c: Call)
    requires !c.approved || (c.name == CALL_AGENT && CallsNoTool(c.child))
    ensures SameTallies(h, PlayCall(env, path, h, c).h)
    decreases c, 2
  {
    var decided := Log(h, Decided(c.name, c.approved));
    assert SameTallies(h, decided);
    if Waiting(env, Depth(path), h, c.before).Onward? && c.approved {
      assert PlayCall(env, path, h, c) == PlayDelegation(env, path, decided, c);
      if MayDelegate(env, path, decided, c) {
        var frame := ChildFrame(path, decided, c);
        var spawned := Log(decided, Spawned(frame.node, frame.agent, path[|path| - 1].node));
        assert SameTallies(h, spawned);
        FreeChild(env, path + [frame], spawned, c.child);
      }
    }
  }

  lemma {:induction false} FreeChild(env: Env, path: seq<Frame>, h: History, layer: Layer)
    requires path != [] && Top(path).agent in env.tree.nodes && CallsNoTool(layer)
    ensures SameTallies(h, PlayChild(env, path, h, layer).h)
    decreases layer, 2
  {
    DenialsAndDelegationsAreFree(env, path, h, layer.calls);
    assert SameTallies(h, PlayBody(env, path, h, layer).h);
  }

  /** Denied calls and delegations never touch the tool budget, however deep they go. */
  lemma {:induction false} DenialsAndDelegationsAreFree(env: Env, path: seq<Frame>, h: History, calls: seq<Call>)
    requires NoToolAmong(calls)
    ensures SameTallies(h, PlayCalls(env, path, h, calls).h)
    decreases calls, 0
  {
    if calls != [] {
      FreeCall(env, path, h, calls[0]);
      DenialsAndDelegationsAreFree(env, path, PlayCall(env, path, h, calls[0]).h, calls[1..]);
    }
  }
}
