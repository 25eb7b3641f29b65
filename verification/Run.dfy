/**
  What one run of an agent tree does (crates/openslate-core/src/runner.rs, execution.rs).

  The model's choices are a script: a `Layer` is everything one agent's loop will ask for, with the layers
  of the children it delegates to, and the points at which its future has to wait. A run is played from the
  script into a `History` of events. Every check in here reads the history: there are no counters, so that
  the counters of the runner can be proved against it.
 */
module Run {
  import opened Wrappers
  import opened AgentTree

  const U32: nat := 0x1_0000_0000

  const CALL_AGENT := "call_agent"
  const RUN_CODE := "run_code"

  /** Denials of one tool in a row that abort the run. */
  const APPROVAL_DENIAL_LIMIT: nat := 3

  datatype Usage = Usage(input: nat, output: nat, cost: real)

  /** How a layer's loop ends: with a result (finished or interrupted) or with an error. */
  datatype Outcome = Returned(usage: Usage) | Failed

  /** What happens where a future has to wait: nothing, or it is woken up while the token has been
      cancelled and the layer at some depth is the first to see that. */
  datatype Await = Straight | Wait(cancelSeenAt: Option<nat>)

  datatype Call = Call(
    name: string,
    approved: bool,           // the approval gate's decision
    before: Await,            // waiting for the provider before this call
    inside: Await,            // waiting for the tool
    target: Option<AgentId>,  // call_agent: the `agent_id` argument
    hasTask: bool,            // call_agent: is there a `task` argument
    child: Layer,             // call_agent: what the child will do if it is run
    hasCode: bool,            // run_code: is there a `code` argument
    bridgeCalls: nat)         // run_code: the tool calls the sandbox reports

  datatype Layer = Layer(calls: seq<Call>, last: Await, outcome: Outcome, interrupted: Usage)

  datatype Limits = Limits(maxDepth: nat, maxToolCalls: nat, maxChildAgentCalls: nat)

  datatype Env = Env(
    tree: Tree,
    resolvable: set<string>,  // model aliases that resolve
    limits: Limits,
    ptcEnabled: bool,
    ptcOnly: set<string>,     // registered tools that may only be called from code
    mayCancel: bool)          // is the token cancelled at some time during the run

  datatype Frame = Frame(agent: AgentId, node: nat, depth: nat)

  datatype Event =
    | Decided(tool: string, approved: bool)
    | Charged(tool: string, dispatched: bool)
    | Folded(calls: nat)
    | Spawned(node: nat, agent: AgentId, parent: nat)
    | Ended(node: nat, outcome: Outcome)
    | Dropped(node: nat)

  datatype History = Start | Log(before: History, event: Event)

  // ---- reading a history ----

  /** How often `tool` has been denied since its last approval. */
  function Streak(h: History, tool: string): nat {
    match h
    case Start => 0
    case Log(b, Decided(t, approved)) =>
      if t != tool then Streak(b, tool) else if approved then 0 else Streak(b, tool) + 1
    case Log(b, _) => Streak(b, tool)
  }

  /** The tool last denied for the third time in a row, or more often. */
  function Watchdog(h: History): Option<string> {
    match h
    case Start => None
    case Log(b, Decided(t, false)) => if Streak(h, t) >= APPROVAL_DENIAL_LIMIT then Some(t) else Watchdog(b)
    case Log(b, _) => Watchdog(b)
  }

  /** Tool calls made: direct ones and those folded in by scripts. */
  function Tally(h: History): nat {
    match h
    case Start => 0
    case Log(b, Charged(_, _)) => Tally(b) + 1
    case Log(b, Folded(n)) => Tally(b) + n
    case Log(b, _) => Tally(b)
  }

  function Charges(h: History): nat {
    match h
    case Start => 0
    case Log(b, Charged(_, _)) => Charges(b) + 1
    case Log(b, _) => Charges(b)
  }

  function Spawns(h: History): nat {
    match h
    case Start => 0
    case Log(b, Spawned(_, _, _)) => Spawns(b) + 1
    case Log(b, _) => Spawns(b)
  }

  function Plus(u: Usage, v: Usage): Usage {
    Usage(u.input + v.input, u.output + v.output, u.cost + v.cost)
  }

  /** What the layers that returned have used. */
  function Spent(h: History): Usage {
    match h
    case Start => Usage(0, 0, 0.0)
    case Log(b, Ended(_, Returned(u))) => Plus(Spent(b), u)
    case Log(b, _) => Spent(b)
  }

  // ---- the execution tree ----

  datatype Status = Running | Completed | Broken

  datatype ExecutionNode = ExecutionNode(agent: AgentId, parent: Option<nat>, depth: nat, status: Status)

  type ExecutionNodes = map<nat, ExecutionNode>

  function RootNode(root: AgentId): ExecutionNode {
    ExecutionNode(root, None, 0, Running)
  }

  function ChildNode(nodes: ExecutionNodes, agent: AgentId, parent: nat): ExecutionNode {
    ExecutionNode(agent, Some(parent), (if parent in nodes then nodes[parent].depth else 0) + 1, Running)
  }

  function WithStatus(nodes: ExecutionNodes, node: nat, status: Status): ExecutionNodes {
    if node in nodes then nodes[node := nodes[node].(status := status)] else nodes
  }

  function StatusOf(outcome: Outcome): Status {
    if outcome.Returned? then Completed else Broken
  }

  function NodesAfter(root: AgentId, h: History): ExecutionNodes {
    match h
    case Start => map[0 := RootNode(root)]
    case Log(b, Spawned(n, agent, parent)) => NodesAfter(root, b)[n := ChildNode(NodesAfter(root, b), agent, parent)]
    case Log(b, Ended(n, outcome)) => WithStatus(NodesAfter(root, b), n, StatusOf(outcome))
    case Log(b, _) => NodesAfter(root, b)
  }

  // ---- playing a script ----

  /** Go on, or give up all layers deeper than `level`; the abort branch of the whole run is level -1. */
  datatype Flow = Onward | Unwind(level: int)

  datatype Step = Step(h: History, flow: Flow)

  datatype Ending = Ends(outcome: Outcome) | Gone(level: int)

  datatype Body = Body(h: History, ending: Ending)

  /** Where a future waits, a tripped watchdog is seen first, then a cancelled token. */
  function Waiting(env: Env, depth: int, h: History, await: Await): Flow {
    if await.Straight? then Onward
    else if Watchdog(h).Some? then Unwind(-1)
    else if env.mayCancel && await.cancelSeenAt.Some? && await.cancelSeenAt.value < depth then
      Unwind(await.cancelSeenAt.value)
    else Onward
  }

  function Depth(path: seq<Frame>): int {
    |path| - 1
  }

  predicate IsChild(tree: Tree, parent: AgentId, id: AgentId) {
    id in Children(tree.nodes, parent) && id in tree.nodes
  }

  /** The limits checked before a delegation, with the step count left out as the code does. */
  predicate WithinLimits(limits: Limits, depth: nat, toolCalls: nat, childCalls: nat) {
    && depth < limits.maxDepth
    && toolCalls < limits.maxToolCalls
    && childCalls < limits.maxChildAgentCalls
  }

  /** The counter of the tool budget is 32 bits wide. */
  function Counted(h: History): nat {
    Tally(h) % U32
  }

  predicate MayDelegate(env: Env, path: seq<Frame>, h: History, c: Call) {
    && c.target.Some? && c.hasTask && path != []
    && IsChild(env.tree, path[|path| - 1].agent, c.target.value)
    && WithinLimits(env.limits, path[|path| - 1].depth + 1, Counted(h), Spawns(h))
  }

  function ChildFrame(path: seq<Frame>, h: History, c: Call): Frame
    requires path != [] && c.target.Some?
  {
    Frame(c.target.value, Spawns(h) + 1, path[|path| - 1].depth + 1)
  }

  predicate MayCharge(env: Env, h: History) {
    env.limits.maxToolCalls == 0 || Counted(h) < env.limits.maxToolCalls
  }

  predicate IsScript(env: Env, c: Call) {
    c.name == RUN_CODE && env.ptcEnabled
  }

  /** A tool the model may use from code only; `run_code` itself never is one. */
  predicate CodeOnly(env: Env, tool: string) {
    tool != RUN_CODE && env.ptcEnabled && tool in env.ptcOnly
  }

  predicate OnlyFromCode(env: Env, c: Call) {
    !IsScript(env, c) && CodeOnly(env, c.name)
  }

  function Saturated(n: nat): nat {
    if n < U32 then n else U32 - 1
  }

  function PlayCall(env: Env, path: seq<Frame>, h: History, c: Call): Step
    decreases c, 2
  {
    var wait := Waiting(env, Depth(path), h, c.before);
    var decided := Log(h, Decided(c.name, c.approved));
    if wait.Unwind? then Step(h, wait)
    else if !c.approved then Step(decided, Onward)
    else if c.name == CALL_AGENT then PlayDelegation(env, path, decided, c)
    else PlayTool(env, path, decided, c)
  }

  function PlayTool(env: Env, path: seq<Frame>, h: History, c: Call): Step {
    if !MayCharge(env, h) then Step(h, Onward)
    else if OnlyFromCode(env, c) then Step(Log(h, Charged(c.name, false)), Onward)
    else
      var charged := Log(h, Charged(c.name, true));
      if IsScript(env, c) && !c.hasCode then Step(charged, Onward)
      else
        var wait := Waiting(env, Depth(path), charged, c.inside);
        if wait.Onward? && IsScript(env, c) && c.bridgeCalls > 0 then
          Step(Log(charged, Folded(Saturated(c.bridgeCalls))), Onward)
        else Step(charged, wait)
  }

  function PlayDelegation(env: Env, path: seq<Frame>, h: History, c: Call): Step
    decreases c, 1
  {
    if !MayDelegate(env, path, h, c) then Step(h, Onward)
    else
      var frame := ChildFrame(path, h, c);
      var spawned := Log(h, Spawned(frame.node, frame.agent, path[|path| - 1].node));
      PlayChild(env, path + [frame], spawned, c.child)
  }

  /** A child whose model alias does not resolve returns before its loop, and before any status update. */
  function PlayChild(env: Env, path: seq<Frame>, h: History, layer: Layer): Step
    requires path != [] && path[|path| - 1].agent in env.tree.nodes
    decreases layer, 2
  {
    var frame := path[|path| - 1];
    if env.tree.nodes[frame.agent].model !in env.resolvable then Step(h, Onward)
    else
      var body := PlayBody(env, path, h, layer);
      match body.ending
      case Ends(outcome) => Step(Log(body.h, Ended(frame.node, outcome)), Onward)
      case Gone(level) => Step(Log(body.h, Dropped(frame.node)), Unwind(level))
  }

  function PlayBody(env: Env, path: seq<Frame>, h: History, layer: Layer): Body
    decreases layer, 1
  {
    var step := PlayCalls(env, path, h, layer.calls);
    var flow := if step.flow.Onward? then Waiting(env, Depth(path), step.h, layer.last) else step.flow;
    match flow
    case Onward => Body(step.h, Ends(layer.outcome))
    case Unwind(level) =>
      Body(step.h, if level == Depth(path) then Ends(Returned(layer.interrupted)) else Gone(level))
  }

  function PlayCalls(env: Env, path: seq<Frame>, h: History, calls: seq<Call>): Step
    decreases calls, 0
  {
    if calls == [] then Step(h, Onward)
    else
      var step := PlayCall(env, path, h, calls[0]);
      if step.flow.Onward? then PlayCalls(env, path, step.h, calls[1..]) else step
  }

  datatype RunResult =
    | Finished(usage: Usage)
    | LoopError
    | ApprovalAbort(tool: string, agent: AgentId)
    | Cancelled
    | UnresolvedModel

  datatype RunEnd = RunEnd(h: History, result: RunResult)

  function RootFrame(env: Env): Frame {
    Frame(env.tree.root, 0, 0)
  }

  /** A tripped watchdog decides the result, whatever the loop came to. */
  function Verdict(env: Env, body: Body): RunResult {
    match Watchdog(body.h)
    case Some(tool) => ApprovalAbort(tool, env.tree.root)
    case None =>
      match body.ending
      case Ends(Returned(usage)) => Finished(usage)
      case Ends(Failed) => LoopError
      case Gone(_) => Cancelled
  }

  function OutcomeOf(result: RunResult): Outcome {
    if result.Finished? then Returned(result.usage) else Failed
  }

  function PlayRun(env: Env, cancelled: bool, layer: Layer): RunEnd
    requires env.tree.root in env.tree.nodes
  {
    if cancelled then RunEnd(Start, Cancelled)
    else if env.tree.nodes[env.tree.root].model !in env.resolvable then RunEnd(Start, UnresolvedModel)
    else
      var body := PlayBody(env, [RootFrame(env)], Start, layer);
      var result := Verdict(env, body);
      RunEnd(Log(body.h, Ended(0, OutcomeOf(result))), result)
  }
}
