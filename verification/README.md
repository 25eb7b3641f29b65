# OpenSlate core: a verified model

OpenSlate runs trees of LLM agents. These Dafny files model the parts of its runtime whose correctness is an
algorithm or a protocol, and prove what those parts promise.

* **One run of an agent tree** (`Run`, `RunMachine`, `RunLaws`, `RunOutcomes`, `RunWitnesses`, `AgentRunner`,
  `AgentTree`): agents call tools and
  delegate to child agents through one gate, which keeps a caller stack, an execution tree, two budgets, a watchdog
  on denied approvals and the usage totals. What the models will ask for is a *script* (`Run.Layer`): arbitrary calls,
  arbitrary child layers, arbitrary points at which a future waits and may be dropped. `Run` says what a script does
  to a *history* of events and reads every check off that history. `AgentRunner` is the runner's own class with its
  counters, map, stack and tree, and refines it. `RunMachine` is a small-step machine; its invariants are the laws of
  the delegation protocol, and the runner stays in its reachable states from call to call. `RunOutcomes` says from the
  script alone what every call, layer and run comes to.
* **Message histories with unanswered tool calls** (`AskUser`, `LateAnswers`, `TurnLaws`, `HistoryLaws`, `MessageHistory`): which calls
  dangle, how one is answered late, how all are closed before a new turn, what a cancelled turn leaves open. `History`
  is the vector with its index loops and its insertions carried out backwards.
* **Names and texts** (`Glob`, `ToolNames`, `NameLaws`, `PromptTemplate`, `Utf8`, `OutputPreview`, `OutputCap`, `LineBuffer`): the glob matcher
  that backtracks to the last star only, the two template scanners, cutting UTF-8 text at byte limits (section 3 of
  RFC 3629), line buffering of a stream.
* **Rules and merges** (`Approval`, `ApprovalLaws`, `ModelRegistry`): approval levels and the legacy policies they replace, and the merge
  of model metadata by source priority.

`Wrappers`, `Strings` and `AsciiCase` hold shared helpers. `dafny verify dfyconfig.toml` checks everything.

## Where the code and its documentation part

The model follows the code. Each point names the member that gives the exact condition or an input that shows it.

* A `*` in the *text* is matched as a literal, because the equality test comes before the star test (tool.rs:259, 262).
  The matcher agrees with the glob on every pattern exactly for texts without `*`, and on every text exactly for patterns
  without one (`Glob.ExactIffTextHasNoStar`, `Glob.ExactIffPatternHasNoStar`).
* `from_configs` looks for cycles only where the root can reach. A detached cycle is accepted; every agent is reachable
  from the root exactly when no cycle is left anywhere (`AgentTree.AllReachableIffAcyclic`).
* `max_tool_calls = 0` is documented as unlimited (config/validation.rs:175) and the gate reads it so, but `check_limits`
  then rejects every delegation (`RunLaws.ZeroToolBudget`).
* The tool-call counter is a wrapping 32-bit atomic. The budget bounds direct calls in every run exactly when there are no
  scripts, or the budget and the largest number of calls one script may report do not overflow it together
  (`RunWitnesses.BudgetHoldsIffCounterCannotWrap`).
* A child whose model alias does not resolve returns before any status update, so its execution node stays Running,
  although the caller's comment (runner.rs:889) takes it to be marked as failed. Every run of an
  agent that delegates to such a child shows it (`RunWitnesses.UnresolvedChildKeepsRunning`, and
  `RunLaws.WhoIsStillRunningAtTheEnd` for the exact condition).
* An aborted run does not count the root's usage, even when its loop had returned: the root is counted exactly when the run
  finishes (`RunLaws.RootCompletedIffFinished`, `RunWitnesses.AbortDropsWhatTheLoopReturned`). If several tools reach the
  limit of denials, the abort names the one that did so, or was denied again, last
  (`RunLaws.AbortsExactlyOnThreeInARow`).
* Reading the server off a default tool name fails for a prefix that holds `__` or ends in `_`; the name validator forbids
  only the first (`ToolNames.SlugFoundIffPrefixIsClean`).
* A dangling call is refused its late answer as already answered when a result for it stands in the run of an earlier
  message (not of a later one). Repair still closes it. Repairing equals answering every call late exactly when there is no
  such result (`TurnLaws.RepairIsAnsweringInOrder`, `TurnLaws.ResultBeforeItsCall`).
* The cap on tool output looks at the size an output reports. One reported to be within the cap is not touched, however long
  it is; the runtime's own error outputs report 0 bytes (`OutputCap.UnreportedOutputPasses`). Of any other the start is
  kept and a notice comes on top, so that no cap is kept even by all outputs of true size
  (`OutputCap.NoCapIsAlwaysKept`). `OutputCap.WithinCapIffRoomForTheNotice` says exactly which contents come out within the
  cap. For calls from code the bytes are counted first, which closes the first gap (`OutputCap.CountingFirstClosesTheGap`).

One comment is about the model's reading of a batch and has no member: runtime.rs:998-1002 expects a parallel batch to
overshoot the tool budget. In the code nothing waits between the load and the add (runner.rs:1291-1303), so a batch polled on
one task passes the gate one call after the other, and the model has such calls one after the other.

## Model

| member | source | states |
|---|---|---|
| `RunLaws.ReachableStatesFit` | crates/openslate-core/src/runner.rs:507-567 | in every state the machine of runs can reach, inside delegations too, frame i of the caller stack has depth i, its execution node has depth i and hangs below the node of frame i - 1, its agent is a child of the agent below it, and the execution tree mirrors the agent tree |
| `AgentRunner.StackIsAPath` | crates/openslate-core/src/runner.rs:507-567 | whenever a call is made or a layer runs, the runner's own stack is such a path of its own execution tree: `Execute`, `HandleCallAgent`, `RunAgent` and the loop of `ExecuteRun` keep the runner in a reachable state |
| `RunLaws.NoAgentTwiceOnTheStack` | crates/openslate-core/src/agent_tree.rs:98-122 | in a tree that was built successfully the stack is a walk from the root that never repeats an agent, so delegation is no deeper than there are agents whatever the limits |
| `RunLaws.NodesAreChildCallsPlusOne` | crates/openslate-core/src/runner.rs:792-845 | in every reachable state there are exactly 1 + child-call-count execution nodes, child calls keep to their limit, and no child node reaches the depth limit |
| `RunLaws.RunIsARunOfTheMachine` | crates/openslate-core/src/runner.rs:532-643 | every played run ends in a reachable state of the machine with an empty stack; a run that starts is never reported as cancelled |
| `RunLaws.StreakIsTrailingDenials` | crates/openslate-core/src/runner.rs:330-343 | a tool's denial counter is the length of the trailing run of denials among the decisions on that tool alone |
| `RunLaws.WatchdogIsThreeInARow` | crates/openslate-core/src/runner.rs:367-383 | the watchdog has tripped if and only if some tool was denied three times in a row in its own decisions |
| `RunLaws.WatchdogIsLastToTrip` | crates/openslate-core/src/runner.rs:367-383 | the tool on record is the one whose denial was the last that, with those right before it among the decisions on that tool, made at least three |
| `RunLaws.AbortsExactlyOnThreeInARow` | crates/openslate-core/src/runner.rs:604-629 | a run returns the approval abort if and only if some tool was denied three times in a row, whatever its loop returned; the tool named had such a denial (the third in a row or a later one) after which no tool had another |
| `RunLaws.WhoIsStillRunningAtTheEnd` | crates/openslate-core/src/runner.rs:654-764 | at the end of any run a node is Running exactly if its alias did not resolve, its layer was dropped in flight or the run was cancelled at its entry, Completed exactly if its layer returned; no layer ends twice; layers are dropped only in aborted or cancelled runs |
| `RunLaws.UsageIsConserved` | crates/openslate-core/src/runner.rs:631-640 | what the run has spent is the sum over its nodes of what each layer reported, and a node that is not completed adds nothing |
| `RunLaws.RootCompletedIffFinished` | crates/openslate-core/src/runner.rs:617-643 | the root is completed exactly if the run finishes; it is then charged with the usage the run reports, and otherwise with nothing |
| `RunWitnesses.AbortDropsWhatTheLoopReturned` | crates/openslate-core/src/runner.rs:604-640 | three denied calls of any tool in a loop that returns its usage: the run is aborted and counts nothing |
| `RunWitnesses.UnresolvedChildKeepsRunning` | crates/openslate-core/src/runner.rs:654-684 | wherever the root may delegate to a child whose alias does not resolve, the run finishes and the child's node is Running for good |
| `RunWitnesses.DanglingAliasKeepsRunning` | crates/openslate-core/src/runner.rs:684 | the same for two concrete agents of which one names an alias that does not resolve, as a level that points at a missing model entry |
| `RunLaws.NothingWithoutItsOwnApproval` | crates/openslate-core/src/runner.rs:1255-1343 | whatever the script, at any depth, each counted call and each started child stands in the history of the run right behind an approval of its own, a tool for code only was never dispatched directly, and calls are folded in only right behind a dispatched script |
| `RunOutcomes.EveryApprovedCallIsCounted` | crates/openslate-core/src/runner.rs:1279-1312 | the converse: in the history of every run each approval of a tool is directly followed by the counting of that call, dispatched unless it is for code only, except where the budget was used up |
| `RunOutcomes.ApprovedCallIsCounted` | crates/openslate-core/src/runner.rs:1291-1326 | an approved tool call within the budget adds exactly one to the direct calls and is dispatched unless turned away; a script that is not stopped adds what it reports, at most 2 to the 32 minus 1 |
| `RunOutcomes.OverBudgetCallIsNotCounted` | crates/openslate-core/src/runner.rs:1291-1298 | with the budget used up an approved tool call leaves its approval and nothing else |
| `RunOutcomes.DeniedCallIsOnlyDenied` | crates/openslate-core/src/runner.rs:1274-1278 | a denied call leaves its denial and the layer goes on |
| `RunOutcomes.StoppedCallIsNotMade` | crates/openslate-core/src/runner.rs:604-606 | a call whose wait for the provider stops the run, for three denials in a row or a cancellation seen further up, is never decided on |
| `RunOutcomes.CallsAreMadeInOrder` | crates/openslate-core/src/runner.rs:607-615 | the calls of a layer are made one after the other until one of them stops it |
| `RunOutcomes.DelegationIsMadeIffAllowed` | crates/openslate-core/src/runner.rs:769-845 | an approved delegation starts a child if and only if it names a task and a configured child of its caller, and depth, tool calls and child calls are below their limits; the child's node is the next event, below the caller's |
| `RunOutcomes.DelegationRecordsItsChild` | crates/openslate-core/src/runner.rs:741-763 | a child whose model resolves is recorded as its own loop ended: completed and charged with what it returned (or with its usage so far if it saw the cancellation), broken and charged with nothing, or left running if given up; the totals gain exactly that, and the caller goes on exactly if the child ended |
| `RunOutcomes.DelegationLeavesUnresolvedChild` | crates/openslate-core/src/runner.rs:684 | a child whose model does not resolve leaves its new node as it was made, and the caller goes on |
| `RunOutcomes.RunReportsItsLoop` | crates/openslate-core/src/runner.rs:543-643 | the result of any run: cancelled exactly if it was at the entry, unresolved exactly if the root's model is, aborted exactly on three denials in a row, and otherwise what the root's loop came to, with the usage it returned |
| `RunLaws.ToolBudget` | crates/openslate-core/src/runner.rs:1291-1303 | with budget M > 0 and scripts of at most B calls, direct calls never exceed M and all calls never exceed M + B in any reachable state, if the counter cannot wrap |
| `RunWitnesses.BudgetHoldsIffCounterCannotWrap` | crates/openslate-core/src/runner.rs:1048-1057 | direct calls keep to the budget in every run if and only if there are no scripts or M + B is below 2 to the 32 |
| `RunLaws.ZeroToolBudget` | crates/openslate-core/src/runtime.rs:212-241 | with a tool budget of 0 every direct call passes and no delegation ever does |
| `RunLaws.DenialsAndDelegationsAreFree` | crates/openslate-core/src/runner.rs:1274-1282 | calls that are denied or delegate, however deep, leave the tool tally unchanged |
| `RunMachine.StructureKept` | crates/openslate-core/src/runner.rs:783-845 | every single step of the machine keeps the shape of stack and execution tree |
| `RunMachine.StatusesKept` | crates/openslate-core/src/runner.rs:752-760 | every single step keeps the link between a node's status, its place on the stack and how its layer ended |
| `AgentRunner.AgentRunner.Execute` | crates/openslate-core/src/runner.rs:1255-1343 | one tool call through the gate changes counters, denials, tree and totals as the event history says, leaves the caller stack at its height, and leads from a reachable state to a reachable one |
| `AgentRunner.AgentRunner.HandleCallAgent` | crates/openslate-core/src/runner.rs:769-895 | a delegation is refused or runs the child exactly as the history's own checks say; the stack has its entry height again on every exit |
| `AgentRunner.AgentRunner.RunAgent` | crates/openslate-core/src/runner.rs:654-764 | the child's frame is there while its layer runs and popped on every way out, unresolved models and dropped futures included |
| `AgentRunner.AgentRunner.RunRoot` | crates/openslate-core/src/runner.rs:532-643 | the runner's fields at the end are those of the played run; nodes are child calls plus one; abort exactly on three denials in a row; nothing in its history without an approval of its own, and every approved tool call counted |
| `AgentRunner.AgentRunner.DeniedOutput` | crates/openslate-core/src/runner.rs:330-383 | after a denial the map of counters and the recorded tool are what the decision history says |
| `AgentRunner.AgentRunner.ClearDenials` | crates/openslate-core/src/runner.rs:338-343 | after an approval they are too, with the tool's run of denials ended |
| `AgentRunner.AgentRunner.Finish` | crates/openslate-core/src/runner.rs:752-760 | the totals and the node's status stay those of the history; usage is added only for a layer that returned |
| `AgentRunner.AgentRunner.FoldCalls` | crates/openslate-core/src/runner.rs:1048-1057 | a script's calls are clamped to 32 bits and added with wrap-around, keeping the counter congruent to the tally |
| `AgentRunner.ExecutionTree.constructor` | crates/openslate-core/src/execution.rs:37-51 | a fresh tree holds the running root at depth 0 alone |
| `AgentRunner.ExecutionTree.CreateChild` | crates/openslate-core/src/execution.rs:56-81 | the new id is fresh, the new node stands one level below its parent, and all other nodes are unchanged |
| `AgentRunner.ExecutionTree.UpdateStatus` | crates/openslate-core/src/execution.rs:104-108 | only the status of the named node changes, an unknown id changes nothing |
| `AgentTree.HasCycle` | crates/openslate-core/src/agent_tree.rs:99-117 | terminates; yes exactly if some walk from the start meets a marked agent or repeats one; after a no the marks are as before |
| `AgentTree.BadFromScratchIsCycle` | crates/openslate-core/src/agent_tree.rs:119-122 | with no marks set, a yes means exactly that a cycle can be reached |
| `AgentTree.FromConfigs` | crates/openslate-core/src/agent_tree.rs:45-125 | succeeds exactly for acceptable configurations; then the root is the only agent that is nobody's child, every child is an agent, and no cycle is reachable from the root; each error names the first check that failed and a real culprit |
| `AgentTree.RootsInOrder` | crates/openslate-core/src/agent_tree.rs:70-82 | roots are named in the order of the configurations |
| `AgentTree.WalksFromRootAreShort` | crates/openslate-core/src/agent_tree.rs:98-122 | walks from the root never repeat an agent and are no longer than the number of agents |
| `AgentTree.AllReachableIffAcyclic` | crates/openslate-core/src/agent_tree.rs:119-122 | in a built tree all agents are reachable from the root if and only if there is no cycle at all |
| `AgentTree.UnreachableCycleIsAccepted` | crates/openslate-core/src/agent_tree.rs:119-124 | a childless root beside two agents that are each other's child is accepted |
| `AskUser.RepairLeavesNothingDangling` | crates/openslate-core/src/ask_user.rs:261-298 | after a repair nothing dangles, for every history |
| `AskUser.RepairOnlyInserts` | crates/openslate-core/src/ask_user.rs:264-298 | the repaired history is the original and the closings, one per dangling call, shuffled together with both orders kept |
| `AskUser.RepairChangesOnlyDangling` | crates/openslate-core/src/ask_user.rs:264-298 | a repair changes a history if and only if something dangles |
| `AskUser.RepairTwiceIsRepairOnce` | crates/openslate-core/src/ask_user.rs:264-298 | a second repair, of either kind, changes nothing |
| `LateAnswers.FirstAnswerWins` | crates/openslate-core/src/ask_user.rs:234-242 | after a successful late answer and any further answers, another answer to that call is refused as already answered and changes nothing |
| `LateAnswers.LateEqualsImmediate` | crates/openslate-core/src/ask_user.rs:223-253 | taking any result out of its run and answering late gives the history back with that result last in its run, and exactly back when it was last |
| `LateAnswers.LateAnswersCommute` | crates/openslate-core/src/ask_user.rs:223-253 | late answers to two calls commute when their runs differ; in one run only the two results change places |
| `LateAnswers.LateAnswerRemovesExactlyItsCall` | crates/openslate-core/src/ask_user.rs:206-253 | with the id declared once, a late answer takes exactly that call off the dangling list and keeps the order of the rest |
| `LateAnswers.OthersKeepDangling` | crates/openslate-core/src/ask_user.rs:206-221 | a result inserted where a run may end changes no other call's dangling, nor their order |
| `LateAnswers.OpenMeansDangling` | crates/openslate-core/src/ask_user.rs:234-251 | only a dangling call can be answered late |
| `LateAnswers.RepairShutsOutLateAnswers` | crates/openslate-core/src/ask_user.rs:264-298 | after a repair every late answer is refused and changes nothing |
| `HistoryLaws.LookupMeans` | crates/openslate-core/src/ask_user.rs:234-252 | for every history, duplicate ids included: open exactly if some message is the first to declare the id and no run up to its own answers it; answered exactly if some run answers it and nothing before declares it; not found exactly if neither occurs |
| `HistoryLaws.LateAnswerIsFit` | crates/openslate-core/src/ask_user.rs:170-180 | the result inserted has the answer as its content, the id, and the name of the first call declared under it, and carries nothing else; a refusal names the id and its true reason |
| `HistoryLaws.ClosingsSay` | crates/openslate-core/src/ask_user.rs:158-180 | each closing has the id and name of its call, and says superseded or expired for a question and interrupted for any other tool |
| `HistoryLaws.DanglingMeans` | crates/openslate-core/src/ask_user.rs:204-221 | a call dangles exactly if some message declares it and the run behind that message has no result for it |
| `HistoryLaws.DanglingKeepsOrder` | crates/openslate-core/src/ask_user.rs:204-205 | the dangling calls stand in the order of their declaration |
| `TurnLaws.RepairIsAnsweringInOrder` | crates/openslate-core/src/ask_user.rs:223-298 | with ids declared once, repairing equals answering each dangling call late in order of declaration, if and only if no dangling call has a result in the run of an earlier message |
| `TurnLaws.OpenUnlessAnsweredEarlier` | crates/openslate-core/src/ask_user.rs:234-251 | a dangling call declared once takes a late answer if and only if no earlier message with calls has a result for it in its run |
| `TurnLaws.ResultBeforeItsCall` | crates/openslate-core/src/ask_user.rs:234-242 | a call whose result stands before it, in the run of an earlier message, dangles and is yet refused as already answered |
| `TurnLaws.CancelledTurnLeavesItsQuestions` | crates/openslate-core/src/runtime.rs:1046-1136 | whatever calls of a batch completed before the cancellation, exactly its unanswered questions dangle afterwards, besides what dangled before |
| `HistoryLaws.DrainedFits` | crates/openslate-core/src/runtime.rs:1046-1125 | a batch leaves, in the order of its calls, one result for each call that is not an open question: its own output, or the note that it was cancelled, under its id and name |
| `MessageHistory.History.DrainParallelBatch` | crates/openslate-core/src/runtime.rs:1046-1125 | the slots are appended in the order of the calls, cancelled calls closed, open questions skipped |
| `MessageHistory.History.DrainSerialBatch` | crates/openslate-core/src/runtime.rs:794-925 | a batch run one call at a time and then cancelled leaves what the same slots of a parallel batch would |
| `MessageHistory.History.AppendCancelledToolResults` | crates/openslate-core/src/runtime.rs:147-162 | every call from the given one on is closed, with its id and name and the note that it was cancelled, except the questions |
| `MessageHistory.History.ResultRunEnd` | crates/openslate-core/src/ask_user.rs:184-190 | the end of the longest run of results behind the message |
| `MessageHistory.History.DanglingToolCalls` | crates/openslate-core/src/ask_user.rs:206-221 | the index loop finds exactly the declared calls without a result in their own run, in order of declaration |
| `MessageHistory.History.AppendLateToolResult` | crates/openslate-core/src/ask_user.rs:229-253 | inserts one plain result with the answer, for the tool the call names, at the end of the run of the declaring message, or leaves the history as it was with the error that applies |
| `MessageHistory.History.RepairDanglingToolCalls` | crates/openslate-core/src/ask_user.rs:264-298 | the plan carried out backwards leaves nothing dangling, keeps the history in order and returns one closing per dangling call in order, with its id, name and text |
| `MessageHistory.BackwardsIsRepair` | crates/openslate-core/src/ask_user.rs:268-295 | inserting from the last planned place to the first equals closing the calls in one forward pass |
| `Glob.WildcardMatch` | crates/openslate-core/src/tool.rs:251-280 | terminates; never accepts a text the glob rejects; is exact on texts without a star |
| `Glob.NewStarTakesOver` | crates/openslate-core/src/tool.rs:262-265 | once a later star is reached the earlier ones need never be revisited |
| `Glob.LastStarIsSound` | crates/openslate-core/src/tool.rs:251-280 | for every text, an accepted text matches the declarative glob |
| `Glob.LastStarIsExact` | crates/openslate-core/src/tool.rs:249-280 | for texts without a star the loop decides the declarative glob |
| `Glob.ExactIffTextHasNoStar` | crates/openslate-core/src/tool.rs:259-262 | the loop agrees with the glob on every pattern if and only if the text has no star |
| `Glob.ExactIffPatternHasNoStar` | crates/openslate-core/src/tool.rs:259-265 | the loop agrees with the glob on every text if and only if the pattern has no star |
| `Glob.LiteralStarInTextIsMissed` | crates/openslate-core/src/tool.rs:259-262 | the glob `*` matches the text `*x` and the loop says no |
| `Glob.StarIsAnyRun` | crates/openslate-core/src/tool.rs:249-250 | a star of the declarative glob stands for any run of characters |
| `Glob.PlainPatternIsItself` | crates/openslate-core/src/tool.rs:239-247 | a pattern without metacharacters is the glob of one exact name, so the shortcut changes no meaning |
| `Glob.VisibleIsAllowedMinusHidden` | crates/openslate-core/src/tool.rs:174-191 | whatever is visible is registered and allowed by a glob (all are if the list is empty); a name without a star is visible exactly if it is registered, allowed and matched by no hidden glob; hiding by two lists is hiding by one after the other |
| `ToolNames.ExpandTemplate` | crates/openslate-core/src/mcp.rs:166-199 | the scan equals cutting the template into tokens first and rendering them, so values are never scanned again |
| `NameLaws.TextInFront` | crates/openslate-core/src/mcp.rs:166-175 | text in front of the first brace of a template is copied |
| `NameLaws.PrefixIsPutIn` | crates/openslate-core/src/mcp.rs:115-121 | the prefix slot is replaced by the prefix, and the rest is expanded by itself |
| `NameLaws.ServerIsPutIn` | crates/openslate-core/src/mcp.rs:115-121 | the server slot is replaced by the server |
| `NameLaws.ToolIsPutIn` | crates/openslate-core/src/mcp.rs:115-121 | the tool slot is replaced by the tool |
| `NameLaws.OtherBraceStays` | crates/openslate-core/src/mcp.rs:182-195 | any other brace stays, and so does that of the server slot where there is no server |
| `NameLaws.AggregatedNameIsTakenApart` | crates/openslate-core/src/mcp.rs:126-130 | a name put together from a server and a tool is taken apart at its first `__` and goes through the large template |
| `NameLaws.BareNameIsKeptWhole` | crates/openslate-core/src/mcp.rs:131-137 | a bare name goes through the small template, without a server |
| `NameLaws.ServerSlugMeans` | crates/openslate-core/src/mcp.rs:201-233 | the server read off any name: none without a namespace, the namespace for a bare name, otherwise what stands before the first `__` without namespace and underscore, or the namespace if nothing is left |
| `ToolNames.DefaultNamesAreJoined` | crates/openslate-core/src/mcp.rs:98-113 | under the default pair a name is prefix, underscore and upstream name, for every prefix and upstream |
| `ToolNames.SlugInvertsDefaultNaming` | crates/openslate-core/src/mcp.rs:220-233 | the server recovered from a default name is the one it was made from, for a clean prefix |
| `ToolNames.SlugFoundIffPrefixIsClean` | crates/openslate-core/src/mcp.rs:201-233 | the server is recovered for every server and tool if and only if the prefix neither holds `__` nor ends in `_` |
| `ToolNames.BareNamesNeverGetAServerPart` | crates/openslate-core/src/mcp.rs:1416-1456 | a builtin template without `__` never makes one from harmless values, so a bare tool's scope is its prefix |
| `PromptTemplate.ApplyTemplate` | crates/openslate-core/src/prompt.rs:224-261 | the scan equals cutting the text into pieces first and rendering them, strictly or not |
| `PromptTemplate.KnownTagBecomesItsValue` | crates/openslate-core/src/prompt.rs:232-242 | the first tag, its key trimmed, is replaced by the value of its key, strictly or not, and what follows is treated by itself |
| `PromptTemplate.UnknownTagStaysOrFails` | crates/openslate-core/src/prompt.rs:243-250 | an unknown key is the error of a strict run, and otherwise stays as a tag with one space on each side |
| `PromptTemplate.UnclosedTagStays` | crates/openslate-core/src/prompt.rs:251-256 | a text whose first tag is never closed stays as it is |
| `PromptTemplate.TextStays` | crates/openslate-core/src/prompt.rs:232-260 | a text without tags stays as it is |
| `PromptTemplate.StrictIsLenientUnlessUnknown` | crates/openslate-core/src/prompt.rs:222-249 | strict success gives the text of the lenient run; failure names the first unknown key |
| `PromptTemplate.StrictNamesTheFirstUnknown` | crates/openslate-core/src/prompt.rs:241-250 | the key named is unknown, stands in a closed tag, and every tag before it is known; no key is named exactly if all are known |
| `PromptTemplate.PassedTwiceIsPassedOnce` | crates/openslate-core/src/prompt.rs:232-257 | without variables a second lenient pass changes nothing, for nested, empty and unclosed tags too |
| `Utf8.ByteTestFindsBoundaries` | crates/openslate-core/src/output_store.rs:80-98 | in valid UTF-8 the one-byte boundary test holds exactly between characters |
| `Utf8.CutsAreValid` | crates/openslate-core/src/output_store.rs:80-98 | valid text cut at a boundary is two valid texts |
| `Utf8.FloorCharBoundary` | crates/openslate-core/src/output_store.rs:82-88 | the last boundary up to the index, at most three bytes back |
| `Utf8.CeilCharBoundary` | crates/openslate-core/src/output_store.rs:92-98 | the first boundary from the index on, at most three bytes ahead |
| `Utf8.DigitsAreReadBack` | crates/openslate-core/src/output_store.rs:137-146 | a number put into a text in decimal is read back as itself, without needless zeros |
| `OutputPreview.BuildPreview` | crates/openslate-core/src/output_store.rs:121-147 | the text is header line, head, omitted line and tail in the frozen layout, and valid UTF-8; head and tail are cut at the last boundary within one budget and the first within the other, never overlapping |
| `OutputPreview.LayoutIsFrozen` | crates/openslate-core/src/output_store.rs:100-110 | the layout written out for one output: every label, bracket and line break, and which number stands where |
| `OutputPreview.PreviewIsHonest` | crates/openslate-core/src/output_store.rs:112-135 | head and tail are valid, at most 1024 bytes and at most three short of it where there is room; head, a valid middle and tail are the content; the omitted count is the middle's length if the stored size is the real one |
| `OutputCap.LimitKeepsWholeCharacters` | crates/openslate-core/src/tool.rs:296-322 | a capped output is a prefix of whole characters of at most the cap in bytes plus the notice, valid, with `bytes` its true length |
| `OutputCap.NoticeIsFrozen` | crates/openslate-core/src/tool.rs:307-311 | the notice written out for one output |
| `OutputCap.WithinCapIffRoomForTheNotice` | crates/openslate-core/src/tool.rs:301-322 | the content comes out within the cap if and only if the output reports at most the cap and its content is within it, or it reports more and its first cap / 4 characters leave 46 bytes and the digits of the two numbers; likewise for the size reported afterwards |
| `OutputCap.WithinCapOfWideText` | crates/openslate-core/src/tool.rs:301-322 | for text of characters of one width the same with width times cap / 4, which a caller can compute from the lengths alone |
| `OutputCap.WithinCapOfAscii` | crates/openslate-core/src/tool.rs:301-322 | for ASCII content the same with cap / 4 |
| `OutputCap.NoCapIsAlwaysKept` | crates/openslate-core/src/tool.rs:301-322 | for every cap some valid output of true size comes out with content longer than the cap |
| `OutputCap.UnreportedOutputPasses` | crates/openslate-core/src/tool.rs:301-304 | for every cap some valid output that reports 0 bytes is longer and is passed on unchanged |
| `OutputCap.CountingFirstClosesTheGap` | crates/openslate-core/src/runner.rs:1089-1097 | with the bytes counted first, the report plays no part, the size given is true, content within the cap is kept, and longer content comes out within the cap exactly if there is room for the notice |
| `OutputPreview.FindCharBoundary` | crates/openslate-core/src/context.rs:116-122 | the last boundary up to the index, at most three bytes back |
| `OutputPreview.ContentPreview` | crates/openslate-core/src/context.rs:136-143 | a message over 200 bytes is cut to whole characters and marked, a shorter one kept, the result always valid |
| `ModelRegistry.Merge.FillFrom` | crates/openslate-core/src/model_registry.rs:191-219 | the record afterwards is the left-biased join of what it was and the other |
| `ModelRegistry.FilledIsAMonoid` | crates/openslate-core/src/model_registry.rs:190-219 | filling is associative and the empty record changes nothing on either side |
| `ModelRegistry.MergeMetas` | crates/openslate-core/src/model_registry.rs:241-249 | the loop over the sorted records returns, for every field, the value of the best source that has one, the earlier of two equals |
| `ModelRegistry.MergedIsBest` | crates/openslate-core/src/model_registry.rs:236-249 | each field holds the value of the best-priority source that has one, a tie going to the earlier arrival, and is empty exactly if none has it |
| `ModelRegistry.SourcesInOrder` | crates/openslate-core/src/model_registry.rs:222-234 | models.dev comes before LiteLLM, LiteLLM before CloudPrice, in any case, and these before everything else |
| `AsciiCase.EqualLetterByLetter` | crates/openslate-core/src/model_registry.rs:226-234 | names are equal without regard to case exactly if they are letter by letter, for ASCII letters only |
| `ModelRegistry.MergeIgnoresOrder` | crates/openslate-core/src/model_registry.rs:236-249 | with priorities all different every permutation of the inputs merges to the same record |
| `ModelRegistry.MergeDependsOnOrderWithinPriorities` | crates/openslate-core/src/model_registry.rs:236-249 | inputs that agree on the records of each priority and their order merge to the same record, however the priorities are interleaved |
| `ModelRegistry.SortIsStable` | crates/openslate-core/src/model_registry.rs:241-243 | the sort orders by priority and keeps the records of one priority in their order |
| `ModelRegistry.AnyStableSortIsThisOne` | crates/openslate-core/src/model_registry.rs:241-243 | whatever is sorted by priority with the records of each priority in their order of arrival is this sort's result |
| `Approval.LegacyPoliciesKeepTheirMeaning` | crates/openslate-core/src/approval.rs:132-154 | for every tool and server, the level under the mapped rules is Manual exactly if the legacy policy asks, else Allow |
| `Approval.LegacyRulesRoundTrip` | crates/openslate-core/src/approval.rs:156-209 | policy to rules to policy to rules is the rules of the first step |
| `Approval.LegacyGate` | crates/openslate-core/src/approval.rs:506-560 | under a legacy policy a call is denied exactly if the policy asks and an installed callback says no |
| `ApprovalLaws.DeniedIffRefused` | crates/openslate-core/src/approval.rs:506-539 | for all rules a call is denied exactly if an installed callback refuses it, for the callback's own reason: at level Manual whatever the risk, at level Auto unless the risk is low |
| `ApprovalLaws.AutoDefaultGate` | crates/openslate-core/src/approval.rs:513-539 | under a configuration whose default is auto, a call whose tool and server no key names is denied exactly if its risk is not low and the callback refuses it as a risk |
| `ApprovalLaws.LegacyViewMeans` | crates/openslate-core/src/approval.rs:156-187 | the legacy view of any rules asks for a tool exactly if the default is Manual or a tool key at level Manual names it in any case |
| `Approval.RulesFromConfig` | crates/openslate-core/src/approval.rs:218-241 | every tool key has its configured level, else Manual if the legacy list has it, else none; server keys have theirs; the default is the configured one, else the legacy one; a tool configured under its exact name gets that level |
| `Approval.ConfiguredToolLevelDecides` | crates/openslate-core/src/approval.rs:145-154 | a level configured under a tool's exact name decides, whatever the legacy part, the servers and the default say |
| `Approval.ConfiguredServerLevelDecides` | crates/openslate-core/src/approval.rs:145-154 | a level configured under a server's exact name decides for each of its tools that no key names in any case |
| `ApprovalLaws.UnnamedCallHasTheDefault` | crates/openslate-core/src/approval.rs:145-154 | a call whose tool and server no key names in any case has the default level of the configuration |
| `ApprovalLaws.FirstVariantDecides` | crates/openslate-core/src/approval.rs:132-142 | without an exact key, the first key that differs only in case decides |
| `ApprovalLaws.ServerThenDefault` | crates/openslate-core/src/approval.rs:145-154 | without a key for the tool its server's keys decide in the same way, and without those the default |
| `LineBuffer.ReasoningBuffer.OnReasoning` | crates/openslate-cli/src/spinner.rs:509-525 | shows every line completed so far and keeps the rest |
| `LineBuffer.ReasoningBuffer.FlushReasoning` | crates/openslate-cli/src/spinner.rs:478-484 | shows the rest unless it is blank and empties the buffer |
| `LineBuffer.ReasoningBuffer.Stream` | crates/openslate-cli/src/spinner.rs:478-525 | however a text is cut into chunks, the lines shown are its lines that are not blank, without trailing space |
| `LineBuffer.TwoParts` | crates/openslate-cli/src/spinner.rs:517-524 | what is shown and buffered does not depend on whether a text comes at once or in two parts |
| `LineBuffer.FlushCompletes` | crates/openslate-cli/src/spinner.rs:478-484 | complete lines and the flushed rest together are all lines of the text |
| `LineBuffer.ShownMeans` | crates/openslate-cli/src/spinner.rs:518-524 | a line is shown up to its last character that is not white space, and not at all if there is none |
| `LineBuffer.SplitIsLossless` | crates/openslate-cli/src/spinner.rs:518-520 | the lines of a text hold no newline, and with newlines between them they are the text |

## Left out

- The agent loop itself (`execute_run`: steps, provider calls, streaming, retries, timeouts). A layer is an arbitrary script of
  calls with an arbitrary outcome, so the laws hold whatever the loop does. Calls of one layer pass the gate in sequence.
- Panics: one inside a child's loop is caught by the parent's tool call, which pops the frame and leaves the node Running in a
  run that goes on; no layer of the model ends that way.
- Two delegations or scripts of one layer at once: the loop runs a batch that contains one in sequence.
- AgentRunner.AgentRunner.HandleCallAgent: the child's messages (context isolation, splitting off leading system messages, the message
  snapshot in a frame) and the texts returned to the caller are not part of this model; nor are tool-list builders.
- AgentRunner.AgentRunner.Execute: tool arguments, audit records and tool outputs are not modelled, only whether a call is decided,
  counted, dispatched, delegated or folded.
- AgentRunner.AgentRunner.DeniedOutput: the denial counter is unbounded here, 32 bits wide in the source.
- AgentRunner.AgentRunner.Finish: cost is a real number, so floating-point rounding is not captured; token totals do wrap at 64 bits.
- AgentRunner.ExecutionTree.CreateChild: ids are numbers in order of creation instead of random UUIDs.
- The code sandbox: only the number of tool calls it reports for a script.
- Locks, atomics and poisoning: fields updated in single steps.
- MessageHistory.History.RepairDanglingToolCalls: tool calls carry id and name, not their JSON arguments.
- MessageHistory.History.DrainParallelBatch: masking, storing and capping an output before it is appended.
- Glob.VisibleIsAllowedMinusHidden: the registry is its set of names; the order of the definitions is not captured.
- OutputPreview.BuildPreview: reading the parts back from the text, which its markers do not determine for every content.
- ModelRegistry.MergeMetas: the library's stable sort is a function, determined by what a stable sort promises.
- Approval.LegacyGate: the risk heuristics are a parameter; the key-ordered map is an ordered list of entries; logging is left out.
- LineBuffer.ReasoningBuffer.Stream: colours, counters and the spinner are left out.
- Candidate ids in the model registry, the fence splitter of the Markdown view and the keep-last rule for skill sources.
- Configuration parsing, prompt file lookup, MCP connections, secret masking, recording, terminal and command-line handling.
