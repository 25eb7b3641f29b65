/**
  The message vector itself, changed in place (crates/openslate-core/src/ask_user.rs): the index loops
  and insertions of the source do what `Dangling`, `Lookup` and `Repaired` say.
 */
module MessageHistory {
  import opened Wrappers
  import opened AskUser
  import opened TurnLaws
  import opened HistoryLaws

  // ---- positions in a whole history ----

  lemma {:induction false} ResolvedIsIds(h: seq<Message>)
    ensures Resolved(h) == Ids(h[..ResultRun(h)])
  {
    if h != [] && h[0].role == Tool {
      ResolvedIsIds(h[1..]);
      assert h[..ResultRun(h)] == [h[0]] + h[1..][..ResultRun(h[1..])];
      assert ([h[0]] + h[1..][..ResultRun(h[1..])])[1..] == h[1..][..ResultRun(h[1..])];
    }
  }

  function RunEndAt(h: seq<Message>, i: nat): nat
    requires i < |h|
  {
    i + 1 + ResultRun(h[i + 1..])
  }

  datatype Planned = Planned(at: nat, message: Message)

  function PlanAt(at: nat, messages: seq<Message>): (plan: seq<Planned>)
    ensures |plan| == |messages|
    ensures forall j :: 0 <= j < |plan| ==> plan[j] == Planned(at, messages[j])
  {
    seq(|messages|, j requires 0 <= j < |messages| => Planned(at, messages[j]))
  }

  /** The plan for the messages from index `i` on. */
  function PlanFrom(h: seq<Message>, i: nat, closure: Closure): seq<Planned>
    requires i <= |h|
    decreases |h| - i
  {
    if i == |h| then []
    else PlanAt(RunEndAt(h, i), ClosingAll(PendingAt(h, i), closure)) + PlanFrom(h, i + 1, closure)
  }

  function Messages(plan: seq<Planned>): (ms: seq<Message>)
    ensures |ms| == |plan|
  {
    seq(|plan|, j requires 0 <= j < |plan| => plan[j].message)
  }

  predicate InBounds(plan: seq<Planned>, n: nat) {
    forall j :: 0 <= j < |plan| ==> plan[j].at <= n
  }

  /** A plan carried out from its last entry to its first. */
  function CarriedOut(h: seq<Message>, plan: seq<Planned>): (r: seq<Message>)
    requires InBounds(plan, |h|)
    ensures |r| == |h| + |plan|
  {
    if plan == [] then h
    else Insert(CarriedOut(h, plan[1..]), plan[0].at, plan[0].message)
  }

  lemma {:induction false} PlanInBounds(h: seq<Message>, i: nat, closure: Closure)
    requires i <= |h|
    ensures InBounds(PlanFrom(h, i, closure), |h|)
    decreases |h| - i
  {
    if i < |h| {
      PlanInBounds(h, i + 1, closure);
      OneSpotInBounds(RunEndAt(h, i), ClosingAll(PendingAt(h, i), closure), PlanFrom(h, i + 1, closure), |h|);
    }
  }

  lemma OneSpotInBounds(at: nat, messages: seq<Message>, plan: seq<Planned>, n: nat)
    requires at <= n && InBounds(plan, n)
    ensures InBounds(PlanAt(at, messages) + plan, n)
  {
  }

  lemma {:induction false} PlanIsDangling(h: seq<Message>, i: nat, closure: Closure)
    requires i <= |h|
    ensures Messages(PlanFrom(h, i, closure)) == ClosingAll(Dangling(h[i..]), closure)
    decreases |h| - i
  {
    if i < |h| {
      PlanIsDangling(h, i + 1, closure);
      DanglingStep(h, i);
      ClosingsJoin(PendingAt(h, i), Dangling(h[i + 1..]), closure);
      MessagesOfPlan(RunEndAt(h, i), ClosingAll(PendingAt(h, i), closure), PlanFrom(h, i + 1, closure));
    }
  }

  lemma MessagesOfPlan(at: nat, messages: seq<Message>, plan: seq<Planned>)
    ensures Messages(PlanAt(at, messages) + plan) == messages + Messages(plan)
  {
    assert forall j :: 0 <= j < |messages| ==> (PlanAt(at, messages) + plan)[j].message == messages[j];
  }

  // ---- backwards insertion is the one pass ----

  /** The waiting messages of a pass end up right behind the leading run. */
  ghost predicate GoesBehindTheRun(h: seq<Message>, waiting: seq<Message>, closure: Closure) {
    var plain := Closed(h, [], closure);
    var run := ResultRun(h);
    run <= |plain| && Closed(h, waiting, closure) == plain[..run] + waiting + plain[run..]
  }

  lemma BehindAResult(m: Message, t: seq<Message>, waiting: seq<Message>, closure: Closure)
    requires m.role == Tool
    requires GoesBehindTheRun(t, waiting + ClosingAll(Pending(m, t), closure), closure)
    requires GoesBehindTheRun(t, ClosingAll(Pending(m, t), closure), closure)
    ensures GoesBehindTheRun([m] + t, waiting, closure)
  {
    var own := ClosingAll(Pending(m, t), closure);
    ClosedOneInFront(m, t, waiting, closure);
    ClosedOneInFront(m, t, [], closure);
    assert [] + own == own;
    PutBehind(m, Closed(t, [], closure), ResultRun(t), waiting, own);
    assert ResultRun([m] + t) == ResultRun(t) + 1 by {
      assert ([m] + t)[1..] == t;
    }
  }

  lemma BehindAnythingElse(m: Message, t: seq<Message>, waiting: seq<Message>, closure: Closure)
    requires m.role != Tool
    ensures GoesBehindTheRun([m] + t, waiting, closure)
  {
    ClosedOneInFront(m, t, waiting, closure);
    ClosedOneInFront(m, t, [], closure);
    FrontSplit(waiting, [m] + Closed(t, ClosingAll(Pending(m, t), closure), closure));
  }

  lemma FrontSplit<T>(waiting: seq<T>, rest: seq<T>)
    ensures [] + rest == rest && rest[..0] + waiting + rest[0..] == waiting + rest
  {
  }

  lemma PrefixGrows<T>(s: seq<T>, i: nat)
    requires i < |s|
    ensures s[..i + 1] == s[..i] + [s[i]] && s[i..] == [s[i]] + s[i + 1..]
  {
  }

  lemma {:induction false} WaitingGoesBehindTheRun(h: seq<Message>, waiting: seq<Message>, closure: Closure)
    ensures GoesBehindTheRun(h, waiting, closure)
  {
    if h != [] {
      var m, t := h[0], h[1..];
      assert h == [m] + t;
      if m.role == Tool {
        WaitingGoesBehindTheRun(t, waiting + ClosingAll(Pending(m, t), closure), closure);
        WaitingGoesBehindTheRun(t, ClosingAll(Pending(m, t), closure), closure);
        BehindAResult(m, t, waiting, closure);
      } else {
        BehindAnythingElse(m, t, waiting, closure);
      }
    }
  }

  lemma PutBehind(m: Message, plain: seq<Message>, run: nat, waiting: seq<Message>, own: seq<Message>)
    requires run <= |plain|
    ensures var g := [m] + (plain[..run] + own + plain[run..]);
            [m] + (plain[..run] + (waiting + own) + plain[run..]) == g[..run + 1] + waiting + g[run + 1..]
  {
  }

  lemma {:induction false} CarriedOutInOneSpot(h: seq<Message>, at: nat, messages: seq<Message>, plan: seq<Planned>)
    requires at <= |h| && InBounds(plan, |h|)
    ensures InBounds(PlanAt(at, messages) + plan, |h|)
    ensures var g := CarriedOut(h, plan);
            CarriedOut(h, PlanAt(at, messages) + plan) == g[..at] + messages + g[at..]
  {
    var g := CarriedOut(h, plan);
    if messages == [] {
      assert PlanAt(at, messages) + plan == plan && g[..at] + [] + g[at..] == g;
    } else {
      CarriedOutInOneSpot(h, at, messages[1..], plan);
      assert (PlanAt(at, messages) + plan)[1..] == PlanAt(at, messages[1..]) + plan;
      InsertAgain(g, at, messages);
    }
  }

  lemma InsertAgain(g: seq<Message>, at: nat, messages: seq<Message>)
    requires at <= |g| && messages != []
    ensures Insert(g[..at] + messages[1..] + g[at..], at, messages[0]) == g[..at] + messages + g[at..]
  {
  }

  /** The history when the messages before `i` have not been looked at. */
  function RepairedFrom(h: seq<Message>, i: nat, closure: Closure): seq<Message>
    requires i <= |h|
  {
    h[..i] + Repaired(h[i..], closure)
  }

  /** Carrying the plan out backwards repairs the history. */
  lemma {:induction false} BackwardsIsRepair(h: seq<Message>, i: nat, closure: Closure)
    requires i <= |h|
    ensures InBounds(PlanFrom(h, i, closure), |h|)
    ensures CarriedOut(h, PlanFrom(h, i, closure)) == RepairedFrom(h, i, closure)
    decreases |h| - i
  {
    PlanInBounds(h, i, closure);
    if i < |h| {
      BackwardsIsRepair(h, i + 1, closure);
      BackwardsStep(h, i, closure);
      var rest := PlanFrom(h, i + 1, closure);
      CarriedOutInOneSpot(h, RunEndAt(h, i), ClosingAll(PendingAt(h, i), closure), rest);
      assert CarriedOut(h, rest) == RepairedFrom(h, i + 1, closure);
    } else {
      NothingLeftToRepair(h, closure);
    }
  }

  lemma NothingLeftToRepair(h: seq<Message>, closure: Closure)
    ensures RepairedFrom(h, |h|, closure) == h
  {
  }

  lemma BackwardsStep(h: seq<Message>, i: nat, closure: Closure)
    requires i < |h|
    ensures var own := ClosingAll(PendingAt(h, i), closure);
            var g := RepairedFrom(h, i + 1, closure);
            var at := RunEndAt(h, i);
            at <= |g| && g[..at] + own + g[at..] == RepairedFrom(h, i, closure)
  {
    var own := ClosingAll(PendingAt(h, i), closure);
    WaitingGoesBehindTheRun(h[i + 1..], own, closure);
    PrefixGrows(h, i);
    RepairedAtIndex(h, i, closure);
    SplitBehind(h[..i], h[i], Repaired(h[i + 1..], closure), ResultRun(h[i + 1..]), own,
                Closed(h[i + 1..], own, closure), RepairedFrom(h, i + 1, closure), RunEndAt(h, i), RepairedFrom(h, i, closure));
  }

  lemma RepairedAtIndex(h: seq<Message>, i: nat, closure: Closure)
    requires i < |h|
    ensures Repaired(h[i..], closure) == [h[i]] + Closed(h[i + 1..], ClosingAll(PendingAt(h, i), closure), closure)
  {
    var own := ClosingAll(PendingAt(h, i), closure);
    PrefixGrows(h, i);
    ClosedOneInFront(h[i], h[i + 1..], [], closure);
    FrontSplit([], own);
    FrontSplit([], [h[i]] + Closed(h[i + 1..], own, closure));
  }

  lemma SplitBehind<T>(left: seq<T>, m: T, plain: seq<T>, run: nat, own: seq<T>, behind: seq<T>,
                       before: seq<T>, at: nat, after: seq<T>)
    requires run <= |plain| && behind == plain[..run] + own + plain[run..]
    requires before == left + [m] + plain && at == |left| + 1 + run
    requires after == left + ([m] + behind)
    ensures at <= |before| && before[..at] + own + before[at..] == after
  {
  }

  lemma WholeHistory(h: seq<Message>, closure: Closure)
    ensures InBounds(PlanFrom(h, 0, closure), |h|)
    ensures CarriedOut(h, PlanFrom(h, 0, closure)) == Repaired(h, closure)
    ensures Messages(PlanFrom(h, 0, closure)) == ClosingAll(Dangling(h), closure)
  {
    BackwardsIsRepair(h, 0, closure);
    PlanIsDangling(h, 0, closure);
    assert h[0..] == h && h[..0] + Repaired(h, closure) == Repaired(h, closure);
  }

  // ---- looking up by index ----

  /** What a lookup further back means for the whole history. */
  function Behind(spot: Spot, i: nat): Spot {
    if spot.Open? then Open(spot.at + i, spot.tool) else spot
  }

  lemma LookupStep(h: seq<Message>, i: nat, id: string)
    requires i < |h|
    ensures Behind(Lookup(h[i..], id), i)
         == if h[i].toolCalls.Some? && id in Resolved(h[i + 1..]) then Answered
            else if h[i].toolCalls.Some? && FindCall(h[i].toolCalls.value, id).Some? then
              Open(RunEndAt(h, i), FindCall(h[i].toolCalls.value, id).value.name)
            else Behind(Lookup(h[i + 1..], id), i + 1)
  {
    assert h[i..][1..] == h[i + 1..];
  }

  lemma LookupAtEnd(h: seq<Message>, id: string)
    ensures Lookup(h[|h|..], id) == Missing
  {
  }

  lemma DanglingStep(h: seq<Message>, i: nat)
    requires i < |h|
    ensures Dangling(h[i..]) == PendingAt(h, i) + Dangling(h[i + 1..])
  {
    assert h[i..][1..] == h[i + 1..];
  }

  lemma UnansweredStep(calls: seq<ToolCall>, k: nat, resolved: set<string>)
    requires k < |calls|
    ensures calls[k].id in resolved ==> Unanswered(calls[k..], resolved) == Unanswered(calls[k + 1..], resolved)
    ensures calls[k].id !in resolved ==>
              Unanswered(calls[k..], resolved) == [calls[k]] + Unanswered(calls[k + 1..], resolved)
  {
    assert calls[k..][1..] == calls[k + 1..];
    assert [] + Unanswered(calls[k + 1..], resolved) == Unanswered(calls[k + 1..], resolved);
  }

  lemma Pushed<T>(before: seq<T>, after: seq<T>, own: seq<T>, rest: seq<T>)
    requires after == before + own
    ensures after + rest == before + (own + rest)
  {
  }

  class History {
    var messages: seq<Message>

    constructor (messages: seq<Message>)
      ensures this.messages == messages
    {
      this.messages := messages;
    }

    /** The end of the run of results behind `index`. */
    method ResultRunEnd(index: nat) returns (end: nat)
      requires index < |messages|
      ensures end == RunEndAt(messages, index)
    {
      end := index + 1;
      while end < |messages| && messages[end].role == Tool
        invariant index + 1 <= end <= |messages|
        invariant RunEndAt(messages, index) == end + ResultRun(messages[end..])
        decreases |messages| - end
      {
        assert messages[end..][1..] == messages[end + 1..];
        end := end + 1;
      }
      if end < |messages| {
        assert messages[end..][0] == messages[end];
      }
    }

    /** The results standing between a message and the end of its run answer these ids. */
    method ResolvedIds(index: nat, runEnd: nat) returns (resolved: set<string>)
      requires index < |messages| && runEnd == RunEndAt(messages, index)
      ensures resolved == Resolved(messages[index + 1..])
    {
      resolved := Ids(messages[index + 1..runEnd]);
      ResolvedIsIds(messages[index + 1..]);
      assert messages[index + 1..][..runEnd - index - 1] == messages[index + 1..runEnd];
    }

    /** The calls of one message without a result. */
    method OpenCalls(calls: seq<ToolCall>, resolved: set<string>) returns (open: seq<ToolCall>)
      ensures open == Unanswered(calls, resolved)
    {
      open := [];
      var k := 0;
      assert calls[0..] == calls;
      while k < |calls|
        invariant k <= |calls|
        invariant open + Unanswered(calls[k..], resolved) == Unanswered(calls, resolved)
      {
        UnansweredStep(calls, k, resolved);
        if calls[k].id !in resolved {
          Regroup(open, [calls[k]], Unanswered(calls[k + 1..], resolved));
          open := open + [calls[k]];
        }
        k := k + 1;
      }
    }

    method DanglingToolCalls() returns (dangling: seq<ToolCall>)
      ensures dangling == Dangling(messages)
    {
      dangling := [];
      var index := 0;
      assert messages[0..] == messages;
      while index < |messages|
        invariant index <= |messages|
        invariant dangling + Dangling(messages[index..]) == Dangling(messages)
      {
        DanglingStep(messages, index);
        Regroup(dangling, PendingAt(messages, index), Dangling(messages[index + 1..]));
        var open := PendingCalls(index);
        dangling := dangling + open;
        index := index + 1;
      }
    }

    /** What one round of the scan finds: the unanswered calls of one message. */
    method PendingCalls(index: nat) returns (open: seq<ToolCall>)
      requires index < |messages|
      ensures open == PendingAt(messages, index)
    {
      var message := messages[index];
      if message.toolCalls.None? {
        return [];
      }
      var runEnd := ResultRunEnd(index);
      var resolved := ResolvedIds(index, runEnd);
      open := OpenCalls(message.toolCalls.value, resolved);
    }

    /** Completes one call late. A refused answer leaves the history as it was. */
    method AppendLateToolResult(id: string, content: string) returns (r: Result<Message, AskUserError>)
      modifies this
      ensures r == LateResult(old(messages), id, content)
      ensures messages == AnsweredLate(old(messages), id, content)
      ensures LateAnswerFits(old(messages), id, content, r, messages)
    {
      LateAnswerIsFit(messages, id, content);
      var index := 0;
      assert messages[0..] == messages;
      while index < |messages|
        invariant index <= |messages|
        invariant messages == old(messages)
        invariant Lookup(messages, id) == Behind(Lookup(messages[index..], id), index)
      {
        LookupStep(messages, index, id);
        var message := messages[index];
        if message.toolCalls.Some? {
          var runEnd := ResultRunEnd(index);
          var resolved := ResolvedIds(index, runEnd);
          if id in resolved {
            return Err(AlreadyAnswered(id));
          }
          var call := FindCall(message.toolCalls.value, id);
          if call.Some? {
            var inserted := SyntheticToolMessage(id, call.value.name, content);
            messages := Insert(messages, runEnd, inserted);
            return Ok(inserted);
          }
        }
        index := index + 1;
      }
      LookupAtEnd(messages, id);
      return Err(ToolCallNotFound(id));
    }

    /** Closes every dangling call: plans the insertions in one scan, then carries them out backwards so
        that no position goes stale. */
    method RepairDanglingToolCalls(closure: Closure) returns (repaired: seq<Message>)
      modifies this
      ensures messages == Repaired(old(messages), closure)
      ensures repaired == ClosingAll(Dangling(old(messages)), closure)
      ensures Dangling(messages) == []
      ensures Interleaves(messages, old(messages), repaired)
      ensures AreClosings(repaired, Dangling(old(messages)), closure)
    {
      ClosingsSay(Dangling(messages), closure);
      ghost var h := messages;
      var plan := MakePlan(closure);
      PlanInBounds(h, 0, closure);
      repaired := CarryOut(plan);
      WholeHistory(h, closure);
      RepairLeavesNothingDangling(h, closure);
      RepairOnlyInserts(h, closure);
    }

    /** A cancelled batch: every call from `from` on is closed, except the questions. */
    method AppendCancelledToolResults(calls: seq<ToolCall>, from: nat)
      requires from <= |calls|
      modifies this
      ensures messages == old(messages) + Drained(calls, SlotsOf([], |calls|), from)
      ensures BatchFits(calls, SlotsOf([], |calls|), from, messages[|old(messages)|..])
    {
      DrainedFits(calls, SlotsOf([], |calls|), from);
      ghost var slots := SlotsOf([], |calls|);
      var i := from;
      while i < |calls|
        invariant from <= i <= |calls|
        invariant messages + Drained(calls, slots, i) == old(messages) + Drained(calls, slots, from)
      {
        ghost var before := messages;
        if calls[i].name != ASK_USER_TOOL {
          messages := messages + [SyntheticToolMessage(calls[i].id, calls[i].name, CANCELLED_RESULT)];
        }
        Pushed(before, messages, ResultOf(calls[i], slots[i]), Drained(calls, slots, i + 1));
        i := i + 1;
      }
    }

    /** Calls run one by one until a cancellation stops them after the given outputs. */
    method DrainSerialBatch(calls: seq<ToolCall>, outputs: seq<ToolOutput>)
      requires |outputs| <= |calls|
      modifies this
      ensures messages == old(messages) + Drained(calls, SlotsOf(outputs, |calls|), 0)
      ensures BatchFits(calls, SlotsOf(outputs, |calls|), 0, messages[|old(messages)|..])
    {
      DrainedFits(calls, SlotsOf(outputs, |calls|), 0);
      ghost var slots := SlotsOf(outputs, |calls|);
      var i := 0;
      while i < |outputs|
        invariant i <= |outputs|
        invariant messages + Drained(calls, slots, i) == old(messages) + Drained(calls, slots, 0)
      {
        ghost var before := messages;
        messages := messages + [Message(Tool, outputs[i].content, Some(calls[i].id), Some(calls[i].name), None, None, outputs[i].attachments)];
        Pushed(before, messages, ResultOf(calls[i], slots[i]), Drained(calls, slots, i + 1));
        i := i + 1;
      }
      assert slots[i..] == SlotsOf([], |calls|)[i..];
      DrainedDependsOnItsSlots(calls, slots, SlotsOf([], |calls|), i);
      AppendCancelledToolResults(calls, i);
    }

    /** Calls run at once; each output waits in its slot and is appended in the order of the calls. */
    method DrainParallelBatch(calls: seq<ToolCall>, slots: seq<Slot>)
      requires |slots| == |calls|
      modifies this
      ensures messages == old(messages) + Drained(calls, slots, 0)
      ensures BatchFits(calls, slots, 0, messages[|old(messages)|..])
    {
      DrainedFits(calls, slots, 0);
      var i := 0;
      while i < |calls|
        invariant i <= |calls|
        invariant messages + Drained(calls, slots, i) == old(messages) + Drained(calls, slots, 0)
      {
        ghost var before := messages;
        match slots[i] {
          case Some(output) =>
            messages := messages + [Message(Tool, output.content, Some(calls[i].id), Some(calls[i].name), None, None, output.attachments)];
          case None =>
            if calls[i].name != ASK_USER_TOOL {
              messages := messages + [SyntheticToolMessage(calls[i].id, calls[i].name, CANCELLED_RESULT)];
            }
        }
        Pushed(before, messages, ResultOf(calls[i], slots[i]), Drained(calls, slots, i + 1));
        i := i + 1;
      }
    }

    method CarryOut(plan: seq<Planned>) returns (inserted: seq<Message>)
      requires InBounds(plan, |messages|)
      modifies this
      ensures messages == CarriedOut(old(messages), plan)
      ensures inserted == Messages(plan)
    {
      ghost var h := messages;
      var reversed: seq<Message> := [];
      var k: nat := |plan|;
      while k > 0
        invariant k <= |plan|
        invariant InBounds(plan[k..], |h|) && messages == CarriedOut(h, plan[k..])
        invariant |reversed| == |plan| - k
        invariant forall j :: 0 <= j < |reversed| ==> reversed[j] == plan[|plan| - 1 - j].message
      {
        k := k - 1;
        assert plan[k..][0] == plan[k] && plan[k..][1..] == plan[k + 1..];
        messages := Insert(messages, plan[k].at, plan[k].message);
        reversed := reversed + [plan[k].message];
      }
      assert plan[0..] == plan;
      inserted := seq(|reversed|, j requires 0 <= j < |reversed| => reversed[|reversed| - 1 - j]);
    }

    method MakePlan(closure: Closure) returns (plan: seq<Planned>)
      ensures plan == PlanFrom(messages, 0, closure)
    {
      plan := [];
      var index := 0;
      while index < |messages|
        invariant index <= |messages|
        invariant plan + PlanFrom(messages, index, closure) == PlanFrom(messages, 0, closure)
      {
        var open := PendingCalls(index);
        var runEnd := ResultRunEnd(index);
        var entries := PlanAt(runEnd, ClosingAll(open, closure));
        Regroup(plan, entries, PlanFrom(messages, index + 1, closure));
        plan := plan + entries;
        index := index + 1;
      }
    }
  }
}
