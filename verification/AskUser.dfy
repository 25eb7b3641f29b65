/**
  Message-history surgery for questions answered late (crates/openslate-core/src/ask_user.rs):
  which declared tool calls have no result, how one is completed late, and how all of them are
  closed before a new turn.

  A history is read from the front: `Dangling`, `Lookup` and `Repaired` recurse over its messages.
  The class `History` is the vector the source mutates, with its index loops and reverse-order
  insertions, and is proved to do what those functions say.
 */
module AskUser {
  import opened Wrappers

  datatype Role = System | User | Assistant | Tool

  datatype ToolCall = ToolCall(id: string, name: string)

  datatype Message = Message(
    role: Role,
    content: string,
    toolCallId: Option<string>,
    name: Option<string>,
    toolCalls: Option<seq<ToolCall>>,
    reasoning: Option<string>,
    attachments: Option<seq<string>>)

  datatype Closure = Superseded | Expired

  datatype AskUserError = ToolCallNotFound(id: string) | AlreadyAnswered(id: string)

  const ASK_USER_TOOL := "ask_user"
  const SUPERSEDED_RESULT := "Question superseded by a new user message."
  const EXPIRED_RESULT := "Question expired unanswered (TTL)."
  const INTERRUPTED_RESULT := "[tool call did not complete before interruption]"

  function SyntheticToolMessage(id: string, name: string, content: string): Message {
    Message(Tool, content, Some(id), Some(name), None, None, None)
  }

  function ClosingText(name: string, closure: Closure): string {
    if name == ASK_USER_TOOL then
      (match closure case Superseded => SUPERSEDED_RESULT case Expired => EXPIRED_RESULT)
    else INTERRUPTED_RESULT
  }

  function Closing(call: ToolCall, closure: Closure): Message {
    SyntheticToolMessage(call.id, call.name, ClosingText(call.name, closure))
  }

  /** One closing message per call, in order. */
  function ClosingAll(calls: seq<ToolCall>, closure: Closure): (answers: seq<Message>)
    ensures |answers| == |calls|
    ensures forall i :: 0 <= i < |calls| ==> answers[i] == Closing(calls[i], closure)
  {
    seq(|calls|, i requires 0 <= i < |calls| => Closing(calls[i], closure))
  }

  // ---- reading a history ----

  /** How many tool results come first. */
  function ResultRun(h: seq<Message>): (n: nat)
    ensures n <= |h|
    ensures forall i :: 0 <= i < n ==> h[i].role == Tool
    ensures n < |h| ==> h[n].role != Tool
  {
    if h != [] && h[0].role == Tool then 1 + ResultRun(h[1..]) else 0
  }

  function IdOf(m: Message): set<string> {
    if m.toolCallId.Some? then {m.toolCallId.value} else {}
  }

  function Ids(h: seq<Message>): set<string> {
    if h == [] then {} else IdOf(h[0]) + Ids(h[1..])
  }

  /** The ids answered in the results that come first. */
  function Resolved(h: seq<Message>): set<string> {
    if h != [] && h[0].role == Tool then IdOf(h[0]) + Resolved(h[1..]) else {}
  }

  function Unanswered(calls: seq<ToolCall>, resolved: set<string>): (open: seq<ToolCall>)
    ensures forall c :: c in open <==> c in calls && c.id !in resolved
  {
    if calls == [] then []
    else (if calls[0].id in resolved then [] else [calls[0]]) + Unanswered(calls[1..], resolved)
  }

  /** The calls message `m` declares and the results right behind it do not answer. */
  function Pending(m: Message, behind: seq<Message>): seq<ToolCall> {
    if m.toolCalls.Some? then Unanswered(m.toolCalls.value, Resolved(behind)) else []
  }

  /** The unanswered calls of the message at `i`. */
  function PendingAt(h: seq<Message>, i: nat): seq<ToolCall>
    requires i < |h|
  {
    Pending(h[i], h[i + 1..])
  }

  /** The ids answered in the run behind the message at `i`. */
  function ResolvedAt(h: seq<Message>, i: nat): set<string>
    requires i < |h|
  {
    Resolved(h[i + 1..])
  }

  function Dangling(h: seq<Message>): seq<ToolCall> {
    if h == [] then [] else Pending(h[0], h[1..]) + Dangling(h[1..])
  }

  /** One pass over a history that closes every dangling call; the closings of a message wait until
      the run of results behind it has passed. */
  function Closed(h: seq<Message>, waiting: seq<Message>, closure: Closure): seq<Message> {
    if h == [] then waiting
    else
      var own := ClosingAll(Pending(h[0], h[1..]), closure);
      if h[0].role == Tool then [h[0]] + Closed(h[1..], waiting + own, closure)
      else waiting + [h[0]] + Closed(h[1..], own, closure)
  }

  function Repaired(h: seq<Message>, closure: Closure): seq<Message> {
    Closed(h, [], closure)
  }

  /** Where an answer to a call belongs. */
  datatype Spot = Missing | Answered | Open(at: nat, tool: string)

  function FindCall(calls: seq<ToolCall>, id: string): Option<ToolCall> {
    if calls == [] then None
    else if calls[0].id == id then Some(calls[0])
    else FindCall(calls[1..], id)
  }

  function Lookup(h: seq<Message>, id: string): (spot: Spot)
    ensures spot.Open? ==> 0 < spot.at <= |h| && Boundary(h, spot.at)
  {
    if h == [] then Missing
    else if h[0].toolCalls.Some? && id in Resolved(h[1..]) then Answered
    else if h[0].toolCalls.Some? && FindCall(h[0].toolCalls.value, id).Some? then
      Open(1 + ResultRun(h[1..]), FindCall(h[0].toolCalls.value, id).value.name)
    else
      match Lookup(h[1..], id)
      case Open(at, tool) => assert Boundary(h[1..], at); Open(at + 1, tool)
      case other => other
  }

  /** No result stands at `at`, so a run of results may end there. */
  predicate Boundary(h: seq<Message>, at: nat) {
    at <= |h| && (at < |h| ==> h[at].role != Tool)
  }

  function Insert<T>(s: seq<T>, at: nat, x: T): seq<T>
    requires at <= |s|
  {
    s[..at] + [x] + s[at..]
  }

  /** The history after a late answer: unchanged unless the call is open. */
  function AnsweredLate(h: seq<Message>, id: string, content: string): seq<Message> {
    match Lookup(h, id)
    case Open(at, tool) => Insert(h, at, SyntheticToolMessage(id, tool, content))
    case _ => h
  }

  function LateResult(h: seq<Message>, id: string, content: string): Result<Message, AskUserError> {
    match Lookup(h, id)
    case Open(_, tool) => Ok(SyntheticToolMessage(id, tool, content))
    case Answered => Err(AlreadyAnswered(id))
    case Missing => Err(ToolCallNotFound(id))
  }

  // ---- repair closes everything and loses nothing ----

  predicate AreResults(ms: seq<Message>) {
    forall i :: 0 <= i < |ms| ==> ms[i].role == Tool && ms[i].toolCalls.None?
  }

  lemma {:induction false} UnansweredEmpty(calls: seq<ToolCall>, resolved: set<string>)
    ensures Unanswered(calls, resolved) == [] <==> forall c :: c in calls ==> c.id in resolved
  {
    var open := Unanswered(calls, resolved);
    if open != [] {
      assert open[0] in open;
    }
  }

  lemma {:induction false} ResultsInFront(ms: seq<Message>, h: seq<Message>)
    requires AreResults(ms)
    ensures Dangling(ms + h) == Dangling(h)
    ensures Resolved(ms + h) == Ids(ms) + Resolved(h)
  {
    if ms == [] {
      assert ms + h == h;
    } else {
      assert (ms + h)[1..] == ms[1..] + h;
      ResultsInFront(ms[1..], h);
    }
  }

  lemma {:induction false} IdsJoin(a: seq<Message>, b: seq<Message>)
    ensures Ids(a + b) == Ids(a) + Ids(b)
  {
    if a == [] {
      assert a + b == b;
    } else {
      assert (a + b)[1..] == a[1..] + b;
      IdsJoin(a[1..], b);
    }
  }

  lemma {:induction false} ClosingsAnswer(calls: seq<ToolCall>, closure: Closure)
    ensures AreResults(ClosingAll(calls, closure))
    ensures forall c :: c in calls ==> c.id in Ids(ClosingAll(calls, closure))
  {
    if calls != [] {
      assert ClosingAll(calls, closure)[1..] == ClosingAll(calls[1..], closure);
      ClosingsAnswer(calls[1..], closure);
    }
  }

  /** The calls of `m` are answered when all they still lacked stands in the results behind it. */
  lemma NothingPending(m: Message, before: seq<Message>, after: seq<Message>, closure: Closure)
    requires Resolved(before) + Ids(ClosingAll(Pending(m, before), closure)) <= Resolved(after)
    ensures Pending(m, after) == []
  {
    if m.toolCalls.Some? {
      ClosingsAnswer(Pending(m, before), closure);
      UnansweredEmpty(m.toolCalls.value, Resolved(after));
    }
  }

  lemma OneInFront(m: Message, behind: seq<Message>)
    ensures Dangling([m] + behind) == Pending(m, behind) + Dangling(behind)
    ensures Resolved([m] + behind) == if m.role == Tool then IdOf(m) + Resolved(behind) else {}
  {
    assert ([m] + behind)[1..] == behind;
  }

  lemma AtFront(m: Message, t: seq<Message>)
    ensures PendingAt([m] + t, 0) == Pending(m, t) && ResolvedAt([m] + t, 0) == Resolved(t)
  {
    assert ([m] + t)[1..] == t;
  }

  lemma AtOneInFront(m: Message, t: seq<Message>, i: nat)
    requires i < |t|
    ensures ([m] + t)[i + 1] == t[i]
    ensures PendingAt([m] + t, i + 1) == PendingAt(t, i) && ResolvedAt([m] + t, i + 1) == ResolvedAt(t, i)
  {
    assert ([m] + t)[i + 2..] == t[i + 1..];
  }

  lemma ClosedOneInFront(m: Message, t: seq<Message>, waiting: seq<Message>, closure: Closure)
    ensures Closed([m] + t, waiting, closure)
         == (var own := ClosingAll(Pending(m, t), closure);
             if m.role == Tool then [m] + Closed(t, waiting + own, closure)
             else waiting + ([m] + Closed(t, own, closure)))
  {
    assert ([m] + t)[1..] == t;
    var rest := Closed(t, ClosingAll(Pending(m, t), closure), closure);
    assert waiting + [m] + rest == waiting + ([m] + rest);
  }

  /** Nothing dangles in the closed history, and all it should answer at its front is answered there. */
  ghost predicate AllAnswered(h: seq<Message>, waiting: seq<Message>, closure: Closure) {
    && Dangling(Closed(h, waiting, closure)) == []
    && Resolved(h) + Ids(waiting) <= Resolved(Closed(h, waiting, closure))
  }

  lemma AfterAResult(m: Message, t: seq<Message>, waiting: seq<Message>, closure: Closure)
    requires m.role == Tool
    requires AllAnswered(t, waiting + ClosingAll(Pending(m, t), closure), closure)
    ensures AllAnswered([m] + t, waiting, closure)
  {
    var own := ClosingAll(Pending(m, t), closure);
    var rest := Closed(t, waiting + own, closure);
    IdsJoin(waiting, own);
    NothingPending(m, t, rest, closure);
    OneInFront(m, t);
    OneInFront(m, rest);
    ClosedOneInFront(m, t, waiting, closure);
  }

  lemma AfterAnythingElse(m: Message, t: seq<Message>, waiting: seq<Message>, closure: Closure)
    requires m.role != Tool && AreResults(waiting)
    requires AllAnswered(t, ClosingAll(Pending(m, t), closure), closure)
    ensures AllAnswered([m] + t, waiting, closure)
  {
    var own := ClosingAll(Pending(m, t), closure);
    var rest := Closed(t, own, closure);
    NothingPending(m, t, rest, closure);
    OneInFront(m, t);
    OneInFront(m, rest);
    ResultsInFront(waiting, [m] + rest);
    ClosedOneInFront(m, t, waiting, closure);
  }

  lemma {:induction false} ClosedLeavesNothingDangling(h: seq<Message>, waiting: seq<Message>, closure: Closure)
    requires AreResults(waiting)
    ensures AllAnswered(h, waiting, closure)
  {
    if h == [] {
      ResultsInFront(waiting, []);
      assert waiting + [] == waiting;
    } else {
      var m, t := h[0], h[1..];
      assert h == [m] + t;
      ClosingsAnswer(Pending(m, t), closure);
      if m.role == Tool {
        ClosedLeavesNothingDangling(t, waiting + ClosingAll(Pending(m, t), closure), closure);
        AfterAResult(m, t, waiting, closure);
      } else {
        ClosedLeavesNothingDangling(t, ClosingAll(Pending(m, t), closure), closure);
        AfterAnythingElse(m, t, waiting, closure);
      }
    }
  }

  /** After a repair nothing dangles, whatever the history was. */
  lemma RepairLeavesNothingDangling(h: seq<Message>, closure: Closure)
    ensures Dangling(Repaired(h, closure)) == []
  {
    ClosedLeavesNothingDangling(h, [], closure);
  }

  lemma {:induction false} ClosedLength(h: seq<Message>, waiting: seq<Message>, closure: Closure)
    ensures |Closed(h, waiting, closure)| == |h| + |waiting| + |Dangling(h)|
  {
    if h != [] {
      var own := ClosingAll(Pending(h[0], h[1..]), closure);
      ClosedLength(h[1..], if h[0].role == Tool then waiting + own else own, closure);
    }
  }

  lemma {:induction false} NothingDanglingNothingDone(h: seq<Message>, closure: Closure)
    requires Dangling(h) == []
    ensures Repaired(h, closure) == h
  {
    if h != [] {
      var m, t := h[0], h[1..];
      assert h == [m] + t;
      OneInFront(m, t);
      NothingDanglingNothingDone(t, closure);
      NothingToClose(m, t, closure);
    }
  }

  lemma NothingToClose(m: Message, t: seq<Message>, closure: Closure)
    requires Pending(m, t) == [] && Repaired(t, closure) == t
    ensures Repaired([m] + t, closure) == [m] + t
  {
    ClosedOneInFront(m, t, [], closure);
    assert ClosingAll([], closure) == [];
    assert [] + ([m] + t) == [m] + t;
  }

  /** A repair changes a history exactly when something dangles. */
  lemma RepairChangesOnlyDangling(h: seq<Message>, closure: Closure)
    ensures Repaired(h, closure) == h <==> Dangling(h) == []
  {
    ClosedLength(h, [], closure);
    if Dangling(h) == [] {
      NothingDanglingNothingDone(h, closure);
    }
  }

  /** So a second repair changes nothing. */
  lemma RepairTwiceIsRepairOnce(h: seq<Message>, first: Closure, second: Closure)
    ensures Repaired(Repaired(h, first), second) == Repaired(h, first)
  {
    RepairLeavesNothingDangling(h, first);
    RepairChangesOnlyDangling(Repaired(h, first), second);
  }

  /** `whole` is `kept` and `added` shuffled together, each in its own order. */
  predicate Interleaves<T(==)>(whole: seq<T>, kept: seq<T>, added: seq<T>) {
    if whole == [] then kept == [] && added == []
    else
      || (kept != [] && whole[0] == kept[0] && Interleaves(whole[1..], kept[1..], added))
      || (added != [] && whole[0] == added[0] && Interleaves(whole[1..], kept, added[1..]))
  }

  lemma KeptInFront<T>(x: T, whole: seq<T>, kept: seq<T>, added: seq<T>)
    requires Interleaves(whole, kept, added)
    ensures Interleaves([x] + whole, [x] + kept, added)
  {
    assert ([x] + whole)[1..] == whole && ([x] + kept)[1..] == kept;
  }

  lemma {:induction false} AddedInFront<T>(xs: seq<T>, whole: seq<T>, kept: seq<T>, added: seq<T>)
    requires Interleaves(whole, kept, added)
    ensures Interleaves(xs + whole, kept, xs + added)
  {
    if xs == [] {
      assert xs + whole == whole && xs + added == added;
    } else {
      AddedInFront(xs[1..], whole, kept, added);
      assert (xs + whole)[1..] == xs[1..] + whole && (xs + added)[1..] == xs[1..] + added;
    }
  }

  lemma ClosingsJoin(xs: seq<ToolCall>, ys: seq<ToolCall>, closure: Closure)
    ensures ClosingAll(xs + ys, closure) == ClosingAll(xs, closure) + ClosingAll(ys, closure)
  {
  }

  ghost predicate OnlyInserts(h: seq<Message>, waiting: seq<Message>, closure: Closure) {
    Interleaves(Closed(h, waiting, closure), h, waiting + ClosingAll(Dangling(h), closure))
  }

  lemma InsertsAfterAResult(m: Message, t: seq<Message>, waiting: seq<Message>, closure: Closure)
    requires m.role == Tool
    requires OnlyInserts(t, waiting + ClosingAll(Pending(m, t), closure), closure)
    ensures OnlyInserts([m] + t, waiting, closure)
  {
    var own, later := ClosingAll(Pending(m, t), closure), ClosingAll(Dangling(t), closure);
    OneInFront(m, t);
    ClosingsJoin(Pending(m, t), Dangling(t), closure);
    assert waiting + own + later == waiting + (own + later);
    KeptInFront(m, Closed(t, waiting + own, closure), t, waiting + own + later);
    ClosedOneInFront(m, t, waiting, closure);
  }

  lemma InsertsAfterAnythingElse(m: Message, t: seq<Message>, waiting: seq<Message>, closure: Closure)
    requires m.role != Tool
    requires OnlyInserts(t, ClosingAll(Pending(m, t), closure), closure)
    ensures OnlyInserts([m] + t, waiting, closure)
  {
    var own, later := ClosingAll(Pending(m, t), closure), ClosingAll(Dangling(t), closure);
    OneInFront(m, t);
    ClosingsJoin(Pending(m, t), Dangling(t), closure);
    KeptInFront(m, Closed(t, own, closure), t, own + later);
    AddedInFront(waiting, [m] + Closed(t, own, closure), [m] + t, own + later);
    ClosedOneInFront(m, t, waiting, closure);
  }

  lemma {:induction false} ClosedOnlyInserts(h: seq<Message>, waiting: seq<Message>, closure: Closure)
    ensures OnlyInserts(h, waiting, closure)
  {
    if h == [] {
      AddedInFront(waiting, [], [], []);
      assert waiting + [] == waiting && ClosingAll([], closure) == [];
    } else {
      var m, t := h[0], h[1..];
      assert h == [m] + t;
      if m.role == Tool {
        ClosedOnlyInserts(t, waiting + ClosingAll(Pending(m, t), closure), closure);
        InsertsAfterAResult(m, t, waiting, closure);
      } else {
        ClosedOnlyInserts(t, ClosingAll(Pending(m, t), closure), closure);
        InsertsAfterAnythingElse(m, t, waiting, closure);
      }
    }
  }

  /** Nothing is lost, moved or invented: the repaired history is the old one with the closings of the
      dangling calls put in, both in their order. */
  lemma RepairOnlyInserts(h: seq<Message>, closure: Closure)
    ensures Interleaves(Repaired(h, closure), h, ClosingAll(Dangling(h), closure))
  {
    ClosedOnlyInserts(h, [], closure);
    assert [] + ClosingAll(Dangling(h), closure) == ClosingAll(Dangling(h), closure);
  }
}
