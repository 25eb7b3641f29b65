/**
  Laws that tie the parts of the history surgery together (crates/openslate-core/src/ask_user.rs,
  runtime.rs): repair is nothing but answering every dangling call late, and a cancelled turn leaves exactly its
  questions open for late answers.
 */
module TurnLaws {
  import opened Wrappers
  import opened AskUser
  import opened LateAnswers

  // ---- repair is a series of late answers ----

  /** The answers a repair gives, in order. */
  function RepairAnswers(calls: seq<ToolCall>, closure: Closure): seq<(string, string)> {
    if calls == [] then []
    else [(calls[0].id, ClosingText(calls[0].name, closure))] + RepairAnswers(calls[1..], closure)
  }

  /** Every id is declared at most once. */
  ghost predicate DeclaredOnce(h: seq<Message>) {
    forall id :: Declarations(h, id) <= 1
  }

  /** Every dangling call would take a late answer. */
  ghost predicate AllOpen(h: seq<Message>) {
    forall id :: Count(Dangling(h), id) > 0 ==> Lookup(h, id).Open?
  }

  lemma {:induction false} UnansweredWithout(calls: seq<ToolCall>, resolved: set<string>, id: string)
    requires Count(calls, id) == 0
    ensures Unanswered(calls, resolved + {id}) == Unanswered(calls, resolved)
  {
    if calls != [] {
      UnansweredWithout(calls[1..], resolved, id);
    }
  }

  /** The first unanswered call, once answered, leaves the others. */
  lemma {:induction false} UnansweredButFirst(calls: seq<ToolCall>, resolved: set<string>)
    requires Unanswered(calls, resolved) != []
    requires Count(calls, Unanswered(calls, resolved)[0].id) == 1
    ensures var open := Unanswered(calls, resolved); Unanswered(calls, resolved + {open[0].id}) == open[1..]
  {
    var id := Unanswered(calls, resolved)[0].id;
    if calls[0].id in resolved {
      UnansweredButFirst(calls[1..], resolved);
    } else {
      UnansweredWithout(calls[1..], resolved, id);
    }
  }

  lemma PendingWithout(m: Message, t: seq<Message>, t': seq<Message>, id: string)
    requires m.toolCalls.Some? ==> Count(m.toolCalls.value, id) == 0
    requires Resolved(t') == Resolved(t) || Resolved(t') == Resolved(t) + {id}
    ensures Pending(m, t') == Pending(m, t)
  {
    if m.toolCalls.Some? {
      UnansweredWithout(m.toolCalls.value, Resolved(t), id);
    }
  }

  /** A result inserted at the end of the leading run might as well have been waiting first. */
  ghost predicate MightWait(t: seq<Message>, waiting: seq<Message>, x: Message, closure: Closure) {
    Closed(Insert(t, ResultRun(t), x), waiting, closure) == Closed(t, [x] + waiting, closure)
  }

  lemma MightWaitInFront(t: seq<Message>, waiting: seq<Message>, x: Message, closure: Closure)
    requires ResultRun(t) == 0 && x.role == Tool && x.toolCalls.None?
    ensures MightWait(t, waiting, x, closure)
  {
    assert Insert(t, 0, x) == [x] + t;
    ClosedOneInFront(x, t, waiting, closure);
    assert ClosingAll(Pending(x, t), closure) == [] && waiting + [] == waiting;
    if t != [] {
      assert t == [t[0]] + t[1..];
      ClosedOneInFront(t[0], t[1..], waiting, closure);
      ClosedOneInFront(t[0], t[1..], [x] + waiting, closure);
      Regroup([x], waiting, [t[0]] + Closed(t[1..], ClosingAll(Pending(t[0], t[1..]), closure), closure));
    }
  }

  lemma MightWaitBehind(m: Message, t: seq<Message>, waiting: seq<Message>, x: Message, id: string, closure: Closure)
    requires m.role == Tool && IsResultFor(x, id)
    requires m.toolCalls.Some? ==> Count(m.toolCalls.value, id) == 0
    requires MightWait(t, waiting + ClosingAll(Pending(m, t), closure), x, closure)
    ensures MightWait([m] + t, waiting, x, closure)
  {
    var run := ResultRun(t);
    var t' := Insert(t, run, x);
    RunAfterInsert(t, run, x);
    PendingWithout(m, t, t', id);
    WaitsBehind(m, t, t', waiting, x, ClosingAll(Pending(m, t), closure), closure);
    RunOneInFront(m, t);
    InsertOneInFront(m, t, run, x);
    MightWaitIf([m] + t, [m] + t', waiting, x, closure);
  }

  lemma RunOneInFront(m: Message, t: seq<Message>)
    requires m.role == Tool
    ensures ResultRun([m] + t) == ResultRun(t) + 1
  {
    assert ([m] + t)[1..] == t;
  }

  lemma MightWaitIf(h: seq<Message>, after: seq<Message>, waiting: seq<Message>, x: Message, closure: Closure)
    requires after == Insert(h, ResultRun(h), x) && Closed(after, waiting, closure) == Closed(h, [x] + waiting, closure)
    ensures MightWait(h, waiting, x, closure)
  {
  }

  lemma WaitsBehind(m: Message, t: seq<Message>, t': seq<Message>, waiting: seq<Message>, x: Message,
                    own: seq<Message>, closure: Closure)
    requires m.role == Tool
    requires own == ClosingAll(Pending(m, t), closure) == ClosingAll(Pending(m, t'), closure)
    requires Closed(t', waiting + own, closure) == Closed(t, [x] + (waiting + own), closure)
    ensures Closed([m] + t', waiting, closure) == Closed([m] + t, [x] + waiting, closure)
  {
    ClosedOneInFront(m, t', waiting, closure);
    ClosedOneInFront(m, t, [x] + waiting, closure);
    Regroup([x], waiting, own);
  }

  lemma {:induction false} InsertedMightWait(t: seq<Message>, waiting: seq<Message>, x: Message, id: string, closure: Closure)
    requires IsResultFor(x, id) && Declarations(t, id) == 0
    ensures MightWait(t, waiting, x, closure)
  {
    if ResultRun(t) == 0 {
      MightWaitInFront(t, waiting, x, closure);
    } else {
      var m, u := t[0], t[1..];
      assert t == [m] + u;
      InsertedMightWait(u, waiting + ClosingAll(Pending(m, u), closure), x, id, closure);
      MightWaitBehind(m, u, waiting, x, id, closure);
    }
  }

  /** Closing the first dangling call early does not change what a repair makes of the history. */
  ghost predicate FirstMayGoFirst(h: seq<Message>, closure: Closure) {
    var d := Dangling(h);
    d != [] && Lookup(h, d[0].id).Open?
    ==> Lookup(h, d[0].id).tool == d[0].name
        && Repaired(Insert(h, Lookup(h, d[0].id).at, Closing(d[0], closure)), closure) == Repaired(h, closure)
  }

  lemma {:induction false} FindsFirstOf(calls: seq<ToolCall>, resolved: set<string>)
    requires Unanswered(calls, resolved) != []
    requires Count(calls, Unanswered(calls, resolved)[0].id) == 1
    ensures FindCall(calls, Unanswered(calls, resolved)[0].id) == Some(Unanswered(calls, resolved)[0])
  {
    var c := Unanswered(calls, resolved)[0];
    if calls[0].id in resolved {
      assert c in Unanswered(calls[1..], resolved);
      FindsFirstOf(calls[1..], resolved);
    }
  }

  lemma FirstIsHere(m: Message, t: seq<Message>, closure: Closure)
    requires Pending(m, t) != [] && Declarations([m] + t, Pending(m, t)[0].id) == 1
    ensures FirstMayGoFirst([m] + t, closure)
  {
    var c := Pending(m, t)[0];
    var x := Closing(c, closure);
    var run := ResultRun(t);
    var t' := Insert(t, run, x);
    FirstIsFoundHere(m, t);
    PendingButFirst(m, t, x);
    FirstDangling(m, t);
    FirstGoesFirst(m, t, c, run, t', closure);
  }

  lemma FirstGoesFirst(m: Message, t: seq<Message>, c: ToolCall, run: nat, t': seq<Message>, closure: Closure)
    requires Pending(m, t) != [] && c == Pending(m, t)[0] && Declarations(t, c.id) == 0
    requires run == ResultRun(t) && t' == Insert(t, run, Closing(c, closure)) && Pending(m, t') == Pending(m, t)[1..]
    requires Dangling([m] + t) != [] && Dangling([m] + t)[0] == c && Lookup([m] + t, c.id) == Open(run + 1, c.name)
    ensures FirstMayGoFirst([m] + t, closure)
  {
    FirstClosedHere(m, t, t', closure);
    InsertOneInFront(m, t, run, Closing(c, closure));
    FirstMayGoFirstIf([m] + t, c, run + 1, [m] + t', closure);
  }

  lemma FirstDangling(m: Message, t: seq<Message>)
    requires Pending(m, t) != []
    ensures Dangling([m] + t) != [] && Dangling([m] + t)[0] == Pending(m, t)[0]
  {
    OneInFront(m, t);
  }

  lemma PendingButFirst(m: Message, t: seq<Message>, x: Message)
    requires Pending(m, t) != [] && Count(m.toolCalls.value, Pending(m, t)[0].id) == 1
    requires IsResultFor(x, Pending(m, t)[0].id)
    ensures Pending(m, Insert(t, ResultRun(t), x)) == Pending(m, t)[1..]
  {
    RunAfterInsert(t, ResultRun(t), x);
    UnansweredButFirst(m.toolCalls.value, Resolved(t));
  }

  lemma FirstMayGoFirstIf(h: seq<Message>, c: ToolCall, at: nat, after: seq<Message>, closure: Closure)
    requires Dangling(h) != [] && Dangling(h)[0] == c && Lookup(h, c.id) == Open(at, c.name)
    requires after == Insert(h, at, Closing(c, closure)) && Repaired(after, closure) == Repaired(h, closure)
    ensures FirstMayGoFirst(h, closure)
  {
  }

  lemma FirstIsFoundHere(m: Message, t: seq<Message>)
    requires Pending(m, t) != [] && Declarations([m] + t, Pending(m, t)[0].id) == 1
    ensures var c := Pending(m, t)[0];
            && Lookup([m] + t, c.id) == Open(1 + ResultRun(t), c.name)
            && Count(m.toolCalls.value, c.id) == 1 && Declarations(t, c.id) == 0
  {
    var c := Pending(m, t)[0];
    CountOneInFront(m, t, c.id);
    assert c in Pending(m, t);
    assert c in m.toolCalls.value && c.id !in Resolved(t);
    CountMember(m.toolCalls.value, c);
    FindsFirstOf(m.toolCalls.value, Resolved(t));
    LookupOneInFront(m, t, c.id);
  }

  lemma {:induction false} CountMember(calls: seq<ToolCall>, c: ToolCall)
    requires c in calls
    ensures Count(calls, c.id) > 0
  {
    if calls[0] != c {
      CountMember(calls[1..], c);
    }
  }

  lemma FirstClosedHere(m: Message, t: seq<Message>, t': seq<Message>, closure: Closure)
    requires Pending(m, t) != [] && Declarations(t, Pending(m, t)[0].id) == 0
    requires t' == Insert(t, ResultRun(t), Closing(Pending(m, t)[0], closure))
    requires Pending(m, t') == Pending(m, t)[1..]
    ensures Repaired([m] + t', closure) == Repaired([m] + t, closure)
  {
    var pending := Pending(m, t);
    ClosingsFirst(pending, closure);
    InsertedMightWait(t, ClosingAll(pending[1..], closure), Closing(pending[0], closure), pending[0].id, closure);
    RepairedThroughWaiting(m, t, t', ClosingAll(pending, closure), ClosingAll(pending[1..], closure), closure);
  }

  lemma ClosingsFirst(calls: seq<ToolCall>, closure: Closure)
    requires calls != []
    ensures ClosingAll(calls, closure) == [Closing(calls[0], closure)] + ClosingAll(calls[1..], closure)
  {
    var all, rest := ClosingAll(calls, closure), ClosingAll(calls[1..], closure);
    forall i | 1 <= i < |all| ensures all[i] == rest[i - 1] {
      assert calls[1..][i - 1] == calls[i];
    }
  }

  /** A repair depends on what stands behind the first message only through the closed rest. */
  lemma RepairedThroughWaiting(m: Message, t: seq<Message>, t': seq<Message>, all: seq<Message>, rest: seq<Message>,
                               closure: Closure)
    requires all == ClosingAll(Pending(m, t), closure) && rest == ClosingAll(Pending(m, t'), closure)
    requires Closed(t', rest, closure) == Closed(t, all, closure)
    ensures Repaired([m] + t', closure) == Repaired([m] + t, closure)
  {
    RepairedOneInFront(m, t, closure);
    RepairedOneInFront(m, t', closure);
  }

  lemma RepairedOneInFront(m: Message, t: seq<Message>, closure: Closure)
    ensures Repaired([m] + t, closure) == [m] + Closed(t, ClosingAll(Pending(m, t), closure), closure)
  {
    ClosedOneInFront(m, t, [], closure);
    NothingInFront(ClosingAll(Pending(m, t), closure));
    NothingInFront([m] + Closed(t, ClosingAll(Pending(m, t), closure), closure));
  }

  lemma NothingInFront<T>(s: seq<T>)
    ensures [] + s == s
  {
  }

  lemma FirstIsBehind(m: Message, t: seq<Message>, closure: Closure)
    requires Pending(m, t) == [] && FirstMayGoFirst(t, closure)
    requires Dangling(t) != [] && Declarations([m] + t, Dangling(t)[0].id) == 1
    ensures FirstMayGoFirst([m] + t, closure)
  {
    var d := Dangling(t)[0];
    OneInFront(m, t);
    NothingInFront(Dangling(t));
    LookupOneInFront(m, t, d.id);
    if Lookup([m] + t, d.id).Open? {
      CountOneInFront(m, t, d.id);
      DanglingAtMostDeclared(t, d.id);
      assert Count(Dangling(t), d.id) > 0 by {
        CountMember(Dangling(t), d);
      }
      if m.toolCalls.Some? {
        CountFound(m.toolCalls.value, d.id);
      }
      FirstClosedBehind(m, t, Lookup(t, d.id).at, Closing(d, closure), d.id, closure);
    }
  }

  lemma FirstClosedBehind(m: Message, t: seq<Message>, at: nat, x: Message, id: string, closure: Closure)
    requires Boundary(t, at) && IsResultFor(x, id) && Pending(m, t) == []
    requires m.toolCalls.Some? ==> Count(m.toolCalls.value, id) == 0
    requires Repaired(Insert(t, at, x), closure) == Repaired(t, closure)
    ensures Repaired(Insert([m] + t, at + 1, x), closure) == Repaired([m] + t, closure)
  {
    var t' := Insert(t, at, x);
    InsertOneInFront(m, t, at, x);
    RunAfterInsert(t, at, x);
    PendingWithout(m, t, t', id);
    RepairedOneInFront(m, t, closure);
    RepairedOneInFront(m, t', closure);
    assert ClosingAll([], closure) == [];
  }

  lemma {:induction false} FirstDanglingMayGoFirst(h: seq<Message>, closure: Closure)
    requires Dangling(h) != [] && Declarations(h, Dangling(h)[0].id) == 1
    ensures FirstMayGoFirst(h, closure)
  {
    var m, t := h[0], h[1..];
    assert h == [m] + t;
    OneInFront(m, t);
    if Pending(m, t) != [] {
      FirstIsHere(m, t, closure);
    } else {
      NothingInFront(Dangling(t));
      var d := Dangling(t)[0];
      CountOneInFront(m, t, d.id);
      CountMember(Dangling(t), d);
      DanglingAtMostDeclared(t, d.id);
      FirstDanglingMayGoFirst(t, closure);
      FirstIsBehind(m, t, closure);
    }
  }

  lemma {:induction false} CountExcept(calls: seq<ToolCall>, id: string, other: string)
    requires other != id
    ensures Count(Except(calls, id), other) == Count(calls, other)
  {
    if calls != [] {
      CountExcept(calls[1..], id, other);
      CountJoin(if calls[0].id == id then [] else [calls[0]], Except(calls[1..], id), other);
    }
  }

  lemma ExceptFirst(calls: seq<ToolCall>)
    requires calls != [] && Count(calls, calls[0].id) == 1
    ensures Except(calls, calls[0].id) == calls[1..]
  {
    ExceptAbsent(calls[1..], calls[0].id);
  }

  /** After one late answer to the first dangling call the rest dangles as before, and the history is as
      well-formed as it was. */
  lemma RestAfterFirst(h: seq<Message>, content: string)
    requires Dangling(h) != [] && DeclaredOnce(h) && AllOpen(h)
    ensures var h' := AnsweredLate(h, Dangling(h)[0].id, content);
            Dangling(h') == Dangling(h)[1..] && DeclaredOnce(h') && AllOpen(h')
  {
    var d := Dangling(h)[0];
    CountMember(Dangling(h), d);
    DanglingAtMostDeclared(h, d.id);
    assert Declarations(h, d.id) == 1;
    var x := SyntheticToolMessage(d.id, Lookup(h, d.id).tool, content);
    var at := Lookup(h, d.id).at;
    var h' := AnsweredLate(h, d.id, content);
    LateAnswerRemovesExactlyItsCall(h, d.id, content);
    ExceptFirst(Dangling(h));
    forall id ensures Declarations(h', id) <= 1 {
      DeclarationsAfterInsert(h, at, x, id);
    }
    forall id | Count(Dangling(h'), id) > 0 ensures Lookup(h', id).Open? {
      if id == d.id {
        AnsweredNoLongerDangles(h, id, x);
      } else {
        CountExcept(Dangling(h), d.id, id);
        LookupAfterInsert(h, at, x, d.id, id);
      }
    }
  }

  lemma {:induction false} RepairIsAnswering(h: seq<Message>, closure: Closure)
    requires DeclaredOnce(h) && AllOpen(h)
    ensures Repaired(h, closure) == AnsweredAll(h, RepairAnswers(Dangling(h), closure))
    decreases |Dangling(h)|
  {
    if Dangling(h) == [] {
      NothingDanglingNothingDone(h, closure);
    } else {
      var d := Dangling(h)[0];
      var text := ClosingText(d.name, closure);
      CountMember(Dangling(h), d);
      DanglingAtMostDeclared(h, d.id);
      assert Declarations(h, d.id) == 1;
      FirstDanglingMayGoFirst(h, closure);
      assert Lookup(h, d.id).Open?;
      var h' := AnsweredLate(h, d.id, text);
      RestAfterFirst(h, text);
      RepairIsAnswering(h', closure);
      var answers := RepairAnswers(Dangling(h), closure);
      assert answers[1..] == RepairAnswers(Dangling(h)[1..], closure);
    }
  }

  /** One of the answers is refused. */
  ghost predicate SomeRefused(h: seq<Message>, answers: seq<(string, string)>) {
    exists i :: 0 <= i < |answers| && !Lookup(h, answers[i].0).Open?
  }

  lemma RefusedLater(h: seq<Message>, answer: (string, string), i: nat, rest: seq<(string, string)>)
    requires Lookup(h, answer.0).Open? && i < |rest| && !Lookup(h, rest[i].0).Open?
    ensures SomeRefused(AnsweredLate(h, answer.0, answer.1), rest)
  {
    var x := SyntheticToolMessage(answer.0, Lookup(h, answer.0).tool, answer.1);
    LookupAfterInsert(h, Lookup(h, answer.0).at, x, answer.0, rest[i].0);
  }

  /** Every answer adds at most its one message, a refused one adds nothing. */
  lemma {:induction false} AnswersAddUp(h: seq<Message>, answers: seq<(string, string)>)
    ensures |AnsweredAll(h, answers)| <= |h| + |answers|
    ensures SomeRefused(h, answers) ==> |AnsweredAll(h, answers)| < |h| + |answers|
    decreases |answers|
  {
    if answers != [] {
      AnswersAddUp(AnsweredLate(h, answers[0].0, answers[0].1), answers[1..]);
      if Lookup(h, answers[0].0).Open? && SomeRefused(h, answers) {
        RefusedBehind(h, answers);
      }
    }
  }

  lemma RefusedBehind(h: seq<Message>, answers: seq<(string, string)>)
    requires answers != [] && Lookup(h, answers[0].0).Open? && SomeRefused(h, answers)
    ensures SomeRefused(AnsweredLate(h, answers[0].0, answers[0].1), answers[1..])
  {
    var i :| 0 <= i < |answers| && !Lookup(h, answers[i].0).Open?;
    assert answers[1..][i - 1] == answers[i];
    RefusedLater(h, answers[0], i - 1, answers[1..]);
  }

  lemma {:induction false} AnswersOf(calls: seq<ToolCall>, closure: Closure)
    ensures |RepairAnswers(calls, closure)| == |calls|
    ensures forall i :: 0 <= i < |calls| ==> RepairAnswers(calls, closure)[i].0 == calls[i].id
  {
    if calls != [] {
      AnswersOf(calls[1..], closure);
    }
  }

  lemma {:induction false} CountedSomewhere(calls: seq<ToolCall>, id: string) returns (i: nat)
    requires Count(calls, id) > 0
    ensures i < |calls| && calls[i].id == id
  {
    if calls[0].id == id {
      i := 0;
    } else {
      i := CountedSomewhere(calls[1..], id);
      i := i + 1;
    }
  }

  lemma StrayResultsRefuse(h: seq<Message>, closure: Closure)
    requires !AllOpen(h)
    ensures AnsweredAll(h, RepairAnswers(Dangling(h), closure)) != Repaired(h, closure)
  {
    var d := Dangling(h);
    var answers := RepairAnswers(d, closure);
    var id :| Count(d, id) > 0 && !Lookup(h, id).Open?;
    var i := CountedSomewhere(d, id);
    AnswersOf(d, closure);
    assert !Lookup(h, answers[i].0).Open?;
    AnswersAddUp(h, answers);
    ClosedLength(h, [], closure);
  }

  function Declares(call: ToolCall): Message {
    Message(Assistant, "", None, None, Some([call]), None, None)
  }

  lemma NothingAnswers(call: ToolCall)
    ensures Pending(Declares(call), []) == [call]
  {
    assert Resolved([]) == {} && [call][1..] == [];
    assert Unanswered([call], {}) == [call] + Unanswered([], {});
  }

  /** A result that stands before the message of its call, behind another one: the call dangles, and its
      late answer is refused. */
  lemma ResultBeforeItsCall(call: ToolCall, other: ToolCall)
    requires call.id != other.id
    ensures var h := [Declares(other), SyntheticToolMessage(call.id, call.name, ""), Declares(call)];
            call in Dangling(h) && LateResult(h, call.id, "") == Err(AlreadyAnswered(call.id))
  {
    var a, x, b := Declares(other), SyntheticToolMessage(call.id, call.name, ""), Declares(call);
    assert [x, b] == [x] + [b] && [a, x, b] == [a] + [x, b] && [b] == [b] + [];
    OneInFront(b, []);
    OneInFront(x, [b]);
    OneInFront(a, [x, b]);
    NothingAnswers(call);
    LookupOneInFront(a, [x, b], call.id);
  }

  // ---- which dangling calls take a late answer ----

  /** A result for `id` stands in the run behind message `j`, which has calls of its own. */
  predicate AnswersAt(h: seq<Message>, j: nat, id: string) {
    j < |h| && h[j].toolCalls.Some? && id in ResolvedAt(h, j)
  }

  /** So it does for some message before `i`. */
  ghost predicate AnsweredEarlier(h: seq<Message>, i: nat, id: string) {
    exists j: nat :: j < i && AnswersAt(h, j, id)
  }

  /** Call `c` of message `i` has no result in the run behind that message. */
  predicate DanglesAt(h: seq<Message>, i: nat, c: ToolCall) {
    i < |h| && c in PendingAt(h, i)
  }

  /** No dangling call has a result in the run of an earlier message. */
  ghost predicate NoEarlierResults(h: seq<Message>) {
    forall i: nat, c :: DanglesAt(h, i, c) ==> !AnsweredEarlier(h, i, c.id)
  }

  lemma DanglesBehind(m: Message, t: seq<Message>, i: nat, c: ToolCall)
    ensures DanglesAt([m] + t, i + 1, c) <==> DanglesAt(t, i, c)
  {
    if i < |t| {
      AtOneInFront(m, t, i);
    }
  }

  lemma AnswersBehind(m: Message, t: seq<Message>, j: nat, id: string)
    ensures AnswersAt([m] + t, j + 1, id) <==> AnswersAt(t, j, id)
  {
    if j < |t| {
      AtOneInFront(m, t, j);
    }
  }

  lemma EarlierThere(m: Message, t: seq<Message>, i: nat, id: string)
    requires AnsweredEarlier(t, i, id)
    ensures AnsweredEarlier([m] + t, i + 1, id)
  {
    var j: nat :| j < i && AnswersAt(t, j, id);
    AnswersBehind(m, t, j, id);
    assert AnswersAt([m] + t, j + 1, id);
  }

  lemma EarlierHere(m: Message, t: seq<Message>, i: nat, id: string)
    requires AnsweredEarlier([m] + t, i + 1, id)
    ensures (m.toolCalls.Some? && id in Resolved(t)) || AnsweredEarlier(t, i, id)
  {
    var j: nat :| j < i + 1 && AnswersAt([m] + t, j, id);
    if j == 0 {
      AtFront(m, t);
    } else {
      AnswersBehind(m, t, j - 1, id);
    }
  }

  lemma EarlierInFront(m: Message, t: seq<Message>, i: nat, id: string)
    requires m.toolCalls.Some? && id in Resolved(t)
    ensures AnsweredEarlier([m] + t, i + 1, id)
  {
    AtFront(m, t);
    assert AnswersAt([m] + t, 0, id);
  }

  lemma {:induction false} DanglesIsCounted(h: seq<Message>, i: nat, c: ToolCall)
    requires DanglesAt(h, i, c)
    ensures Count(Dangling(h), c.id) > 0
  {
    FirstAndRest(h);
    if i == 0 {
      CountedHere(h[0], h[1..], c);
    } else {
      DanglesBehind(h[0], h[1..], i - 1, c);
      DanglesIsCounted(h[1..], i - 1, c);
      CountedBehind(h[0], h[1..], c.id);
    }
  }

  lemma FirstAndRest<T>(h: seq<T>)
    requires h != []
    ensures h == [h[0]] + h[1..]
  {
  }

  lemma CountedHere(m: Message, t: seq<Message>, c: ToolCall)
    requires DanglesAt([m] + t, 0, c)
    ensures Count(Dangling([m] + t), c.id) > 0
  {
    CountOneInFront(m, t, c.id);
    AtFront(m, t);
    CountMember(Pending(m, t), c);
  }

  lemma CountedBehind(m: Message, t: seq<Message>, id: string)
    requires Count(Dangling(t), id) > 0
    ensures Count(Dangling([m] + t), id) > 0
  {
    CountOneInFront(m, t, id);
  }

  lemma {:induction false} CountedDangles(h: seq<Message>, id: string) returns (i: nat, c: ToolCall)
    requires Count(Dangling(h), id) > 0
    ensures DanglesAt(h, i, c) && c.id == id
  {
    var m, t := h[0], h[1..];
    assert h == [m] + t;
    CountOneInFront(m, t, id);
    if Count(Pending(m, t), id) > 0 {
      var k := CountedSomewhere(Pending(m, t), id);
      i, c := 0, Pending(m, t)[k];
      AtFront(m, t);
    } else {
      i, c := CountedDangles(t, id);
      DanglesBehind(m, t, i, c);
      i := i + 1;
    }
  }

  lemma OpenHere(m: Message, t: seq<Message>, c: ToolCall)
    requires DanglesAt([m] + t, 0, c)
    ensures Lookup([m] + t, c.id).Open?
  {
    AtFront(m, t);
    LookupOneInFront(m, t, c.id);
    CountMember(m.toolCalls.value, c);
    CountFound(m.toolCalls.value, c.id);
  }

  lemma OpenBehind(m: Message, t: seq<Message>, id: string)
    requires m.toolCalls.Some? ==> Count(m.toolCalls.value, id) == 0
    ensures Lookup([m] + t, id).Open? <==> !(m.toolCalls.Some? && id in Resolved(t)) && Lookup(t, id).Open?
  {
    LookupOneInFront(m, t, id);
    if m.toolCalls.Some? {
      CountFound(m.toolCalls.value, id);
    }
  }

  ghost predicate OpenUnlessEarlier(h: seq<Message>, i: nat, id: string) {
    Lookup(h, id).Open? <==> !AnsweredEarlier(h, i, id)
  }

  lemma OpenUnlessEarlierBehind(m: Message, t: seq<Message>, i: nat, id: string)
    requires m.toolCalls.Some? ==> Count(m.toolCalls.value, id) == 0
    requires OpenUnlessEarlier(t, i, id)
    ensures OpenUnlessEarlier([m] + t, i + 1, id)
  {
    OpenBehind(m, t, id);
    if m.toolCalls.Some? && id in Resolved(t) {
      EarlierInFront(m, t, i, id);
    } else if AnsweredEarlier(t, i, id) {
      EarlierThere(m, t, i, id);
    } else if AnsweredEarlier([m] + t, i + 1, id) {
      EarlierHere(m, t, i, id);
    }
  }

  lemma DeclaredBehind(m: Message, t: seq<Message>, i: nat, c: ToolCall)
    requires DanglesAt(t, i, c) && Declarations([m] + t, c.id) == 1
    ensures Declarations(t, c.id) == 1
    ensures m.toolCalls.Some? ==> Count(m.toolCalls.value, c.id) == 0
  {
    DanglesIsCounted(t, i, c);
    DanglingAtMostDeclared(t, c.id);
    CountOneInFront(m, t, c.id);
  }

  /** A dangling call takes a late answer unless an earlier message's run holds a result for it. */
  lemma {:induction false} OpenUnlessAnsweredEarlier(h: seq<Message>, i: nat, c: ToolCall)
    requires DanglesAt(h, i, c) && Declarations(h, c.id) == 1
    ensures OpenUnlessEarlier(h, i, c.id)
  {
    FirstAndRest(h);
    if i == 0 {
      OpenHere(h[0], h[1..], c);
    } else {
      DanglesBehind(h[0], h[1..], i - 1, c);
      DeclaredBehind(h[0], h[1..], i - 1, c);
      OpenUnlessAnsweredEarlier(h[1..], i - 1, c);
      OpenUnlessEarlierBehind(h[0], h[1..], i - 1, c.id);
    }
  }

  lemma AllOpenIffNoEarlierResults(h: seq<Message>)
    requires DeclaredOnce(h)
    ensures AllOpen(h) <==> NoEarlierResults(h)
  {
    forall i: nat, c | DanglesAt(h, i, c) ensures Count(Dangling(h), c.id) > 0 && OpenUnlessEarlier(h, i, c.id) {
      DanglesIsCounted(h, i, c);
      DanglingAtMostDeclared(h, c.id);
      assert Declarations(h, c.id) == 1;
      OpenUnlessAnsweredEarlier(h, i, c);
    }
    forall id | Count(Dangling(h), id) > 0 ensures exists i: nat, c :: DanglesAt(h, i, c) && c.id == id {
      var i, c := CountedDangles(h, id);
    }
  }

  /** Repair is answering every dangling call late, in the order of their declaration, exactly when no
      dangling call has a result in the run of an earlier message: such a call is taken for answered. */
  lemma RepairIsAnsweringInOrder(h: seq<Message>, closure: Closure)
    requires DeclaredOnce(h)
    ensures Repaired(h, closure) == AnsweredAll(h, RepairAnswers(Dangling(h), closure)) <==> NoEarlierResults(h)
  {
    AllOpenIffNoEarlierResults(h);
    if AllOpen(h) {
      RepairIsAnswering(h, closure);
    } else {
      StrayResultsRefuse(h, closure);
    }
  }

  // ---- what a cancelled turn leaves behind ----

  datatype ToolOutput = ToolOutput(content: string, attachments: Option<seq<string>>)

  const CANCELLED_RESULT := "[tool call cancelled before completion]"

  /** One slot of a batch: the output of a call that completed, or nothing once it was cancelled. */
  type Slot = Option<ToolOutput>

  /** A question without an answer is left open on purpose. */
  predicate LeftOpen(call: ToolCall, slot: Slot) {
    slot.None? && call.name == ASK_USER_TOOL
  }

  /** What one slot adds to the history. */
  function ResultOf(call: ToolCall, slot: Slot): seq<Message> {
    match slot
    case Some(output) =>
      [Message(Tool, output.content, Some(call.id), Some(call.name), None, None, output.attachments)]
    case None =>
      if call.name == ASK_USER_TOOL then [] else [SyntheticToolMessage(call.id, call.name, CANCELLED_RESULT)]
  }

  /** The results of a batch from `from` on, in the order of its calls. */
  function Drained(calls: seq<ToolCall>, slots: seq<Slot>, from: nat): seq<Message>
    requires from <= |calls| == |slots|
    decreases |calls| - from
  {
    if from == |calls| then [] else ResultOf(calls[from], slots[from]) + Drained(calls, slots, from + 1)
  }

  /** The questions of a batch left open from `from` on. */
  function OpenQuestions(calls: seq<ToolCall>, slots: seq<Slot>, from: nat): seq<ToolCall>
    requires from <= |calls| == |slots|
    decreases |calls| - from
  {
    if from == |calls| then []
    else (if LeftOpen(calls[from], slots[from]) then [calls[from]] else []) + OpenQuestions(calls, slots, from + 1)
  }

  predicate DistinctIds(calls: seq<ToolCall>) {
    forall i, j :: 0 <= i < j < |calls| ==> calls[i].id != calls[j].id
  }

  /** Some call from `from` on has this id and is not left open. */
  ghost predicate ClosedAt(calls: seq<ToolCall>, slots: seq<Slot>, from: nat, id: string)
    requires |calls| == |slots|
  {
    exists j :: from <= j < |calls| && calls[j].id == id && !LeftOpen(calls[j], slots[j])
  }

  lemma ClosedAtStep(calls: seq<ToolCall>, slots: seq<Slot>, from: nat, id: string)
    requires from < |calls| == |slots|
    ensures ClosedAt(calls, slots, from, id) <==>
            ClosedAt(calls, slots, from + 1, id) || (calls[from].id == id && !LeftOpen(calls[from], slots[from]))
  {
  }

  lemma ResultInFront(call: ToolCall, slot: Slot, rest: seq<Message>)
    requires AreResults(rest)
    ensures AreResults(ResultOf(call, slot) + rest)
    ensures Ids(ResultOf(call, slot) + rest) == (if LeftOpen(call, slot) then {} else {call.id}) + Ids(rest)
  {
    var own := ResultOf(call, slot);
    if own == [] {
      assert own + rest == rest;
    } else {
      assert (own + rest)[1..] == rest;
    }
  }

  lemma {:induction false} DrainedIds(calls: seq<ToolCall>, slots: seq<Slot>, from: nat, id: string)
    requires from <= |calls| == |slots|
    ensures AreResults(Drained(calls, slots, from))
    ensures id in Ids(Drained(calls, slots, from)) <==> ClosedAt(calls, slots, from, id)
    decreases |calls| - from
  {
    if from < |calls| {
      DrainedIds(calls, slots, from + 1, id);
      ClosedAtStep(calls, slots, from, id);
      ResultInFront(calls[from], slots[from], Drained(calls, slots, from + 1));
    }
  }

  lemma {:induction false} UnansweredAreOpen(calls: seq<ToolCall>, slots: seq<Slot>, resolved: set<string>, from: nat)
    requires from <= |calls| == |slots|
    requires forall j :: 0 <= j < |calls| ==> (calls[j].id in resolved <==> !LeftOpen(calls[j], slots[j]))
    ensures Unanswered(calls[from..], resolved) == OpenQuestions(calls, slots, from)
    decreases |calls| - from
  {
    if from < |calls| {
      assert calls[from..][1..] == calls[from + 1..];
      UnansweredAreOpen(calls, slots, resolved, from + 1);
    }
  }

  ghost predicate StandsBefore(h: seq<Message>, turn: seq<Message>, both: seq<Message>) {
    Dangling(both) == Dangling(h) + Dangling(turn) && Resolved(both) == Resolved(h)
  }

  lemma {:induction false} DanglingBeforeATurn(h: seq<Message>, turn: seq<Message>)
    requires EndsRun(turn)
    ensures StandsBefore(h, turn, h + turn)
  {
    if h == [] {
      NothingInFront(turn);
      NothingInFront(Dangling(turn));
    } else {
      DanglingBeforeATurn(h[1..], turn);
      FirstOfBoth(h, turn);
      OneMoreBeforeATurn(h[0], h[1..], turn, h[1..] + turn);
    }
  }

  lemma FirstOfBoth<T>(h: seq<T>, turn: seq<T>)
    requires h != []
    ensures h == [h[0]] + h[1..] && h + turn == [h[0]] + (h[1..] + turn)
  {
  }

  lemma OneMoreBeforeATurn(m: Message, t: seq<Message>, turn: seq<Message>, both: seq<Message>)
    requires StandsBefore(t, turn, both)
    ensures StandsBefore([m] + t, turn, [m] + both)
  {
    OneInFront(m, t);
    OneInFront(m, both);
    Regroup(Pending(m, t), Dangling(t), Dangling(turn));
  }

  lemma BatchIds(calls: seq<ToolCall>, slots: seq<Slot>, j: nat)
    requires DistinctIds(calls) && j < |calls| == |slots|
    ensures calls[j].id in Ids(Drained(calls, slots, 0)) <==> !LeftOpen(calls[j], slots[j])
  {
    DrainedIds(calls, slots, 0, calls[j].id);
    OnlyCallWithThisId(calls, j);
  }

  lemma OnlyCallWithThisId(calls: seq<ToolCall>, j: nat)
    requires DistinctIds(calls) && j < |calls|
    ensures forall i :: 0 <= i < |calls| && calls[i].id == calls[j].id ==> i == j
  {
  }

  lemma BatchBehindItsMessage(a: Message, batch: seq<Message>)
    requires AreResults(batch)
    ensures Dangling([a] + batch) == Pending(a, batch) && Resolved(batch) == Ids(batch)
  {
    OneInFront(a, batch);
    ResultsInFront(batch, []);
    assert batch + [] == batch;
  }

  lemma PendingOfABatch(a: Message, slots: seq<Slot>)
    requires a.toolCalls.Some? && DistinctIds(a.toolCalls.value) && |a.toolCalls.value| == |slots|
    ensures Dangling([a] + Drained(a.toolCalls.value, slots, 0)) == OpenQuestions(a.toolCalls.value, slots, 0)
  {
    var calls := a.toolCalls.value;
    var batch := Drained(calls, slots, 0);
    DrainedIds(calls, slots, 0, "");
    BatchBehindItsMessage(a, batch);
    forall j | 0 <= j < |calls| ensures calls[j].id in Ids(batch) <==> !LeftOpen(calls[j], slots[j]) {
      BatchIds(calls, slots, j);
    }
    assert calls[0..] == calls;
    UnansweredAreOpen(calls, slots, Ids(batch), 0);
  }

  /** After a cancelled turn exactly the questions of its batch that had no answer dangle, besides what
      dangled before: they wait for a late answer. */
  lemma CancelledTurnLeavesItsQuestions(h: seq<Message>, a: Message, slots: seq<Slot>)
    requires a.role != Tool && a.toolCalls.Some? && DistinctIds(a.toolCalls.value)
    requires |a.toolCalls.value| == |slots|
    ensures Dangling(h + ([a] + Drained(a.toolCalls.value, slots, 0))) ==
            Dangling(h) + OpenQuestions(a.toolCalls.value, slots, 0)
  {
    DanglingBeforeATurn(h, [a] + Drained(a.toolCalls.value, slots, 0));
    PendingOfABatch(a, slots);
  }

  // ---- a batch in sequence is drained like a batch in parallel ----

  /** A batch cancelled in sequence: the first calls completed, the others never began. */
  function SlotsOf(outputs: seq<ToolOutput>, n: nat): (slots: seq<Slot>)
    requires |outputs| <= n
    ensures |slots| == n
    ensures forall i :: 0 <= i < n ==> slots[i] == if i < |outputs| then Some(outputs[i]) else None
  {
    seq(n, i requires 0 <= i < n => if i < |outputs| then Some(outputs[i]) else None)
  }

  lemma {:induction false} DrainedDependsOnItsSlots(calls: seq<ToolCall>, slots: seq<Slot>, others: seq<Slot>, from: nat)
    requires from <= |calls| == |slots| == |others|
    requires slots[from..] == others[from..]
    ensures Drained(calls, slots, from) == Drained(calls, others, from)
    decreases |calls| - from
  {
    if from < |calls| {
      SameFirst(slots, others, from);
      DrainedDependsOnItsSlots(calls, slots, others, from + 1);
    }
  }

  lemma SameFirst<T>(s: seq<T>, t: seq<T>, from: nat)
    requires from < |s| == |t| && s[from..] == t[from..]
    ensures s[from] == t[from] && s[from + 1..] == t[from + 1..]
  {
    assert s[from] == s[from..][0] && t[from] == t[from..][0];
    assert s[from + 1..] == s[from..][1..] && t[from + 1..] == t[from..][1..];
  }
}
