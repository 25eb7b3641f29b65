/**
  Laws of late answers (crates/openslate-core/src/ask_user.rs): the first answer wins for good,
  a late answer leaves the history an immediate one would have left, answers to different calls
  do not disturb each other, and exactly the answered call stops dangling.
 */
module LateAnswers {
  import opened Wrappers
  import opened AskUser

  predicate IsResultFor(x: Message, id: string) {
    x.role == Tool && x.toolCalls.None? && x.toolCallId == Some(id)
  }

  // ---- what one inserted result changes ----

  lemma InsertOneInFront(m: Message, t: seq<Message>, at: nat, x: Message)
    requires at <= |t|
    ensures Insert([m] + t, at + 1, x) == [m] + Insert(t, at, x)
  {
  }

  /** A result inserted where a run may end extends the leading run or leaves it alone. */
  ghost predicate RunAfter(t: seq<Message>, at: nat, x: Message)
    requires at <= |t|
  {
    && ResultRun(Insert(t, at, x)) == ResultRun(t) + (if at == ResultRun(t) then 1 else 0)
    && Resolved(Insert(t, at, x)) == Resolved(t) + (if at == ResultRun(t) then IdOf(x) else {})
  }

  lemma RunAfterInsertAtOnce(t: seq<Message>, x: Message)
    requires Boundary(t, 0) && x.role == Tool
    ensures RunAfter(t, 0, x)
  {
    assert Insert(t, 0, x) == [x] + t;
    assert ([x] + t)[1..] == t;
  }

  lemma RunAfterInsertBehind(m: Message, t: seq<Message>, at: nat, x: Message)
    requires at <= |t| && RunAfter(t, at, x)
    ensures RunAfter([m] + t, at + 1, x)
  {
    InsertOneInFront(m, t, at, x);
    assert ([m] + t)[1..] == t && ([m] + Insert(t, at, x))[1..] == Insert(t, at, x);
  }

  lemma {:induction false} RunAfterInsert(t: seq<Message>, at: nat, x: Message)
    requires Boundary(t, at) && x.role == Tool
    ensures RunAfter(t, at, x)
  {
    if at == 0 {
      RunAfterInsertAtOnce(t, x);
    } else {
      assert t == [t[0]] + t[1..];
      RunAfterInsert(t[1..], at - 1, x);
      RunAfterInsertBehind(t[0], t[1..], at - 1, x);
    }
  }

  function Moved(spot: Spot, at: nat): Spot {
    if spot.Open? && spot.at >= at then Open(spot.at + 1, spot.tool) else spot
  }

  lemma LookupOneInFront(m: Message, t: seq<Message>, id: string)
    ensures Lookup([m] + t, id)
         == if m.toolCalls.Some? && id in Resolved(t) then Answered
            else if m.toolCalls.Some? && FindCall(m.toolCalls.value, id).Some? then
              Open(1 + ResultRun(t), FindCall(m.toolCalls.value, id).value.name)
            else if Lookup(t, id).Open? then Open(Lookup(t, id).at + 1, Lookup(t, id).tool)
            else Lookup(t, id)
  {
    assert ([m] + t)[1..] == t;
  }

  /** Lookups of other calls see an inserted result only as a shift of positions. */
  lemma {:induction false} LookupAfterInsert(h: seq<Message>, at: nat, x: Message, answered: string, id: string)
    requires Boundary(h, at) && IsResultFor(x, answered) && id != answered
    ensures Lookup(Insert(h, at, x), id) == Moved(Lookup(h, id), at)
  {
    if at == 0 {
      assert Insert(h, 0, x) == [x] + h;
      LookupOneInFront(x, h, id);
    } else {
      assert h == [h[0]] + h[1..];
      LookupAfterInsert(h[1..], at - 1, x, answered, id);
      LookupAfterInsertBehind(h[0], h[1..], at - 1, x, answered, id);
    }
  }

  lemma LookupAfterInsertBehind(m: Message, t: seq<Message>, at: nat, x: Message, answered: string, id: string)
    requires Boundary(t, at) && IsResultFor(x, answered) && id != answered
    requires Lookup(Insert(t, at, x), id) == Moved(Lookup(t, id), at)
    ensures Lookup(Insert([m] + t, at + 1, x), id) == Moved(Lookup([m] + t, id), at + 1)
  {
    RunAfterInsert(t, at, x);
    InsertOneInFront(m, t, at, x);
    LookupOneInFront(m, t, id);
    LookupOneInFront(m, Insert(t, at, x), id);
    assert ResultRun(t) <= at;
  }

  // ---- the first answer wins ----

  /** Once answered, a call is found answered. */
  lemma {:induction false} AnswerIsSeen(h: seq<Message>, id: string, x: Message)
    requires Lookup(h, id).Open? && IsResultFor(x, id)
    ensures Lookup(Insert(h, Lookup(h, id).at, x), id) == Answered
  {
    var m, t := h[0], h[1..];
    assert h == [m] + t;
    LookupOneInFront(m, t, id);
    if m.toolCalls.Some? && FindCall(m.toolCalls.value, id).Some? {
      AnswerIsSeenHere(m, t, id, x);
    } else {
      AnswerIsSeen(t, id, x);
      AnswerIsSeenBehind(m, t, Lookup(t, id).at, id, x);
    }
  }

  lemma AnswerIsSeenHere(m: Message, t: seq<Message>, id: string, x: Message)
    requires m.toolCalls.Some? && IsResultFor(x, id)
    ensures Lookup(Insert([m] + t, 1 + ResultRun(t), x), id) == Answered
  {
    var run := ResultRun(t);
    InsertOneInFront(m, t, run, x);
    RunAfterInsert(t, run, x);
    LookupOneInFront(m, Insert(t, run, x), id);
  }

  lemma AnswerIsSeenBehind(m: Message, t: seq<Message>, at: nat, id: string, x: Message)
    requires m.toolCalls.None? || FindCall(m.toolCalls.value, id).None?
    requires at <= |t| && Lookup(Insert(t, at, x), id) == Answered
    ensures Lookup(Insert([m] + t, at + 1, x), id) == Answered
  {
    InsertOneInFront(m, t, at, x);
    LookupOneInFront(m, Insert(t, at, x), id);
  }

  lemma AnsweredStaysAnswered(h: seq<Message>, id: string, other: string, content: string)
    requires Lookup(h, id) == Answered
    ensures Lookup(AnsweredLate(h, other, content), id) == Answered
  {
    if id != other && Lookup(h, other).Open? {
      var x := SyntheticToolMessage(other, Lookup(h, other).tool, content);
      LookupAfterInsert(h, Lookup(h, other).at, x, other, id);
    }
  }

  /** Late answers given one after the other. */
  function AnsweredAll(h: seq<Message>, answers: seq<(string, string)>): seq<Message>
    decreases |answers|
  {
    if answers == [] then h else AnsweredAll(AnsweredLate(h, answers[0].0, answers[0].1), answers[1..])
  }

  lemma {:induction false} AnsweredThroughout(h: seq<Message>, id: string, answers: seq<(string, string)>)
    requires Lookup(h, id) == Answered
    ensures Lookup(AnsweredAll(h, answers), id) == Answered
    decreases |answers|
  {
    if answers != [] {
      AnsweredStaysAnswered(h, id, answers[0].0, answers[0].1);
      AnsweredThroughout(AnsweredLate(h, answers[0].0, answers[0].1), id, answers[1..]);
    }
  }

  /** First answer wins: after a successful late answer, and any further answers to any calls, another
      answer to the same call is refused and changes nothing. */
  lemma FirstAnswerWins(h: seq<Message>, id: string, first: string, between: seq<(string, string)>, second: string)
    requires LateResult(h, id, first).Ok?
    ensures var later := AnsweredAll(AnsweredLate(h, id, first), between);
            LateResult(later, id, second) == Err(AlreadyAnswered(id)) && AnsweredLate(later, id, second) == later
  {
    AnswerIsSeen(h, id, SyntheticToolMessage(id, Lookup(h, id).tool, first));
    AnsweredThroughout(AnsweredLate(h, id, first), id, between);
  }

  // ---- late equals immediate ----

  /** `m` neither declares nor answers `id`. */
  predicate Silent(m: Message, id: string) {
    m.toolCallId != Some(id) && (m.toolCalls.Some? ==> FindCall(m.toolCalls.value, id).None?)
  }

  predicate RunWithout(run: seq<Message>, id: string) {
    forall i :: 0 <= i < |run| ==> run[i].role == Tool && run[i].toolCallId != Some(id)
  }

  predicate EndsRun(post: seq<Message>) {
    post != [] ==> post[0].role != Tool
  }

  lemma {:induction false} RunThenPost(run: seq<Message>, post: seq<Message>, id: string)
    requires RunWithout(run, id) && EndsRun(post)
    ensures ResultRun(run + post) == |run| && id !in Resolved(run + post)
  {
    if run == [] {
      assert run + post == post;
    } else {
      assert (run + post)[1..] == run[1..] + post;
      RunThenPost(run[1..], post, id);
    }
  }

  lemma {:induction false} SilentNotResolved(pre: seq<Message>, rest: seq<Message>, id: string)
    requires forall i :: 0 <= i < |pre| ==> Silent(pre[i], id)
    requires rest != [] ==> id !in Resolved(rest)
    ensures id !in Resolved(pre + rest)
  {
    if pre == [] {
      assert pre + rest == rest;
    } else {
      assert (pre + rest)[1..] == pre[1..] + rest;
      SilentNotResolved(pre[1..], rest, id);
    }
  }

  /** The open call is found at the end of the run behind the message that declares it. */
  lemma {:induction false} OpenAtEndOfRun(pre: seq<Message>, a: Message, run: seq<Message>, post: seq<Message>, id: string)
    requires forall i :: 0 <= i < |pre| ==> Silent(pre[i], id)
    requires a.toolCallId != Some(id) && a.toolCalls.Some? && FindCall(a.toolCalls.value, id).Some?
    requires RunWithout(run, id) && EndsRun(post)
    ensures Lookup(pre + [a] + run + post, id)
         == Open(|pre| + 1 + |run|, FindCall(a.toolCalls.value, id).value.name)
  {
    RunThenPost(run, post, id);
    if pre == [] {
      assert pre + [a] + run + post == [a] + (run + post);
      LookupOneInFront(a, run + post, id);
    } else {
      OpenAtEndOfRun(pre[1..], a, run, post, id);
      ResolvedNotSeen(pre[1..], a, run, post, id);
      FirstOfFour(pre, [a], run, post);
      SilentInFront(pre[0], pre[1..] + [a] + run + post, id);
    }
  }

  lemma FirstOfFour<T>(a: seq<T>, b: seq<T>, c: seq<T>, d: seq<T>)
    requires a != []
    ensures a + b + c + d == [a[0]] + (a[1..] + b + c + d)
  {
  }

  lemma SilentInFront(m: Message, t: seq<Message>, id: string)
    requires Silent(m, id) && id !in Resolved(t) && Lookup(t, id).Open?
    ensures Lookup([m] + t, id) == Open(Lookup(t, id).at + 1, Lookup(t, id).tool)
  {
    LookupOneInFront(m, t, id);
  }

  lemma ResolvedNotSeen(pre: seq<Message>, a: Message, run: seq<Message>, post: seq<Message>, id: string)
    requires forall i :: 0 <= i < |pre| ==> Silent(pre[i], id)
    requires a.toolCallId != Some(id) && id !in Resolved(run + post)
    ensures id !in Resolved(pre + [a] + run + post)
  {
    OneInFront(a, run + post);
    SilentNotResolved(pre, [a] + (run + post), id);
    GroupedRight(pre, [a], run, post);
  }

  lemma GroupedRight<T>(a: seq<T>, b: seq<T>, c: seq<T>, d: seq<T>)
    ensures a + b + c + d == a + (b + (c + d))
  {
  }

  /** Take any result out of its run and answer the call late with the same text: the history comes back,
      with that result last in its run. When it was last there, the history comes back exactly. */
  lemma LateEqualsImmediate(pre: seq<Message>, a: Message, before: seq<Message>, after: seq<Message>,
                            post: seq<Message>, id: string, text: string)
    requires forall i :: 0 <= i < |pre| ==> Silent(pre[i], id)
    requires a.toolCallId != Some(id) && a.toolCalls.Some? && FindCall(a.toolCalls.value, id).Some?
    requires RunWithout(before, id) && RunWithout(after, id) && EndsRun(post)
    ensures var r := SyntheticToolMessage(id, FindCall(a.toolCalls.value, id).value.name, text);
            var immediate := pre + [a] + before + [r] + after + post;
            var late := AnsweredLate(pre + [a] + before + after + post, id, text);
            && LateResult(pre + [a] + before + after + post, id, text) == Ok(r)
            && late == pre + [a] + before + after + [r] + post
            && (after == [] ==> late == immediate)
  {
    var r := SyntheticToolMessage(id, FindCall(a.toolCalls.value, id).value.name, text);
    var h := pre + [a] + before + after + post;
    assert h == pre + [a] + (before + after) + post;
    OpenAtEndOfRun(pre, a, before + after, post, id);
    InsertBetween(pre + [a] + before + after, post, r);
  }

  lemma InsertBetween(left: seq<Message>, right: seq<Message>, x: Message)
    ensures Insert(left + right, |left|, x) == left + [x] + right
  {
    assert (left + right)[..|left|] == left && (left + right)[|left|..] == right;
  }

  // ---- answers to different calls ----

  /** Late answers to different calls commute when their runs differ; in one run only the two new results
      change places. */
  lemma LateAnswersCommute(h: seq<Message>, a: string, textA: string, b: string, textB: string)
    requires a != b && Lookup(h, a).Open? && Lookup(h, b).Open?
    ensures var ab := AnsweredLate(AnsweredLate(h, a, textA), b, textB);
            var ba := AnsweredLate(AnsweredLate(h, b, textB), a, textA);
            var at := Lookup(h, a).at;
            var x := SyntheticToolMessage(a, Lookup(h, a).tool, textA);
            var y := SyntheticToolMessage(b, Lookup(h, b).tool, textB);
            if Lookup(h, b).at == at then ab == h[..at] + [x, y] + h[at..] && ba == h[..at] + [y, x] + h[at..]
            else ab == ba
  {
    TwoLateAnswers(h, a, textA, b, textB);
    TwoLateAnswers(h, b, textB, a, textA);
  }

  /** Where the second of two answers goes. */
  lemma TwoLateAnswers(h: seq<Message>, a: string, textA: string, b: string, textB: string)
    requires a != b && Lookup(h, a).Open? && Lookup(h, b).Open?
    ensures var p, q := Lookup(h, a).at, Lookup(h, b).at;
            var x := SyntheticToolMessage(a, Lookup(h, a).tool, textA);
            var y := SyntheticToolMessage(b, Lookup(h, b).tool, textB);
            var ab := AnsweredLate(AnsweredLate(h, a, textA), b, textB);
            && (p < q ==> ab == h[..p] + [x] + h[p..q] + [y] + h[q..])
            && (p == q ==> ab == h[..p] + [x, y] + h[p..])
            && (q < p ==> ab == h[..q] + [y] + h[q..p] + [x] + h[p..])
  {
    var p, q := Lookup(h, a).at, Lookup(h, b).at;
    var x := SyntheticToolMessage(a, Lookup(h, a).tool, textA);
    var y := SyntheticToolMessage(b, Lookup(h, b).tool, textB);
    LookupAfterInsert(h, p, x, a, b);
    InsertTwice(h, p, x, q, y);
    assert AnsweredLate(h, a, textA) == Insert(h, p, x);
  }

  lemma InsertTwice<T>(s: seq<T>, p: nat, x: T, q: nat, y: T)
    requires p <= |s| && q <= |s|
    ensures var both := Insert(Insert(s, p, x), if p <= q then q + 1 else q, y);
            && (p < q ==> both == s[..p] + [x] + s[p..q] + [y] + s[q..])
            && (p == q ==> both == s[..p] + [x, y] + s[p..])
            && (q < p ==> both == s[..q] + [y] + s[q..p] + [x] + s[p..])
  {
    if p <= q {
      InsertBefore(s, p, x, q, y);
    } else {
      InsertBehind(s, p, x, q, y);
    }
  }

  lemma InsertBefore<T>(s: seq<T>, p: nat, x: T, q: nat, y: T)
    requires p <= q <= |s|
    ensures Insert(Insert(s, p, x), q + 1, y) == s[..p] + [x] + s[p..q] + [y] + s[q..]
  {
  }

  lemma InsertBehind<T>(s: seq<T>, p: nat, x: T, q: nat, y: T)
    requires q < p <= |s|
    ensures Insert(Insert(s, p, x), q, y) == s[..q] + [y] + s[q..p] + [x] + s[p..]
  {
  }

  // ---- what still dangles ----

  function Except(calls: seq<ToolCall>, id: string): seq<ToolCall> {
    if calls == [] then []
    else (if calls[0].id == id then [] else [calls[0]]) + Except(calls[1..], id)
  }

  lemma {:induction false} ExceptJoin(xs: seq<ToolCall>, ys: seq<ToolCall>, id: string)
    ensures Except(xs + ys, id) == Except(xs, id) + Except(ys, id)
  {
    if xs == [] {
      assert xs + ys == ys;
    } else {
      assert (xs + ys)[1..] == xs[1..] + ys;
      ExceptJoin(xs[1..], ys, id);
    }
  }

  lemma {:induction false} ExceptUnanswered(calls: seq<ToolCall>, resolved: set<string>, id: string)
    ensures Except(Unanswered(calls, resolved + {id}), id) == Except(Unanswered(calls, resolved), id)
  {
    if calls != [] {
      ExceptUnanswered(calls[1..], resolved, id);
      var first := if calls[0].id in resolved then [] else [calls[0]];
      var first' := if calls[0].id in resolved + {id} then [] else [calls[0]];
      ExceptJoin(first, Unanswered(calls[1..], resolved), id);
      ExceptJoin(first', Unanswered(calls[1..], resolved + {id}), id);
    }
  }

  /** An inserted result touches no other dangling call and keeps their order. */
  lemma {:induction false} OthersKeepDangling(h: seq<Message>, at: nat, x: Message, id: string)
    requires Boundary(h, at) && IsResultFor(x, id)
    ensures Except(Dangling(Insert(h, at, x)), id) == Except(Dangling(h), id)
  {
    if at == 0 {
      assert Insert(h, 0, x) == [x] + h;
      OneInFront(x, h);
      assert [] + Dangling(h) == Dangling(h);
    } else {
      assert h == [h[0]] + h[1..];
      OthersKeepDangling(h[1..], at - 1, x, id);
      OthersKeepDanglingBehind(h[0], h[1..], at - 1, x, id);
    }
  }

  lemma OthersKeepDanglingBehind(m: Message, t: seq<Message>, at: nat, x: Message, id: string)
    requires Boundary(t, at) && IsResultFor(x, id)
    requires Except(Dangling(Insert(t, at, x)), id) == Except(Dangling(t), id)
    ensures Except(Dangling(Insert([m] + t, at + 1, x)), id) == Except(Dangling([m] + t), id)
  {
    var t' := Insert(t, at, x);
    RunAfterInsert(t, at, x);
    InsertOneInFront(m, t, at, x);
    ExceptOneInFront(m, t, id);
    ExceptOneInFront(m, t', id);
    OthersKeepPending(m, t, t', id);
  }

  lemma ExceptOneInFront(m: Message, t: seq<Message>, id: string)
    ensures Except(Dangling([m] + t), id) == Except(Pending(m, t), id) + Except(Dangling(t), id)
  {
    OneInFront(m, t);
    ExceptJoin(Pending(m, t), Dangling(t), id);
  }

  lemma OthersKeepPending(m: Message, t: seq<Message>, t': seq<Message>, id: string)
    requires Resolved(t') == Resolved(t) || Resolved(t') == Resolved(t) + {id}
    ensures Except(Pending(m, t'), id) == Except(Pending(m, t), id)
  {
    if m.toolCalls.Some? {
      ExceptUnanswered(m.toolCalls.value, Resolved(t), id);
    }
  }

  /** How often `id` is declared. */
  function Count(calls: seq<ToolCall>, id: string): nat {
    if calls == [] then 0 else (if calls[0].id == id then 1 else 0) + Count(calls[1..], id)
  }

  function Declarations(h: seq<Message>, id: string): nat {
    if h == [] then 0
    else (if h[0].toolCalls.Some? then Count(h[0].toolCalls.value, id) else 0) + Declarations(h[1..], id)
  }

  lemma {:induction false} CountJoin(xs: seq<ToolCall>, ys: seq<ToolCall>, id: string)
    ensures Count(xs + ys, id) == Count(xs, id) + Count(ys, id)
  {
    if xs == [] {
      assert xs + ys == ys;
    } else {
      assert (xs + ys)[1..] == xs[1..] + ys;
      CountJoin(xs[1..], ys, id);
    }
  }

  lemma {:induction false} CountUnanswered(calls: seq<ToolCall>, resolved: set<string>, id: string)
    ensures Count(Unanswered(calls, resolved), id) == if id in resolved then 0 else Count(calls, id)
  {
    if calls != [] {
      CountUnanswered(calls[1..], resolved, id);
      CountJoin(if calls[0].id in resolved then [] else [calls[0]], Unanswered(calls[1..], resolved), id);
    }
  }

  lemma {:induction false} CountFound(calls: seq<ToolCall>, id: string)
    ensures FindCall(calls, id).Some? <==> Count(calls, id) > 0
  {
    if calls != [] {
      CountFound(calls[1..], id);
    }
  }

  lemma {:induction false} DanglingAtMostDeclared(h: seq<Message>, id: string)
    ensures Count(Dangling(h), id) <= Declarations(h, id)
  {
    if h != [] {
      DanglingAtMostDeclared(h[1..], id);
      CountJoin(Pending(h[0], h[1..]), Dangling(h[1..]), id);
      if h[0].toolCalls.Some? {
        CountUnanswered(h[0].toolCalls.value, Resolved(h[1..]), id);
      }
    }
  }

  lemma {:induction false} DeclarationsAfterInsert(h: seq<Message>, at: nat, x: Message, id: string)
    requires at <= |h| && x.toolCalls.None?
    ensures Declarations(Insert(h, at, x), id) == Declarations(h, id)
  {
    if at == 0 {
      assert Insert(h, 0, x) == [x] + h;
      assert ([x] + h)[1..] == h;
    } else {
      assert h == [h[0]] + h[1..];
      InsertOneInFront(h[0], h[1..], at - 1, x);
      DeclarationsAfterInsert(h[1..], at - 1, x, id);
      assert ([h[0]] + Insert(h[1..], at - 1, x))[1..] == Insert(h[1..], at - 1, x);
    }
  }

  lemma CountOneInFront(m: Message, t: seq<Message>, id: string)
    ensures Count(Dangling([m] + t), id) == Count(Pending(m, t), id) + Count(Dangling(t), id)
    ensures Declarations([m] + t, id) == (if m.toolCalls.Some? then Count(m.toolCalls.value, id) else 0) + Declarations(t, id)
  {
    OneInFront(m, t);
    assert ([m] + t)[1..] == t;
    CountJoin(Pending(m, t), Dangling(t), id);
  }

  lemma PendingCount(m: Message, t: seq<Message>, id: string)
    ensures Count(Pending(m, t), id)
         == if m.toolCalls.Some? && id !in Resolved(t) then Count(m.toolCalls.value, id) else 0
  {
    if m.toolCalls.Some? {
      CountUnanswered(m.toolCalls.value, Resolved(t), id);
    }
  }

  /** A call declared once and open dangles once, and no longer once it is answered. */
  ghost predicate StopsDangling(h: seq<Message>, id: string, x: Message)
    requires Lookup(h, id).Open?
  {
    && Count(Dangling(h), id) == 1
    && Count(Dangling(Insert(h, Lookup(h, id).at, x)), id) == 0
  }

  lemma StopsDanglingHere(m: Message, t: seq<Message>, id: string, x: Message)
    requires Lookup([m] + t, id).Open? && IsResultFor(x, id) && Declarations([m] + t, id) == 1
    requires m.toolCalls.Some? && FindCall(m.toolCalls.value, id).Some?
    ensures StopsDangling([m] + t, id, x)
  {
    var run := ResultRun(t);
    var t' := Insert(t, run, x);
    LookupOneInFront(m, t, id);
    InsertOneInFront(m, t, run, x);
    RunAfterInsert(t, run, x);
    DeclaredOnlyHere(m, t, id);
    DeclarationsAfterInsert(t, run, x, id);
    OnlyPendingHere(m, t, id);
    OnlyPendingHere(m, t', id);
    StopsDanglingIf([m] + t, id, x, [m] + t');
  }

  lemma DeclaredOnlyHere(m: Message, t: seq<Message>, id: string)
    requires Declarations([m] + t, id) == 1
    requires m.toolCalls.Some? && FindCall(m.toolCalls.value, id).Some?
    ensures Count(m.toolCalls.value, id) == 1 && Declarations(t, id) == 0
  {
    CountFound(m.toolCalls.value, id);
    CountOneInFront(m, t, id);
  }

  lemma StopsDanglingIf(h: seq<Message>, id: string, x: Message, after: seq<Message>)
    requires Lookup(h, id).Open? && after == Insert(h, Lookup(h, id).at, x)
    requires Count(Dangling(h), id) == 1 && Count(Dangling(after), id) == 0
    ensures StopsDangling(h, id, x)
  {
  }

  /** A call declared nowhere further back dangles exactly if its own message's results lack it. */
  lemma OnlyPendingHere(m: Message, t: seq<Message>, id: string)
    requires m.toolCalls.Some? && Declarations(t, id) == 0
    ensures Count(Dangling([m] + t), id) == if id in Resolved(t) then 0 else Count(m.toolCalls.value, id)
  {
    CountOneInFront(m, t, id);
    PendingCount(m, t, id);
    DanglingAtMostDeclared(t, id);
  }

  lemma NoCountBehind(m: Message, t: seq<Message>, id: string)
    requires m.toolCalls.None? || FindCall(m.toolCalls.value, id).None?
    ensures Count(Dangling([m] + t), id) == Count(Dangling(t), id)
  {
    CountOneInFront(m, t, id);
    PendingCount(m, t, id);
    if m.toolCalls.Some? {
      CountFound(m.toolCalls.value, id);
    }
  }

  lemma StopsDanglingBehind(m: Message, t: seq<Message>, id: string, x: Message)
    requires Lookup([m] + t, id).Open? && IsResultFor(x, id)
    requires m.toolCalls.None? || FindCall(m.toolCalls.value, id).None?
    requires Lookup(t, id).Open? && StopsDangling(t, id, x)
    ensures StopsDangling([m] + t, id, x)
  {
    var at := Lookup(t, id).at;
    LookupOneInFront(m, t, id);
    InsertOneInFront(m, t, at, x);
    NoCountBehind(m, t, id);
    NoCountBehind(m, Insert(t, at, x), id);
    StopsDanglingIf([m] + t, id, x, [m] + Insert(t, at, x));
  }

  lemma {:induction false} AnsweredNoLongerDangles(h: seq<Message>, id: string, x: Message)
    requires Lookup(h, id).Open? && IsResultFor(x, id) && Declarations(h, id) == 1
    ensures StopsDangling(h, id, x)
  {
    var m, t := h[0], h[1..];
    assert h == [m] + t;
    if m.toolCalls.Some? && FindCall(m.toolCalls.value, id).Some? {
      StopsDanglingHere(m, t, id, x);
    } else {
      LookupOneInFront(m, t, id);
      if m.toolCalls.Some? {
        CountFound(m.toolCalls.value, id);
      }
      AnsweredNoLongerDangles(t, id, x);
      StopsDanglingBehind(m, t, id, x);
    }
  }

  lemma {:induction false} ExceptAbsent(calls: seq<ToolCall>, id: string)
    ensures |Except(calls, id)| == |calls| - Count(calls, id)
    ensures Count(calls, id) == 0 ==> Except(calls, id) == calls
  {
    if calls != [] {
      ExceptAbsent(calls[1..], id);
    }
  }

  /** With ids declared once, a late answer takes exactly its call off the dangling list. */
  lemma LateAnswerRemovesExactlyItsCall(h: seq<Message>, id: string, content: string)
    requires LateResult(h, id, content).Ok? && Declarations(h, id) == 1
    ensures Dangling(AnsweredLate(h, id, content)) == Except(Dangling(h), id)
    ensures |Dangling(AnsweredLate(h, id, content))| + 1 == |Dangling(h)|
  {
    var x := SyntheticToolMessage(id, Lookup(h, id).tool, content);
    AnsweredNoLongerDangles(h, id, x);
    OthersKeepDangling(h, Lookup(h, id).at, x, id);
    ExceptAbsent(Dangling(AnsweredLate(h, id, content)), id);
    ExceptAbsent(Dangling(h), id);
  }

  // ---- late answers and repair ----

  /** Only a dangling call can be answered late. */
  lemma {:induction false} OpenMeansDangling(h: seq<Message>, id: string)
    requires Lookup(h, id).Open?
    ensures Count(Dangling(h), id) > 0
  {
    var m, t := h[0], h[1..];
    assert h == [m] + t;
    LookupOneInFront(m, t, id);
    CountOneInFront(m, t, id);
    if m.toolCalls.Some? && FindCall(m.toolCalls.value, id).Some? {
      CountFound(m.toolCalls.value, id);
      CountUnanswered(m.toolCalls.value, Resolved(t), id);
    } else {
      OpenMeansDangling(t, id);
    }
  }

  /** Once a history has been repaired, every late answer is refused. */
  lemma RepairShutsOutLateAnswers(h: seq<Message>, closure: Closure, id: string, content: string)
    ensures LateResult(Repaired(h, closure), id, content).Err?
    ensures AnsweredLate(Repaired(h, closure), id, content) == Repaired(h, closure)
  {
    RepairLeavesNothingDangling(h, closure);
    if Lookup(Repaired(h, closure), id).Open? {
      OpenMeansDangling(Repaired(h, closure), id);
    }
  }
}
