/**
  What the history surgery writes and finds (crates/openslate-core/src/ask_user.rs, runtime.rs), field by field and
  position by position.
 */
module HistoryLaws {
  import opened Wrappers
  import opened AskUser
  import opened LateAnswers
  import opened TurnLaws

  // ---- what a result made here says ----

  /** A plain result: it answers `id` for the tool `name` with `content`, and carries nothing else. */
  predicate IsPlainResult(m: Message, id: string, name: string, content: string) {
    && m.role == Tool
    && m.content == content
    && m.toolCallId == Some(id)
    && m.name == Some(name)
    && m.toolCalls == None && m.reasoning == None && m.attachments == None
  }

  /** A closing says that the question was superseded or expired; of any other tool, that it was interrupted. */
  predicate IsClosing(m: Message, call: ToolCall, closure: Closure) {
    IsPlainResult(m, call.id, call.name,
                  if call.name != ASK_USER_TOOL then INTERRUPTED_RESULT
                  else if closure == Superseded then SUPERSEDED_RESULT
                  else EXPIRED_RESULT)
  }

  /** One closing for every call, in order. */
  predicate AreClosings(answers: seq<Message>, calls: seq<ToolCall>, closure: Closure) {
    |answers| == |calls| && forall i :: 0 <= i < |calls| ==> IsClosing(answers[i], calls[i], closure)
  }

  lemma ClosingsSay(calls: seq<ToolCall>, closure: Closure)
    ensures AreClosings(ClosingAll(calls, closure), calls, closure)
  {
  }

  // ---- what a lookup finds ----

  /** `name` is the tool of the first call with this id. */
  predicate FirstNamed(calls: seq<ToolCall>, id: string, name: string) {
    exists k :: 0 <= k < |calls| && calls[k] == ToolCall(id, name) && forall j :: 0 <= j < k ==> calls[j].id != id
  }

  predicate Names(calls: seq<ToolCall>, id: string) {
    exists k :: 0 <= k < |calls| && calls[k].id == id
  }

  lemma {:induction false} FindCallMeans(calls: seq<ToolCall>, id: string)
    ensures FindCall(calls, id).Some? <==> Names(calls, id)
    ensures FindCall(calls, id).Some? ==>
              FindCall(calls, id).value.id == id && FirstNamed(calls, id, FindCall(calls, id).value.name)
  {
    if calls != [] {
      FindCallMeans(calls[1..], id);
      NamesOneInFront(calls[0], calls[1..], id);
      assert calls == [calls[0]] + calls[1..];
      if calls[0].id != id && FindCall(calls[1..], id).Some? {
        FirstNamedBehind(calls[0], calls[1..], id, FindCall(calls[1..], id).value.name);
      }
    }
  }

  lemma NamesOneInFront(c: ToolCall, rest: seq<ToolCall>, id: string)
    ensures Names([c] + rest, id) <==> c.id == id || Names(rest, id)
  {
    if c.id == id {
      assert ([c] + rest)[0].id == id;
    }
    if Names(rest, id) {
      var k :| 0 <= k < |rest| && rest[k].id == id;
      assert ([c] + rest)[k + 1].id == id;
    }
  }

  lemma FirstNamedBehind(c: ToolCall, rest: seq<ToolCall>, id: string, name: string)
    requires c.id != id && FirstNamed(rest, id, name)
    ensures FirstNamed([c] + rest, id, name)
  {
    var k :| 0 <= k < |rest| && rest[k] == ToolCall(id, name) && forall j :: 0 <= j < k ==> rest[j].id != id;
    var calls := [c] + rest;
    assert calls[k + 1] == ToolCall(id, name);
    forall j | 0 <= j < k + 1 ensures calls[j].id != id {
      assert j > 0 ==> calls[j] == rest[j - 1];
    }
  }

  /** Message `i` declares a call with this id. */
  predicate DeclaresAt(h: seq<Message>, i: nat, id: string) {
    i < |h| && h[i].toolCalls.Some? && Names(h[i].toolCalls.value, id)
  }

  /** Up to message `i` no run holds a result for `id`, and message `i` is the first to declare it. */
  ghost predicate OpenFor(h: seq<Message>, i: nat, id: string) {
    && DeclaresAt(h, i, id)
    && (forall j: nat :: j <= i ==> !AnswersAt(h, j, id))
    && (forall j: nat :: j < i ==> !DeclaresAt(h, j, id))
  }

  /** The run of message `j` holds a result for `id`, and no message before `j` declares it. */
  ghost predicate AnsweredFirst(h: seq<Message>, j: nat, id: string) {
    AnswersAt(h, j, id) && forall i: nat :: i < j ==> !DeclaresAt(h, i, id)
  }

  /** What a lookup says, with the message it stops at. */
  ghost predicate SpotFits(h: seq<Message>, id: string, i: nat, spot: Spot) {
    match spot
    case Open(at, tool) =>
      OpenFor(h, i, id) && at == i + 1 + ResultRun(h[i + 1..]) && FirstNamed(h[i].toolCalls.value, id, tool)
    case Answered => AnsweredFirst(h, i, id) && forall j: nat :: j < i ==> !AnswersAt(h, j, id)
    case Missing => forall j: nat :: !AnswersAt(h, j, id) && !DeclaresAt(h, j, id)
  }

  lemma DeclaresBehind(m: Message, t: seq<Message>, i: nat, id: string)
    ensures DeclaresAt([m] + t, i + 1, id) <==> DeclaresAt(t, i, id)
  {
    if i < |t| {
      assert ([m] + t)[i + 1] == t[i];
    }
  }

  lemma DeclaresInFront(m: Message, t: seq<Message>, id: string)
    ensures DeclaresAt([m] + t, 0, id) <==> m.toolCalls.Some? && FindCall(m.toolCalls.value, id).Some?
    ensures AnswersAt([m] + t, 0, id) <==> m.toolCalls.Some? && id in Resolved(t)
  {
    AtFront(m, t);
    if m.toolCalls.Some? {
      FindCallMeans(m.toolCalls.value, id);
    }
  }

  lemma SpotFitsHere(m: Message, t: seq<Message>, id: string, spot: Spot)
    requires AnswersAt([m] + t, 0, id) || DeclaresAt([m] + t, 0, id)
    requires spot == Lookup([m] + t, id)
    ensures SpotFits([m] + t, id, 0, spot)
  {
    DeclaresInFront(m, t, id);
    LookupOneInFront(m, t, id);
    assert ([m] + t)[1..] == t;
    if m.toolCalls.Some? {
      FindCallMeans(m.toolCalls.value, id);
    }
  }

  lemma SpotFitsBehind(m: Message, t: seq<Message>, id: string, i: nat, spot: Spot)
    requires !AnswersAt([m] + t, 0, id) && !DeclaresAt([m] + t, 0, id) && SpotFits(t, id, i, spot)
    ensures SpotFits([m] + t, id, i + 1, if spot.Open? then Open(spot.at + 1, spot.tool) else spot)
  {
    forall j: nat | j > 0
      ensures AnswersAt([m] + t, j, id) <==> AnswersAt(t, j - 1, id)
      ensures DeclaresAt([m] + t, j, id) <==> DeclaresAt(t, j - 1, id)
    {
      AnswersBehind(m, t, j - 1, id);
      DeclaresBehind(m, t, j - 1, id);
    }
    if spot.Open? {
      assert ([m] + t)[i + 1] == t[i] && ([m] + t)[i + 2..] == t[i + 1..];
    }
  }

  lemma {:induction false} LookupFits(h: seq<Message>, id: string) returns (i: nat)
    ensures SpotFits(h, id, i, Lookup(h, id))
  {
    if h == [] {
      i := 0;
    } else {
      FirstAndRest(h);
      DeclaresInFront(h[0], h[1..], id);
      if AnswersAt(h, 0, id) || DeclaresAt(h, 0, id) {
        i := 0;
        SpotFitsHere(h[0], h[1..], id, Lookup(h, id));
      } else {
        i := LookupFits(h[1..], id);
        SpotFitsBehind(h[0], h[1..], id, i, Lookup(h[1..], id));
        LookupOneInFront(h[0], h[1..], id);
        i := i + 1;
      }
    }
  }

  /** For every history, duplicate ids included: a call is open exactly if some message is the first to declare it and no
      run up to that message's own holds a result for it; it counts as answered exactly if some run holds a result and no
      message before that run's declares it; and it is not found exactly if it is neither declared nor answered. */
  lemma LookupMeans(h: seq<Message>, id: string)
    ensures Lookup(h, id).Open? <==> exists i: nat :: OpenFor(h, i, id)
    ensures Lookup(h, id).Answered? <==> exists j: nat :: AnsweredFirst(h, j, id)
    ensures Lookup(h, id).Missing? <==> forall j: nat :: !AnswersAt(h, j, id) && !DeclaresAt(h, j, id)
  {
    var i := LookupFits(h, id);
    match Lookup(h, id) {
      case Open(_, _) =>
        assert OpenFor(h, i, id);
        forall j: nat ensures !AnsweredFirst(h, j, id) {
        }
        assert DeclaresAt(h, i, id);
      case Answered =>
        assert AnsweredFirst(h, i, id);
        forall j: nat ensures !OpenFor(h, j, id) {
        }
        assert AnswersAt(h, i, id);
      case Missing =>
    }
  }

  /** What a late answer does: if the call is open, a plain result with the answer, for the tool the call names, goes to
      the end of the run behind the declaring message; otherwise nothing, and the error says which it was. */
  ghost predicate LateAnswerFits(h: seq<Message>, id: string, content: string, r: Result<Message, AskUserError>,
                                 after: seq<Message>) {
    match r
    case Ok(m) =>
      exists i: nat, name ::
        && OpenFor(h, i, id) && FirstNamed(h[i].toolCalls.value, id, name) && IsPlainResult(m, id, name, content)
        && i + 1 + ResultRun(h[i + 1..]) <= |h|
        && after == Insert(h, i + 1 + ResultRun(h[i + 1..]), m)
    case Err(AlreadyAnswered(answered)) => answered == id && after == h && exists j: nat :: AnsweredFirst(h, j, id)
    case Err(ToolCallNotFound(missing)) =>
      missing == id && after == h && forall j: nat :: !AnswersAt(h, j, id) && !DeclaresAt(h, j, id)
  }

  lemma LateAnswerIsFit(h: seq<Message>, id: string, content: string)
    ensures LateAnswerFits(h, id, content, LateResult(h, id, content), AnsweredLate(h, id, content))
  {
    var i := LookupFits(h, id);
    LookupMeans(h, id);
    match Lookup(h, id) {
      case Open(at, tool) => OpenAnswerFits(h, i, id, content, at, tool);
      case _ =>
    }
  }

  lemma OpenAnswerFits(h: seq<Message>, i: nat, id: string, content: string, at: nat, tool: string)
    requires SpotFits(h, id, i, Open(at, tool)) && at <= |h|
    ensures var m := SyntheticToolMessage(id, tool, content);
            LateAnswerFits(h, id, content, Ok(m), Insert(h, at, m))
  {
    assert IsPlainResult(SyntheticToolMessage(id, tool, content), id, tool, content);
  }

  // ---- the order of dangling calls ----

  /** All calls of a history, in the order of their declaration. */
  function Declared(h: seq<Message>): seq<ToolCall> {
    if h == [] then []
    else (if h[0].toolCalls.Some? then h[0].toolCalls.value else []) + Declared(h[1..])
  }

  lemma {:induction false} InterleavesJoin<T>(w: seq<T>, k: seq<T>, a: seq<T>, w': seq<T>, k': seq<T>, a': seq<T>)
    requires Interleaves(w, k, a) && Interleaves(w', k', a')
    ensures Interleaves(w + w', k + k', a + a')
  {
    if w == [] {
      assert w + w' == w' && k + k' == k' && a + a' == a';
    } else if k != [] && w[0] == k[0] && Interleaves(w[1..], k[1..], a) {
      InterleavesJoin(w[1..], k[1..], a, w', k', a');
      KeptInFront(w[0], w[1..] + w', k[1..] + k', a + a');
      assert [w[0]] + (w[1..] + w') == w + w' && [w[0]] + (k[1..] + k') == k + k';
    } else {
      InterleavesJoin(w[1..], k, a[1..], w', k', a');
      AddedInFront([w[0]], w[1..] + w', k + k', a[1..] + a');
      assert [w[0]] + (w[1..] + w') == w + w' && [w[0]] + (a[1..] + a') == a + a';
    }
  }

  lemma {:induction false} UnansweredKeepsOrder(calls: seq<ToolCall>, resolved: set<string>) returns (others: seq<ToolCall>)
    ensures Interleaves(calls, Unanswered(calls, resolved), others)
  {
    others := [];
    if calls != [] {
      var rest := UnansweredKeepsOrder(calls[1..], resolved);
      var open := Unanswered(calls[1..], resolved);
      if calls[0].id in resolved {
        others := [calls[0]] + rest;
        AddedInFront([calls[0]], calls[1..], open, rest);
        assert [] + open == open;
      } else {
        others := rest;
        KeptInFront(calls[0], calls[1..], open, rest);
      }
      assert calls == [calls[0]] + calls[1..];
    }
  }

  /** The dangling calls keep the order of their declaration. */
  lemma {:induction false} DanglingKeepsOrder(h: seq<Message>) returns (others: seq<ToolCall>)
    ensures Interleaves(Declared(h), Dangling(h), others)
  {
    others := [];
    if h != [] {
      var rest := DanglingKeepsOrder(h[1..]);
      var own := [];
      if h[0].toolCalls.Some? {
        own := UnansweredKeepsOrder(h[0].toolCalls.value, Resolved(h[1..]));
      }
      var calls := if h[0].toolCalls.Some? then h[0].toolCalls.value else [];
      InterleavesJoin(calls, Pending(h[0], h[1..]), own, Declared(h[1..]), Dangling(h[1..]), rest);
      others := own + rest;
    }
  }

  /** And they are exactly those that have no result in the run behind their own message. */
  lemma {:induction false} DanglingMeans(h: seq<Message>, c: ToolCall)
    ensures c in Dangling(h) <==>
              exists i: nat :: i < |h| && h[i].toolCalls.Some? && c in h[i].toolCalls.value && c.id !in ResolvedAt(h, i)
  {
    if h != [] {
      var m, t := h[0], h[1..];
      FirstAndRest(h);
      DanglingMeans(t, c);
      OneInFront(m, t);
      AtFront(m, t);
      if i: nat :| i < |t| && t[i].toolCalls.Some? && c in t[i].toolCalls.value && c.id !in ResolvedAt(t, i) {
        AtOneInFront(m, t, i);
        assert h[i + 1] == t[i] && c.id !in ResolvedAt(h, i + 1);
      }
      if i: nat :| i < |h| && h[i].toolCalls.Some? && c in h[i].toolCalls.value && c.id !in ResolvedAt(h, i) {
        if i > 0 {
          AtOneInFront(m, t, i - 1);
          assert t[i - 1] == h[i];
        }
      }
    }
  }

  // ---- what a batch leaves ----

  /** The result of a call: its own output if it has one, otherwise the note that it was cancelled. */
  predicate IsResultOf(m: Message, call: ToolCall, slot: Slot) {
    && m.role == Tool && m.toolCallId == Some(call.id) && m.name == Some(call.name)
    && m.toolCalls == None && m.reasoning == None
    && m.content == (if slot.Some? then slot.value.content else CANCELLED_RESULT)
    && m.attachments == (if slot.Some? then slot.value.attachments else None)
  }

  /** The places from `from` on whose calls are not left open. */
  function ClosedPlaces(calls: seq<ToolCall>, slots: seq<Slot>, from: nat): (places: seq<nat>)
    requires from <= |calls| == |slots|
    ensures forall k :: 0 <= k < |places| ==> from <= places[k] < |calls|
    ensures forall k, l :: 0 <= k < l < |places| ==> places[k] < places[l]
    ensures forall i :: from <= i < |calls| ==> (i in places <==> slots[i].Some? || calls[i].name != ASK_USER_TOOL)
    decreases |calls| - from
  {
    if from == |calls| then []
    else
      var rest := ClosedPlaces(calls, slots, from + 1);
      if slots[from].Some? || calls[from].name != ASK_USER_TOOL then [from] + rest else rest
  }

  /** A batch leaves one result for every call that is not left open, in the order of the calls. */
  ghost predicate BatchFits(calls: seq<ToolCall>, slots: seq<Slot>, from: nat, results: seq<Message>)
    requires from <= |calls| == |slots|
  {
    PlacesFit(calls, slots, ClosedPlaces(calls, slots, from), results)
  }

  lemma OneResult(call: ToolCall, slot: Slot)
    ensures ResultOf(call, slot) == [] <==> LeftOpen(call, slot)
    ensures !LeftOpen(call, slot) ==> |ResultOf(call, slot)| == 1 && IsResultOf(ResultOf(call, slot)[0], call, slot)
  {
  }

  /** The results stand for the calls at these places. */
  predicate PlacesFit(calls: seq<ToolCall>, slots: seq<Slot>, places: seq<nat>, results: seq<Message>)
    requires |calls| == |slots| && forall k :: 0 <= k < |places| ==> places[k] < |calls|
  {
    |results| == |places| && forall k :: 0 <= k < |places| ==> IsResultOf(results[k], calls[places[k]], slots[places[k]])
  }

  lemma PlacesFitWithFirst(calls: seq<ToolCall>, slots: seq<Slot>, from: nat, later: seq<nat>, own: Message,
                           rest: seq<Message>)
    requires from < |calls| == |slots| && forall k :: 0 <= k < |later| ==> later[k] < |calls|
    requires PlacesFit(calls, slots, later, rest) && IsResultOf(own, calls[from], slots[from])
    ensures PlacesFit(calls, slots, [from] + later, [own] + rest)
  {
    var places, results := [from] + later, [own] + rest;
    forall k | 0 < k < |places| ensures IsResultOf(results[k], calls[places[k]], slots[places[k]]) {
      assert results[k] == rest[k - 1] && places[k] == later[k - 1];
    }
  }

  lemma PlacesStep(calls: seq<ToolCall>, slots: seq<Slot>, from: nat)
    requires from < |calls| == |slots|
    ensures ClosedPlaces(calls, slots, from) ==
            (if LeftOpen(calls[from], slots[from]) then [] else [from]) + ClosedPlaces(calls, slots, from + 1)
  {
  }

  lemma NoResultInFront(calls: seq<ToolCall>, slots: seq<Slot>, later: seq<nat>, rest: seq<Message>)
    requires |calls| == |slots| && forall k :: 0 <= k < |later| ==> later[k] < |calls|
    requires PlacesFit(calls, slots, later, rest)
    ensures PlacesFit(calls, slots, [] + later, [] + rest)
  {
    assert [] + later == later && [] + rest == rest;
  }

  lemma OpenCallFits(calls: seq<ToolCall>, slots: seq<Slot>, from: nat, rest: seq<Message>)
    requires from < |calls| == |slots| && LeftOpen(calls[from], slots[from]) && BatchFits(calls, slots, from + 1, rest)
    ensures BatchFits(calls, slots, from, [] + rest)
  {
    PlacesStep(calls, slots, from);
    NoResultInFront(calls, slots, ClosedPlaces(calls, slots, from + 1), rest);
  }

  lemma ClosedCallFits(calls: seq<ToolCall>, slots: seq<Slot>, from: nat, own: Message, rest: seq<Message>)
    requires from < |calls| == |slots| && !LeftOpen(calls[from], slots[from]) && IsResultOf(own, calls[from], slots[from])
    requires BatchFits(calls, slots, from + 1, rest)
    ensures BatchFits(calls, slots, from, [own] + rest)
  {
    PlacesStep(calls, slots, from);
    PlacesFitWithFirst(calls, slots, from, ClosedPlaces(calls, slots, from + 1), own, rest);
  }

  lemma {:induction false} DrainedFits(calls: seq<ToolCall>, slots: seq<Slot>, from: nat)
    requires from <= |calls| == |slots|
    ensures BatchFits(calls, slots, from, Drained(calls, slots, from))
    decreases |calls| - from
  {
    if from < |calls| {
      var own, rest := ResultOf(calls[from], slots[from]), Drained(calls, slots, from + 1);
      DrainedFits(calls, slots, from + 1);
      OneResult(calls[from], slots[from]);
      if own == [] {
        OpenCallFits(calls, slots, from, rest);
      } else {
        ClosedCallFits(calls, slots, from, own[0], rest);
        assert own == [own[0]];
      }
    }
  }
}
