/**
  Merging what several sources say about a model (crates/openslate-core/src/model_registry.rs): a stable sort by
  source priority, then a fold that fills empty fields.

  `IsBest` says for one field, without sorting or folding, whose value must come out.
 */
module ModelRegistry {
  import opened Wrappers
  import opened AsciiCase

  datatype ModelMeta = ModelMeta(
    displayName: Option<string>,
    contextTokens: Option<nat>,
    maxOutputTokens: Option<nat>,
    supportsVision: Option<bool>,
    supportsReasoning: Option<bool>,
    supportsToolCall: Option<bool>,
    inputPrice: Option<real>,
    outputPrice: Option<real>,
    source: Option<string>)

  const EMPTY := ModelMeta(None, None, None, None, None, None, None, None, None)

  /** The display names of the sources, best first. */
  const SOURCES: seq<string> := ["models.dev", "LiteLLM", "CloudPrice"]

  /** Unknown or missing sources come last. */
  function SourcePriority(source: Option<string>): nat {
    if source.None? then |SOURCES| else PositionFrom(source.value, 0)
  }

  function PositionFrom(name: string, i: nat): (at: nat)
    requires i <= |SOURCES|
    ensures i <= at <= |SOURCES|
    ensures at < |SOURCES| ==> EqIgnoreCase(SOURCES[at], name)
    ensures forall j :: i <= j < at ==> !EqIgnoreCase(SOURCES[j], name)
    decreases |SOURCES| - i
  {
    if i == |SOURCES| || EqIgnoreCase(SOURCES[i], name) then i else PositionFrom(name, i + 1)
  }

  /** The three sources differ in any case. */
  lemma SourcesDiffer(name: string)
    ensures !(EqIgnoreCase("models.dev", name) && EqIgnoreCase("LiteLLM", name))
    ensures !(EqIgnoreCase("models.dev", name) && EqIgnoreCase("CloudPrice", name))
    ensures !(EqIgnoreCase("LiteLLM", name) && EqIgnoreCase("CloudPrice", name))
  {
    assert |Lowered("models.dev")| == 10 && |Lowered("LiteLLM")| == 7 && |Lowered("CloudPrice")| == 10;
    assert Lowered("models.dev")[0] == 'm' && Lowered("CloudPrice")[0] == 'c';
  }

  /** models.dev comes before LiteLLM, LiteLLM before CloudPrice, and these, in any case, before everything else. */
  lemma SourcesInOrder(source: Option<string>)
    ensures source.Some? && EqIgnoreCase("models.dev", source.value) <==> SourcePriority(source) == 0
    ensures source.Some? && EqIgnoreCase("LiteLLM", source.value) <==> SourcePriority(source) == 1
    ensures source.Some? && EqIgnoreCase("CloudPrice", source.value) <==> SourcePriority(source) == 2
    ensures SourcePriority(source) <= 3
  {
    if source.Some? {
      SourcesDiffer(source.value);
      assert SOURCES[0] == "models.dev" && SOURCES[1] == "LiteLLM" && SOURCES[2] == "CloudPrice";
    }
  }

  function Priority(m: ModelMeta): nat {
    SourcePriority(m.source)
  }

  // ---- filling empty fields ----

  function Or<T>(a: Option<T>, b: Option<T>): Option<T> {
    if a.None? then b else a
  }

  function Filled(a: ModelMeta, b: ModelMeta): ModelMeta {
    ModelMeta(Or(a.displayName, b.displayName), Or(a.contextTokens, b.contextTokens),
              Or(a.maxOutputTokens, b.maxOutputTokens), Or(a.supportsVision, b.supportsVision),
              Or(a.supportsReasoning, b.supportsReasoning), Or(a.supportsToolCall, b.supportsToolCall),
              Or(a.inputPrice, b.inputPrice), Or(a.outputPrice, b.outputPrice), Or(a.source, b.source))
  }

  /** Filling is associative, and the empty record changes nothing on either side. */
  lemma FilledIsAMonoid(a: ModelMeta, b: ModelMeta, c: ModelMeta)
    ensures Filled(Filled(a, b), c) == Filled(a, Filled(b, c))
    ensures Filled(EMPTY, a) == a && Filled(a, EMPTY) == a
  {
  }

  datatype Field =
    | DisplayName | ContextTokens | MaxOutputTokens | SupportsVision | SupportsReasoning | SupportsToolCall
    | InputPrice | OutputPrice | Source

  datatype Value = Text(text: string) | Count(count: nat) | Flag(flag: bool) | Price(price: real)

  function Lift<T>(o: Option<T>, f: T -> Value): Option<Value> {
    if o.None? then None else Some(f(o.value))
  }

  function Get(m: ModelMeta, field: Field): Option<Value> {
    match field
    case DisplayName => Lift(m.displayName, s => Text(s))
    case ContextTokens => Lift(m.contextTokens, n => Count(n))
    case MaxOutputTokens => Lift(m.maxOutputTokens, n => Count(n))
    case SupportsVision => Lift(m.supportsVision, b => Flag(b))
    case SupportsReasoning => Lift(m.supportsReasoning, b => Flag(b))
    case SupportsToolCall => Lift(m.supportsToolCall, b => Flag(b))
    case InputPrice => Lift(m.inputPrice, r => Price(r))
    case OutputPrice => Lift(m.outputPrice, r => Price(r))
    case Source => Lift(m.source, s => Text(s))
  }

  lemma GetFilled(a: ModelMeta, b: ModelMeta, field: Field)
    ensures Get(Filled(a, b), field) == Or(Get(a, field), Get(b, field))
  {
  }

  lemma SameFieldsSameRecord(a: ModelMeta, b: ModelMeta)
    requires forall field :: Get(a, field) == Get(b, field)
    ensures a == b
  {
    assert Get(a, DisplayName) == Get(b, DisplayName);
    assert Get(a, ContextTokens) == Get(b, ContextTokens);
    assert Get(a, MaxOutputTokens) == Get(b, MaxOutputTokens);
    assert Get(a, SupportsVision) == Get(b, SupportsVision);
    assert Get(a, SupportsReasoning) == Get(b, SupportsReasoning);
    assert Get(a, SupportsToolCall) == Get(b, SupportsToolCall);
    assert Get(a, InputPrice) == Get(b, InputPrice);
    assert Get(a, OutputPrice) == Get(b, OutputPrice);
    assert Get(a, Source) == Get(b, Source);
  }

  // ---- the stable sort ----

  /** `m` goes behind everything of its own priority or a better one. */
  function InsertedByPriority(sorted: seq<ModelMeta>, m: ModelMeta): seq<ModelMeta> {
    if sorted == [] || Priority(sorted[|sorted| - 1]) <= Priority(m) then sorted + [m]
    else InsertedByPriority(sorted[..|sorted| - 1], m) + [sorted[|sorted| - 1]]
  }

  function SortedByPriority(metas: seq<ModelMeta>): seq<ModelMeta> {
    if metas == [] then []
    else InsertedByPriority(SortedByPriority(metas[..|metas| - 1]), metas[|metas| - 1])
  }

  predicate IsSorted(metas: seq<ModelMeta>) {
    forall i, j :: 0 <= i < j < |metas| ==> Priority(metas[i]) <= Priority(metas[j])
  }

  /** The records of one priority, in order. */
  function OfPriority(metas: seq<ModelMeta>, p: nat): seq<ModelMeta> {
    if metas == [] then []
    else OfPriority(metas[..|metas| - 1], p) + (if Priority(metas[|metas| - 1]) == p then [metas[|metas| - 1]] else [])
  }

  lemma SortedWithLast(front: seq<ModelMeta>, last: ModelMeta)
    requires IsSorted(front) && forall x :: x in front ==> Priority(x) <= Priority(last)
    ensures IsSorted(front + [last])
  {
    forall i, j | 0 <= i < j < |front + [last]|
      ensures Priority((front + [last])[i]) <= Priority((front + [last])[j])
    {
      assert front[i] in front;
    }
  }

  lemma SortedUpToLast(sorted: seq<ModelMeta>)
    requires IsSorted(sorted) && sorted != []
    ensures IsSorted(sorted[..|sorted| - 1])
    ensures forall x :: x in sorted ==> Priority(x) <= Priority(sorted[|sorted| - 1])
    ensures forall x :: x in sorted <==> x in sorted[..|sorted| - 1] || x == sorted[|sorted| - 1]
  {
    assert sorted == sorted[..|sorted| - 1] + [sorted[|sorted| - 1]];
  }

  lemma {:induction false} InsertedStaysSorted(sorted: seq<ModelMeta>, m: ModelMeta)
    requires IsSorted(sorted)
    ensures IsSorted(InsertedByPriority(sorted, m))
    ensures forall x :: x in InsertedByPriority(sorted, m) <==> x in sorted || x == m
  {
    if sorted == [] {
    } else {
      SortedUpToLast(sorted);
      var front, last := sorted[..|sorted| - 1], sorted[|sorted| - 1];
      if Priority(last) <= Priority(m) {
        SortedWithLast(sorted, m);
      } else {
        InsertedStaysSorted(front, m);
        SortedWithLast(InsertedByPriority(front, m), last);
      }
    }
  }

  lemma {:induction false} SortKeepsElements(metas: seq<ModelMeta>)
    ensures IsSorted(SortedByPriority(metas))
    ensures forall x :: x in SortedByPriority(metas) <==> x in metas
  {
    if metas != [] {
      var front, last := metas[..|metas| - 1], metas[|metas| - 1];
      SortKeepsElements(front);
      InsertedStaysSorted(SortedByPriority(front), last);
      assert metas == front + [last];
    }
  }

  lemma LastOfPriority(front: seq<ModelMeta>, last: ModelMeta, p: nat)
    ensures OfPriority(front + [last], p) == OfPriority(front, p) + if Priority(last) == p then [last] else []
  {
    assert (front + [last])[..|front|] == front;
  }

  lemma {:induction false} InsertedIsStable(sorted: seq<ModelMeta>, m: ModelMeta, p: nat)
    ensures OfPriority(InsertedByPriority(sorted, m), p)
         == OfPriority(sorted, p) + if Priority(m) == p then [m] else []
  {
    if sorted == [] || Priority(sorted[|sorted| - 1]) <= Priority(m) {
      LastOfPriority(sorted, m, p);
    } else {
      var front, last := sorted[..|sorted| - 1], sorted[|sorted| - 1];
      InsertedIsStable(front, m, p);
      LastOfPriority(InsertedByPriority(front, m), last, p);
    }
  }

  /** The sort orders by priority, and keeps the records of each priority and their order. */
  lemma {:induction false} SortIsStable(metas: seq<ModelMeta>, p: nat)
    ensures IsSorted(SortedByPriority(metas))
    ensures OfPriority(SortedByPriority(metas), p) == OfPriority(metas, p)
  {
    if metas != [] {
      SortIsStable(metas[..|metas| - 1], p);
      InsertedStaysSorted(SortedByPriority(metas[..|metas| - 1]), metas[|metas| - 1]);
      InsertedIsStable(SortedByPriority(metas[..|metas| - 1]), metas[|metas| - 1], p);
    }
  }

  /** Both hold the same records of every priority, in the same order. */
  ghost predicate SameOfEachPriority(a: seq<ModelMeta>, b: seq<ModelMeta>) {
    forall p :: OfPriority(a, p) == OfPriority(b, p)
  }

  lemma {:induction false} OfPriorityMeans(metas: seq<ModelMeta>, p: nat)
    ensures OfPriority(metas, p) != [] <==> exists x :: x in metas && Priority(x) == p
  {
    if metas != [] {
      var front, last := metas[..|metas| - 1], metas[|metas| - 1];
      OfPriorityMeans(front, p);
      assert metas == front + [last];
    }
  }

  lemma SameLastPriority(a: seq<ModelMeta>, b: seq<ModelMeta>)
    requires IsSorted(a) && IsSorted(b) && SameOfEachPriority(a, b) && a != []
    ensures b != [] && Priority(b[|b| - 1]) >= Priority(a[|a| - 1])
  {
    var p := Priority(a[|a| - 1]);
    assert a[|a| - 1] in a;
    OfPriorityMeans(a, p);
    OfPriorityMeans(b, p);
    assert OfPriority(a, p) == OfPriority(b, p);
    var x :| x in b && Priority(x) == p;
    SortedUpToLast(b);
  }

  lemma SameUpToLast<T>(s: seq<T>, x: T, t: seq<T>, y: T)
    requires s + [x] == t + [y]
    ensures s == t && x == y
  {
    assert (s + [x])[|s|] == x && (t + [y])[|t|] == y;
    assert (s + [x])[..|s|] == s && (t + [y])[..|t|] == t;
  }

  lemma OneLessOfPriority(a: seq<ModelMeta>, x: ModelMeta, b: seq<ModelMeta>, y: ModelMeta, p: nat)
    requires OfPriority(a + [x], p) == OfPriority(b + [y], p) && Priority(x) == Priority(y)
    ensures OfPriority(a, p) == OfPriority(b, p) && (p == Priority(x) ==> x == y)
  {
    LastOfPriority(a, x, p);
    LastOfPriority(b, y, p);
    if p == Priority(x) {
      SameUpToLast(OfPriority(a, p), x, OfPriority(b, p), y);
    } else {
      assert OfPriority(a, p) + [] == OfPriority(a, p) && OfPriority(b, p) + [] == OfPriority(b, p);
    }
  }

  lemma SameWithoutLast(a: seq<ModelMeta>, x: ModelMeta, b: seq<ModelMeta>, y: ModelMeta)
    requires SameOfEachPriority(a + [x], b + [y]) && Priority(x) == Priority(y)
    ensures x == y && SameOfEachPriority(a, b)
  {
    forall p ensures OfPriority(a, p) == OfPriority(b, p) {
      assert OfPriority(a + [x], p) == OfPriority(b + [y], p);
      OneLessOfPriority(a, x, b, y, p);
    }
    assert OfPriority(a + [x], Priority(x)) == OfPriority(b + [y], Priority(x));
    OneLessOfPriority(a, x, b, y, Priority(x));
  }

  /** Sorted sequences with the same records of every priority, in the same order, are the same. */
  lemma {:induction false} SortedIsDetermined(a: seq<ModelMeta>, b: seq<ModelMeta>)
    requires IsSorted(a) && IsSorted(b) && SameOfEachPriority(a, b)
    ensures a == b
  {
    if a == [] {
      if b != [] {
        SameLastPriority(b, a);
      }
    } else {
      SameLastPriority(a, b);
      SameLastPriority(b, a);
      SortedUpToLast(a);
      SortedUpToLast(b);
      var x, y := a[|a| - 1], b[|b| - 1];
      assert a == a[..|a| - 1] + [x] && b == b[..|b| - 1] + [y];
      SameWithoutLast(a[..|a| - 1], x, b[..|b| - 1], y);
      SortedIsDetermined(a[..|a| - 1], b[..|b| - 1]);
    }
  }

  /** Every stable sort is this one: whatever is sorted, with the records of each priority in their order of
      arrival, is what the insertion gives. */
  lemma AnyStableSortIsThisOne(metas: seq<ModelMeta>, sorted: seq<ModelMeta>)
    requires IsSorted(sorted) && SameOfEachPriority(sorted, metas)
    ensures sorted == SortedByPriority(metas)
  {
    forall p ensures OfPriority(sorted, p) == OfPriority(SortedByPriority(metas), p) {
      SortIsStable(metas, p);
      assert OfPriority(sorted, p) == OfPriority(metas, p);
    }
    SortIsStable(metas, 0);
    SortedIsDetermined(sorted, SortedByPriority(metas));
  }

  // ---- the merge ----

  function FilledAll(metas: seq<ModelMeta>): ModelMeta {
    if metas == [] then EMPTY else Filled(FilledAll(metas[..|metas| - 1]), metas[|metas| - 1])
  }

  function Merged(metas: seq<ModelMeta>): ModelMeta {
    FilledAll(SortedByPriority(metas))
  }

  /** The record being filled. */
  class Merge {
    var meta: ModelMeta

    constructor ()
      ensures meta == EMPTY
    {
      meta := EMPTY;
    }

    method FillFrom(other: ModelMeta)
      modifies this
      ensures meta == Filled(old(meta), other)
    {
      if meta.displayName.None? { meta := meta.(displayName := other.displayName); }
      if meta.contextTokens.None? { meta := meta.(contextTokens := other.contextTokens); }
      if meta.maxOutputTokens.None? { meta := meta.(maxOutputTokens := other.maxOutputTokens); }
      if meta.supportsVision.None? { meta := meta.(supportsVision := other.supportsVision); }
      if meta.supportsReasoning.None? { meta := meta.(supportsReasoning := other.supportsReasoning); }
      if meta.supportsToolCall.None? { meta := meta.(supportsToolCall := other.supportsToolCall); }
      if meta.inputPrice.None? { meta := meta.(inputPrice := other.inputPrice); }
      if meta.outputPrice.None? { meta := meta.(outputPrice := other.outputPrice); }
      if meta.source.None? { meta := meta.(source := other.source); }
    }
  }

  method MergeMetas(metas: seq<ModelMeta>) returns (merged: ModelMeta)
    ensures merged == Merged(metas)
    ensures forall field :: IsBest(metas, field, Get(merged, field))
  {
    var sorted := SortedByPriority(metas);
    var merge := new Merge();
    for k := 0 to |sorted|
      invariant merge.meta == FilledAll(sorted[..k])
    {
      merge.FillFrom(sorted[k]);
      assert sorted[..k + 1][..k] == sorted[..k];
    }
    assert sorted[..|sorted|] == sorted;
    merged := merge.meta;
    forall field ensures IsBest(metas, field, Get(merged, field)) {
      MergedIsBest(metas, field);
    }
  }

  // ---- what the merge gives ----

  /** Record `i` has the field and none with it is better; a tie goes to the earlier arrival. */
  predicate Wins(metas: seq<ModelMeta>, field: Field, i: nat) {
    && i < |metas| && Get(metas[i], field).Some?
    && forall j :: 0 <= j < |metas| && Get(metas[j], field).Some? ==>
         Priority(metas[i]) < Priority(metas[j]) || (Priority(metas[i]) == Priority(metas[j]) && i <= j)
  }

  predicate IsBest(metas: seq<ModelMeta>, field: Field, value: Option<Value>) {
    match value
    case None => forall j :: 0 <= j < |metas| ==> Get(metas[j], field).None?
    case Some(_) => exists i: nat :: i < |metas| && Wins(metas, field, i) && Get(metas[i], field) == value
  }

  /** The value of the first record that has one. */
  function FirstValue(metas: seq<ModelMeta>, field: Field): Option<Value> {
    if metas == [] then None else Or(FirstValue(metas[..|metas| - 1], field), Get(metas[|metas| - 1], field))
  }

  lemma {:induction false} FilledAllHasFirstValues(metas: seq<ModelMeta>, field: Field)
    ensures Get(FilledAll(metas), field) == FirstValue(metas, field)
  {
    if metas != [] {
      FilledAllHasFirstValues(metas[..|metas| - 1], field);
      GetFilled(FilledAll(metas[..|metas| - 1]), metas[|metas| - 1], field);
    }
  }

  lemma {:induction false} FirstValueMeans(metas: seq<ModelMeta>, field: Field)
    ensures FirstValue(metas, field).None? <==> forall x :: x in metas ==> Get(x, field).None?
  {
    if metas != [] {
      FirstValueMeans(metas[..|metas| - 1], field);
      assert metas == metas[..|metas| - 1] + [metas[|metas| - 1]];
    }
  }

  /** `m` has the field, and is strictly better than every record that has it. */
  predicate BeatsAll(m: ModelMeta, metas: seq<ModelMeta>, field: Field) {
    Get(m, field).Some? && forall x :: x in metas && Get(x, field).Some? ==> Priority(m) < Priority(x)
  }

  lemma FirstValueWithLast(front: seq<ModelMeta>, last: ModelMeta, field: Field)
    ensures FirstValue(front + [last], field) == Or(FirstValue(front, field), Get(last, field))
  {
    assert (front + [last])[..|front|] == front;
  }

  /** Inserting one more record keeps the first value unless the new record beats all that have one. */
  lemma {:induction false} FirstValueAfterInsert(sorted: seq<ModelMeta>, m: ModelMeta, field: Field)
    requires IsSorted(sorted)
    ensures FirstValue(InsertedByPriority(sorted, m), field)
         == if BeatsAll(m, sorted, field) then Get(m, field) else FirstValue(sorted, field)
  {
    FirstValueMeans(sorted, field);
    if sorted == [] {
      FirstValueWithLast([], m, field);
    } else {
      SortedUpToLast(sorted);
      var front, last := sorted[..|sorted| - 1], sorted[|sorted| - 1];
      if Priority(last) <= Priority(m) {
        FirstValueWithLast(sorted, m, field);
      } else {
        FirstValueAfterInsert(front, m, field);
        FirstValueWithLast(InsertedByPriority(front, m), last, field);
        assert BeatsAll(m, sorted, field) == BeatsAll(m, front, field);
      }
    }
  }

  lemma NewcomerWins(front: seq<ModelMeta>, last: ModelMeta, field: Field)
    requires BeatsAll(last, front, field)
    ensures Wins(front + [last], field, |front|)
  {
    var metas := front + [last];
    forall j | 0 <= j < |front| && Get(metas[j], field).Some? ensures Priority(last) < Priority(metas[j]) {
      assert metas[j] == front[j] && front[j] in front;
    }
  }

  lemma WinnerStays(front: seq<ModelMeta>, last: ModelMeta, field: Field, i: nat)
    requires Wins(front, field, i) && !BeatsAll(last, front, field)
    ensures Wins(front + [last], field, i)
  {
    if Get(last, field).Some? {
      var x :| x in front && Get(x, field).Some? && Priority(x) <= Priority(last);
      var j :| 0 <= j < |front| && front[j] == x;
      assert Priority(front[i]) <= Priority(front[j]);
    }
    assert forall j :: 0 <= j < |front| ==> (front + [last])[j] == front[j];
  }

  /** The best value after one more arrival. */
  lemma BestWithOneMore(front: seq<ModelMeta>, last: ModelMeta, field: Field, value: Option<Value>)
    requires IsBest(front, field, value)
    ensures IsBest(front + [last], field, if BeatsAll(last, front, field) then Get(last, field) else value)
  {
    if BeatsAll(last, front, field) {
      NewcomerWins(front, last, field);
    } else if value.Some? {
      var i: nat :| i < |front| && Wins(front, field, i) && Get(front[i], field) == value;
      WinnerStays(front, last, field, i);
      assert (front + [last])[i] == front[i];
    } else {
      assert forall x :: x in front ==> Get(x, field).None?;
    }
  }

  lemma MergedWithOneMore(front: seq<ModelMeta>, last: ModelMeta, field: Field)
    ensures Get(Merged(front + [last]), field)
         == if BeatsAll(last, front, field) then Get(last, field) else Get(Merged(front), field)
  {
    var sorted := SortedByPriority(front);
    assert SortedByPriority(front + [last]) == InsertedByPriority(sorted, last) by {
      assert (front + [last])[..|front|] == front;
    }
    FilledAllHasFirstValues(sorted, field);
    FilledAllHasFirstValues(InsertedByPriority(sorted, last), field);
    SortKeepsElements(front);
    FirstValueAfterInsert(sorted, last, field);
    assert BeatsAll(last, sorted, field) == BeatsAll(last, front, field);
  }

  /** For every field the merge gives the value of the best source that has one, the earlier of two equals. */
  lemma {:induction false} MergedIsBest(metas: seq<ModelMeta>, field: Field)
    ensures IsBest(metas, field, Get(Merged(metas), field))
  {
    if metas != [] {
      var front, last := metas[..|metas| - 1], metas[|metas| - 1];
      MergedIsBest(front, field);
      MergedWithOneMore(front, last, field);
      BestWithOneMore(front, last, field, Get(Merged(front), field));
      assert metas == front + [last];
    }
  }

  predicate DistinctPriorities(metas: seq<ModelMeta>) {
    forall i, j :: 0 <= i < j < |metas| ==> Priority(metas[i]) != Priority(metas[j])
  }

  lemma InBoth(a: seq<ModelMeta>, b: seq<ModelMeta>, x: ModelMeta)
    requires multiset(a) == multiset(b)
    ensures x in a <==> x in b
  {
    assert x in a <==> x in multiset(a);
    assert x in b <==> x in multiset(b);
  }

  /** A record whose value comes out. */
  lemma Winner(metas: seq<ModelMeta>, field: Field, value: Option<Value>) returns (x: ModelMeta)
    requires IsBest(metas, field, value) && value.Some?
    ensures x in metas && Get(x, field) == value
    ensures forall y :: y in metas && Get(y, field).Some? ==> Priority(x) <= Priority(y)
  {
    var i: nat :| i < |metas| && Wins(metas, field, i) && Get(metas[i], field) == value;
    x := metas[i];
  }

  lemma OnePerPriority(metas: seq<ModelMeta>, x: ModelMeta, y: ModelMeta)
    requires DistinctPriorities(metas) && x in metas && y in metas && Priority(x) == Priority(y)
    ensures x == y
  {
    var i :| 0 <= i < |metas| && metas[i] == x;
    var j :| 0 <= j < |metas| && metas[j] == y;
  }

  lemma BestIsUnique(a: seq<ModelMeta>, b: seq<ModelMeta>, field: Field, v: Option<Value>, w: Option<Value>)
    requires multiset(a) == multiset(b) && DistinctPriorities(a)
    requires IsBest(a, field, v) && IsBest(b, field, w)
    ensures v == w
  {
    if v.Some? && w.Some? {
      var x := Winner(a, field, v);
      var y := Winner(b, field, w);
      InBoth(a, b, x);
      InBoth(a, b, y);
      OnePerPriority(a, x, y);
    } else if v.Some? {
      var x := Winner(a, field, v);
      InBoth(a, b, x);
    } else if w.Some? {
      var y := Winner(b, field, w);
      InBoth(a, b, y);
    }
  }

  /** Only the order among records of one priority can matter. */
  lemma MergeDependsOnOrderWithinPriorities(a: seq<ModelMeta>, b: seq<ModelMeta>)
    requires SameOfEachPriority(a, b)
    ensures Merged(a) == Merged(b)
  {
    SortIsStable(a, 0);
    forall p ensures OfPriority(SortedByPriority(a), p) == OfPriority(b, p) {
      SortIsStable(a, p);
      assert OfPriority(a, p) == OfPriority(b, p);
    }
    AnyStableSortIsThisOne(b, SortedByPriority(a));
  }

  /** With priorities all different the order of arrival does not matter. */
  lemma MergeIgnoresOrder(a: seq<ModelMeta>, b: seq<ModelMeta>)
    requires multiset(a) == multiset(b) && DistinctPriorities(a)
    ensures Merged(a) == Merged(b)
  {
    forall field ensures Get(Merged(a), field) == Get(Merged(b), field) {
      MergedIsBest(a, field);
      MergedIsBest(b, field);
      BestIsUnique(a, b, field, Get(Merged(a), field), Get(Merged(b), field));
    }
    SameFieldsSameRecord(Merged(a), Merged(b));
  }
}
