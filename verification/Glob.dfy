/**
  The glob matcher behind the `tools:` and `hidden_tools:` lists, and the tool set
  an agent gets to see (crates/openslate-core/src/tool.rs).

  `Matches` says what a glob means. `WildcardMatch` is the loop, which remembers only
  the last `*`; `Scan` is its state transformer, one equation per branch.
 */
module Glob {
  import opened Wrappers

  /** What a glob means, from position `i` of the text and `j` of the pattern on: `*` takes nothing or
      one more character, `?` any one character, the rest is literal. */
  ghost predicate MatchesFrom(text: string, pattern: string, i: nat, j: nat)
    requires i <= |text| && j <= |pattern|
    decreases |text| - i + |pattern| - j
  {
    || (i == |text| && j == |pattern|)
    || (j < |pattern| && pattern[j] == '*' && MatchesFrom(text, pattern, i, j + 1))
    || (i < |text| && j < |pattern| && pattern[j] == '*' && MatchesFrom(text, pattern, i + 1, j))
    || (i < |text| && j < |pattern| && pattern[j] != '*' && (pattern[j] == '?' || pattern[j] == text[i])
        && MatchesFrom(text, pattern, i + 1, j + 1))
  }

  ghost predicate Matches(text: string, pattern: string) {
    MatchesFrom(text, pattern, 0, 0)
  }

  predicate AllStars(pattern: string) {
    forall i :: 0 <= i < |pattern| ==> pattern[i] == '*'
  }

  /** The answer the loop gives from one of its states. */
  function Scan(text: string, pattern: string, ti: nat, pi: nat, star: Option<nat>, stash: nat): bool
    requires Reached(text, pattern, ti, pi, star, stash)
    decreases |text| - stash, |text| - ti + |pattern| - pi
  {
    if ti < |text| then
      if pi < |pattern| && (pattern[pi] == '?' || pattern[pi] == text[ti]) then
        Scan(text, pattern, ti + 1, pi + 1, star, stash)
      else if pi < |pattern| && pattern[pi] == '*' then
        Scan(text, pattern, ti, pi + 1, Some(pi), ti)
      else if star.Some? then
        Scan(text, pattern, stash + 1, star.value + 1, star, stash + 1)
      else
        false
    else
      AllStars(pattern[pi..])
  }

  /** The index bounds that hold in every state of the loop. */
  ghost predicate Reached(text: string, pattern: string, ti: nat, pi: nat, star: Option<nat>, stash: nat) {
    && stash <= ti <= |text|
    && pi <= |pattern|
    && (star.Some? ==> star.value < pi)
  }

  function LastStarMatch(text: string, pattern: string): bool {
    Scan(text, pattern, 0, 0, None, 0)
  }

  /** The matching loop. It never loops forever, never says yes to a text the glob rejects,
      and is exact on texts without `*`. */
  method WildcardMatch(text: string, pattern: string) returns (matched: bool)
    ensures matched == LastStarMatch(text, pattern)
    ensures matched ==> Matches(text, pattern)
    ensures '*' !in text ==> matched == Matches(text, pattern)
  {
    LastStarIsSound(text, pattern);
    if '*' !in text {
      LastStarIsExact(text, pattern);
    }
    var ti: nat, pi: nat := 0, 0;
    var star: Option<nat> := None;
    var stash: nat := 0;
    while ti < |text|
      invariant Reached(text, pattern, ti, pi, star, stash)
      invariant Scan(text, pattern, ti, pi, star, stash) == LastStarMatch(text, pattern)
      decreases |text| - stash, |text| - ti + |pattern| - pi
    {
      if pi < |pattern| && (pattern[pi] == '?' || pattern[pi] == text[ti]) {
        ti := ti + 1;
        pi := pi + 1;
      } else if pi < |pattern| && pattern[pi] == '*' {
        star := Some(pi);
        stash := ti;
        pi := pi + 1;
      } else if star.Some? {
        pi := star.value + 1;
        stash := stash + 1;
        ti := stash;
      } else {
        return false;
      }
    }
    ghost var end := pi;
    while pi < |pattern| && pattern[pi] == '*'
      invariant end <= pi <= |pattern|
      invariant forall i :: end <= i < pi ==> pattern[i] == '*'
    {
      pi := pi + 1;
    }
    matched := pi == |pattern|;
    assert pi < |pattern| ==> pattern[end..][pi - end] != '*';
  }

  // ---- soundness: every accepting run spells out a match ----

  /** `*` stands for any run of characters. */
  lemma {:induction false} StarIsAnyRun(text: string, pattern: string, i: nat, j: nat, next: nat)
    requires i <= |text| && j < |pattern| && pattern[j] == '*' && next == j + 1
    ensures MatchesFrom(text, pattern, i, j)
       <==> exists k :: i <= k <= |text| && MatchesFrom(text, pattern, k, next)
    decreases |text| - i
  {
    if i < |text| {
      StarIsAnyRun(text, pattern, i + 1, j, next);
    }
    if MatchesFrom(text, pattern, i, next) {
      assert exists k :: i <= k <= |text| && MatchesFrom(text, pattern, k, next);
    } else if k :| i <= k <= |text| && MatchesFrom(text, pattern, k, next) {
      assert k != i;
    }
  }

  lemma {:induction false} EmptyTextNeedsStars(text: string, pattern: string, j: nat)
    requires j <= |pattern|
    ensures MatchesFrom(text, pattern, |text|, j) == AllStars(pattern[j..])
    decreases |pattern| - j
  {
    if j < |pattern| {
      EmptyTextNeedsStars(text, pattern, j + 1);
      assert pattern[j..] == [pattern[j]] + pattern[j + 1..];
      assert pattern[j] == '*' || !AllStars(pattern[j..]) by {
        assert pattern[j..][0] == pattern[j];
      }
    }
  }

  lemma {:induction false} ScanIsSound(text: string, pattern: string, ti: nat, pi: nat, star: Option<nat>, stash: nat)
    requires Reached(text, pattern, ti, pi, star, stash)
    requires star.Some? ==> pattern[star.value] == '*'
    requires Scan(text, pattern, ti, pi, star, stash)
    ensures MatchesFrom(text, pattern, ti, pi) || (star.Some? && MatchesFrom(text, pattern, stash, star.value))
    decreases |text| - stash, |text| - ti + |pattern| - pi
  {
    if ti < |text| {
      if pi < |pattern| && (pattern[pi] == '?' || pattern[pi] == text[ti]) {
        ScanIsSound(text, pattern, ti + 1, pi + 1, star, stash);
        if pattern[pi] == '*' && MatchesFrom(text, pattern, ti + 1, pi + 1) {
          assert MatchesFrom(text, pattern, ti + 1, pi);
        }
      } else if pi < |pattern| && pattern[pi] == '*' {
        ScanIsSound(text, pattern, ti, pi + 1, Some(pi), ti);
      } else {
        ScanIsSound(text, pattern, stash + 1, star.value + 1, star, stash + 1);
      }
    } else {
      EmptyTextNeedsStars(text, pattern, pi);
    }
  }

  /** Whatever the text, an accepted text matches the glob. */
  lemma LastStarIsSound(text: string, pattern: string)
    ensures LastStarMatch(text, pattern) ==> Matches(text, pattern)
  {
    if LastStarMatch(text, pattern) {
      ScanIsSound(text, pattern, 0, 0, None, 0);
    }
  }

  // ---- exactness: earlier stars never need revisiting ----

  /** Between the last star and the cursor the pattern is star-free and lined up with the text. */
  ghost predicate Aligned(pattern: string, ti: nat, pi: nat, star: Option<nat>, stash: nat)
    requires pi <= |pattern| && (star.Some? ==> star.value < pi)
  {
    star.Some? ==>
      && pattern[star.value] == '*'
      && ti - stash == pi - star.value - 1
      && forall i :: star.value < i < pi ==> pattern[i] != '*'
  }

  /** A match of the whole is a match from the last star; and the cursor is where that star's first
      choice leads. */
  ghost predicate Faithful(text: string, pattern: string, ti: nat, pi: nat, star: Option<nat>, stash: nat)
    requires Reached(text, pattern, ti, pi, star, stash)
  {
    match star
    case None => Matches(text, pattern) == MatchesFrom(text, pattern, ti, pi)
    case Some(s) =>
      && Matches(text, pattern) == MatchesFrom(text, pattern, stash, s)
      && MatchesFrom(text, pattern, stash, s + 1) == MatchesFrom(text, pattern, ti, pi)
  }

  /** A star-free stretch of the pattern eats exactly its own length. */
  lemma {:induction false} StarFreeEatsItsLength(text: string, pattern: string, from: nat, to: nat, k: nat)
    requires from <= to <= |pattern| && k <= |text|
    requires forall i :: from <= i < to ==> pattern[i] != '*'
    requires MatchesFrom(text, pattern, k, from)
    ensures k + (to - from) <= |text|
    ensures MatchesFrom(text, pattern, k + (to - from), to)
    decreases |pattern| - from
  {
    if from < to {
      StarFreeEatsItsLength(text, pattern, from + 1, to, k + 1);
    }
  }

  /** The heart of the matter: when a later star is reached, the earlier one can be forgotten,
      because whatever the earlier star would skip, the later one can swallow. */
  lemma NewStarTakesOver(text: string, pattern: string, ti: nat, pi: nat, star: Option<nat>, stash: nat)
    requires Reached(text, pattern, ti, pi, star, stash)
    requires pi < |pattern| && pattern[pi] == '*'
    requires Aligned(pattern, ti, pi, star, stash)
    requires Faithful(text, pattern, ti, pi, star, stash)
    ensures Matches(text, pattern) == MatchesFrom(text, pattern, ti, pi)
  {
    if star.Some? && Matches(text, pattern) {
      StarIsAnyRun(text, pattern, stash, star.value, star.value + 1);
      var k :| stash <= k <= |text| && MatchesFrom(text, pattern, k, star.value + 1);
      StarFreeEatsItsLength(text, pattern, star.value + 1, pi, k);
      var later := k + (pi - star.value - 1);
      StarIsAnyRun(text, pattern, later, pi, pi + 1);
      StarIsAnyRun(text, pattern, ti, pi, pi + 1);
    }
  }

  /** With the text used up, moving the last star further cannot help. */
  lemma TooLateForTheStar(text: string, pattern: string, pi: nat, star: Option<nat>, stash: nat)
    requires Reached(text, pattern, |text|, pi, star, stash)
    requires Aligned(pattern, |text|, pi, star, stash)
    requires Faithful(text, pattern, |text|, pi, star, stash)
    ensures Matches(text, pattern) == MatchesFrom(text, pattern, |text|, pi)
  {
    if star.Some? && Matches(text, pattern) {
      StarIsAnyRun(text, pattern, stash, star.value, star.value + 1);
      var k :| stash <= k <= |text| && MatchesFrom(text, pattern, k, star.value + 1);
      StarFreeEatsItsLength(text, pattern, star.value + 1, pi, k);
    }
  }

  /** The loop's answer is that of the cursor or, when a star was seen, of that star alone. */
  lemma {:induction false} ScanIsExact(text: string, pattern: string, ti: nat, pi: nat, star: Option<nat>, stash: nat)
    requires Reached(text, pattern, ti, pi, star, stash)
    requires '*' !in text
    requires Aligned(pattern, ti, pi, star, stash)
    requires Faithful(text, pattern, ti, pi, star, stash)
    ensures Scan(text, pattern, ti, pi, star, stash) == Matches(text, pattern)
    decreases |text| - stash, |text| - ti + |pattern| - pi
  {
    if ti < |text| {
      assert text[ti] in text;
      if pi < |pattern| && (pattern[pi] == '?' || pattern[pi] == text[ti]) {
        ScanIsExact(text, pattern, ti + 1, pi + 1, star, stash);
      } else if pi < |pattern| && pattern[pi] == '*' {
        NewStarTakesOver(text, pattern, ti, pi, star, stash);
        ScanIsExact(text, pattern, ti, pi + 1, Some(pi), ti);
      } else if star.Some? {
        ScanIsExact(text, pattern, stash + 1, star.value + 1, star, stash + 1);
      }
    } else {
      TooLateForTheStar(text, pattern, pi, star, stash);
      EmptyTextNeedsStars(text, pattern, pi);
    }
  }

  /** On texts without `*`, as tool names are, the loop decides the glob relation. */
  lemma LastStarIsExact(text: string, pattern: string)
    requires '*' !in text
    ensures LastStarMatch(text, pattern) == Matches(text, pattern)
  {
    ScanIsExact(text, pattern, 0, 0, None, 0);
  }

  // ---- where the loop and the glob part ways ----

  /** A `*` in the text is taken as a literal, because the equality test comes first. */
  lemma LiteralStarInTextIsMissed()
    ensures Matches("*x", "*") && !LastStarMatch("*x", "*")
  {
    assert MatchesFrom("*x", "*", 2, 0);
    assert MatchesFrom("*x", "*", 1, 0);
    assert !Scan("*x", "*", 1, 1, None, 0);
  }

  function Repeat(c: char, n: nat): (s: string)
    ensures |s| == n && forall i :: 0 <= i < n ==> s[i] == c
  {
    seq(n, _ => c)
  }

  /** `n` question marks, one star, and question marks for all that follows the first `n`. */
  function Trap(n: nat, rest: nat): (pattern: string)
    ensures |pattern| == n + 1 + rest && pattern[n] == '*'
    ensures forall i :: 0 <= i < |pattern| && i != n ==> pattern[i] == '?'
  {
    Repeat('?', n) + "*" + Repeat('?', rest)
  }

  lemma {:induction false} TrapMatches(text: string, n: nat, i: nat)
    requires n <= |text| && i <= |text|
    ensures MatchesFrom(text, Trap(n, |text| - n), i, if i <= n then i else i + 1)
    decreases |text| - i
  {
    if i < |text| {
      TrapMatches(text, n, i + 1);
    }
    if i == n {
      TrapTailMatches(text, n, i);
    }
  }

  lemma {:induction false} TrapTailMatches(text: string, n: nat, i: nat)
    requires n <= i <= |text|
    ensures MatchesFrom(text, Trap(n, |text| - n), i, i + 1)
    decreases |text| - i
  {
    if i < |text| {
      TrapTailMatches(text, n, i + 1);
    }
  }

  lemma {:induction false} TrapIsMissed(text: string, n: nat, i: nat)
    requires n < |text| && text[n] == '*' && i <= |text|
    ensures !Scan(text, Trap(n, |text| - n), i, i, None, 0)
    decreases |text| - i
  {
    if i < |text| {
      TrapIsMissed(text, n, i + 1);
    } else {
      assert Trap(n, |text| - n)[i..][0] == '?';
    }
  }

  /** Exactly which texts are safe: the loop agrees with the glob on every pattern if and only if
      the text holds no `*`. */
  lemma ExactIffTextHasNoStar(text: string)
    ensures (forall pattern :: LastStarMatch(text, pattern) == Matches(text, pattern)) <==> '*' !in text
  {
    if n :| 0 <= n < |text| && text[n] == '*' {
      var pattern := Trap(n, |text| - n);
      TrapMatches(text, n, 0);
      TrapIsMissed(text, n, 0);
      assert LastStarMatch(text, pattern) != Matches(text, pattern);
    } else {
      forall pattern ensures LastStarMatch(text, pattern) == Matches(text, pattern) {
        LastStarIsExact(text, pattern);
      }
    }
  }

  /** The pattern itself, with one more character behind its `n`-th. */
  function Stretched(pattern: string, n: nat): (text: string)
    requires n < |pattern|
    ensures |text| == |pattern| + 1
    ensures forall i :: 0 <= i <= n ==> text[i] == pattern[i]
    ensures forall i :: n < i < |pattern| ==> text[i + 1] == pattern[i]
  {
    pattern[..n + 1] + "x" + pattern[n + 1..]
  }

  lemma {:induction false} StretchedTailMatches(pattern: string, n: nat, j: nat)
    requires n < j <= |pattern| && forall i :: n < i < |pattern| ==> pattern[i] != '*'
    ensures MatchesFrom(Stretched(pattern, n), pattern, j + 1, j)
    decreases |pattern| - j
  {
    if j < |pattern| {
      StretchedTailMatches(pattern, n, j + 1);
    }
  }

  lemma {:induction false} StretchedMatches(pattern: string, n: nat, i: nat)
    requires i <= n < |pattern| && pattern[n] == '*' && forall k :: n < k < |pattern| ==> pattern[k] != '*'
    ensures MatchesFrom(Stretched(pattern, n), pattern, i, i)
    decreases n - i
  {
    var text := Stretched(pattern, n);
    if i == n {
      StretchedTailMatches(pattern, n, n + 1);
      assert MatchesFrom(text, pattern, n + 2, n);
      assert MatchesFrom(text, pattern, n + 1, n);
    } else {
      StretchedMatches(pattern, n, i + 1);
      if pattern[i] == '*' {
        assert MatchesFrom(text, pattern, i + 1, i);
      }
    }
  }

  lemma {:induction false} StretchedTailIsMissed(pattern: string, n: nat, i: nat)
    requires n < i <= |pattern| && forall k :: n < k < |pattern| ==> pattern[k] != '*'
    ensures !Scan(Stretched(pattern, n), pattern, i, i, None, 0)
    decreases |pattern| - i
  {
    if i < |pattern| {
      StretchedTailIsMissed(pattern, n, i + 1);
    }
  }

  lemma {:induction false} StretchedIsMissed(pattern: string, n: nat, i: nat)
    requires i <= n < |pattern| && forall k :: n < k < |pattern| ==> pattern[k] != '*'
    ensures !Scan(Stretched(pattern, n), pattern, i, i, None, 0)
    decreases n - i
  {
    if i == n {
      StretchedTailIsMissed(pattern, n, i + 1);
    } else {
      StretchedIsMissed(pattern, n, i + 1);
    }
  }

  lemma {:induction false} LastStar(pattern: string) returns (n: nat)
    requires '*' in pattern
    ensures n < |pattern| && pattern[n] == '*' && forall k :: n < k < |pattern| ==> pattern[k] != '*'
  {
    var front := pattern[..|pattern| - 1];
    assert pattern == front + [pattern[|pattern| - 1]];
    if pattern[|pattern| - 1] == '*' {
      n := |pattern| - 1;
    } else {
      n := LastStar(front);
    }
  }

  lemma {:induction false} StarFreeIsExact(text: string, pattern: string, i: nat)
    requires '*' !in pattern && i <= |text| && i <= |pattern|
    ensures Scan(text, pattern, i, i, None, 0) == MatchesFrom(text, pattern, i, i)
    decreases |text| - i
  {
    if i < |pattern| {
      assert pattern[i] in pattern;
    }
    if i < |text| && i < |pattern| {
      StarFreeIsExact(text, pattern, i + 1);
    } else if i < |pattern| {
      assert pattern[i..][0] == pattern[i];
    }
  }

  /** Exactly which patterns are safe: the loop agrees with the glob on every text if and only if the pattern holds
      no `*`. */
  lemma ExactIffPatternHasNoStar(pattern: string)
    ensures (forall text :: LastStarMatch(text, pattern) == Matches(text, pattern)) <==> '*' !in pattern
  {
    if '*' in pattern {
      var n := LastStar(pattern);
      var text := Stretched(pattern, n);
      StretchedMatches(pattern, n, 0);
      StretchedIsMissed(pattern, n, 0);
      assert LastStarMatch(text, pattern) != Matches(text, pattern);
    } else {
      forall text ensures LastStarMatch(text, pattern) == Matches(text, pattern) {
        StarFreeIsExact(text, pattern, 0);
      }
    }
  }

  // ---- tool lists ----

  predicate HasMeta(pattern: string) {
    '*' in pattern || '?' in pattern
  }

  /** A plain pattern is an exact name, any other a glob. */
  predicate ToolNameMatches(name: string, pattern: string) {
    if !HasMeta(pattern) then name == pattern else LastStarMatch(name, pattern)
  }

  /** The plain-name shortcut does not change the meaning: both kinds of pattern are globs. */
  lemma PlainPatternIsItself(name: string, pattern: string)
    requires !HasMeta(pattern)
    ensures Matches(name, pattern) <==> name == pattern
  {
    PlainFrom(name, pattern, 0);
  }

  lemma {:induction false} PlainFrom(name: string, pattern: string, i: nat)
    requires !HasMeta(pattern) && i <= |name| && i <= |pattern|
    ensures MatchesFrom(name, pattern, i, i) <==> name[i..] == pattern[i..]
    decreases |pattern| - i
  {
    if i < |pattern| {
      assert pattern[i] in pattern;
      if i < |name| {
        PlainFrom(name, pattern, i + 1);
        assert name[i..] == [name[i]] + name[i + 1..] && pattern[i..] == [pattern[i]] + pattern[i + 1..];
      }
    }
  }

  lemma ToolNameMatchesIsGlob(name: string, pattern: string)
    requires '*' !in name
    ensures ToolNameMatches(name, pattern) <==> Matches(name, pattern)
  {
    if HasMeta(pattern) {
      LastStarIsExact(name, pattern);
    } else {
      PlainPatternIsItself(name, pattern);
    }
  }

  predicate AnyMatches(name: string, patterns: seq<string>) {
    exists p :: p in patterns && ToolNameMatches(name, p)
  }

  /** The registered tools an agent sees: allowed (an empty list allows all) and not hidden. */
  function DefinitionsVisible(registry: set<string>, allow: seq<string>, hidden: seq<string>): set<string> {
    set name | name in registry && (allow == [] || AnyMatches(name, allow)) && !AnyMatches(name, hidden)
  }

  /** In terms of globs: what is visible is registered, and allowed by a glob; a star-free name is visible exactly
      if it is registered, allowed and no hidden glob matches it. Hiding by a joined list is hiding by one part
      after the other. */
  lemma VisibleIsAllowedMinusHidden(registry: set<string>, allow: seq<string>, hidden: seq<string>, more: seq<string>)
    ensures forall name :: name in DefinitionsVisible(registry, allow, hidden) ==>
              name in registry && (allow == [] || exists p :: p in allow && Matches(name, p))
    ensures forall name :: '*' !in name ==>
              (name in DefinitionsVisible(registry, allow, hidden) <==>
                && name in registry
                && (allow == [] || exists p :: p in allow && Matches(name, p))
                && (forall p :: p in hidden ==> !Matches(name, p)))
    ensures DefinitionsVisible(registry, allow, hidden + more)
         == DefinitionsVisible(DefinitionsVisible(registry, allow, hidden), [], more)
  {
    forall name, p | '*' !in name ensures ToolNameMatches(name, p) == Matches(name, p) {
      ToolNameMatchesIsGlob(name, p);
    }
    forall name, p | ToolNameMatches(name, p) ensures Matches(name, p) {
      ToolNameMatchesIsSound(name, p);
    }
    forall name ensures AnyMatches(name, hidden + more) <==> AnyMatches(name, hidden) || AnyMatches(name, more) {
      AnyMatchesJoined(name, hidden, more);
    }
  }

  lemma ToolNameMatchesIsSound(name: string, pattern: string)
    requires ToolNameMatches(name, pattern)
    ensures Matches(name, pattern)
  {
    if HasMeta(pattern) {
      LastStarIsSound(name, pattern);
    } else {
      PlainPatternIsItself(name, pattern);
    }
  }

  lemma AnyMatchesJoined(name: string, ps: seq<string>, qs: seq<string>)
    ensures AnyMatches(name, ps + qs) <==> AnyMatches(name, ps) || AnyMatches(name, qs)
  {
    if p :| p in ps && ToolNameMatches(name, p) {
      assert p in ps + qs;
    }
    if p :| p in qs && ToolNameMatches(name, p) {
      assert p in ps + qs;
    }
  }
}
