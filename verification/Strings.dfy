/** The few string operations the two template engines scan with. */
module Strings {
  import opened Wrappers

  /** Two `c` in a row at `i`. */
  predicate PairAt(s: string, c: char, i: nat) {
    i + 1 < |s| && s[i] == c && s[i + 1] == c
  }

  predicate NoPair(s: string, c: char) {
    forall i :: 0 <= i < |s| ==> !PairAt(s, c, i)
  }

  predicate EndsWith(s: string, c: char) {
    s != [] && s[|s| - 1] == c
  }

  predicate StartsWith(s: string, c: char) {
    s != [] && s[0] == c
  }

  /** The first place two `c` stand in a row, looking from `i` on. */
  function FindPairFrom(s: string, c: char, i: nat): (at: Option<nat>)
    requires i <= |s|
    ensures at.Some? ==> i <= at.value && PairAt(s, c, at.value) && forall j :: i <= j < at.value ==> !PairAt(s, c, j)
    ensures at.None? ==> forall j :: i <= j < |s| ==> !PairAt(s, c, j)
    decreases |s| - i
  {
    if i == |s| then None
    else if PairAt(s, c, i) then Some(i)
    else FindPairFrom(s, c, i + 1)
  }

  function FindPair(s: string, c: char): (at: Option<nat>)
    ensures at.Some? ==> PairAt(s, c, at.value) && forall j :: 0 <= j < at.value ==> !PairAt(s, c, j)
    ensures at.None? <==> NoPair(s, c)
  {
    FindPairFrom(s, c, 0)
  }

  /** The first pair is where the text before it neither holds one nor ends in half of one. */
  lemma FirstPair(pre: string, c: char, post: string)
    requires NoPair(pre, c) && !EndsWith(pre, c)
    ensures FindPair(pre + [c, c] + post, c) == Some(|pre|)
  {
    var s := pre + [c, c] + post;
    assert PairAt(s, c, |pre|);
    forall j | 0 <= j < |pre| ensures !PairAt(s, c, j) {
      assert !PairAt(pre, c, j);
    }
  }

  lemma BeforeFirstPair(s: string, c: char)
    requires FindPair(s, c).Some?
    ensures var at := FindPair(s, c).value;
            && at + 2 <= |s|
            && NoPair(s[..at], c) && !EndsWith(s[..at], c)
            && s == s[..at] + [c, c] + s[at + 2..]
  {
    var at := FindPair(s, c).value;
    forall j | 0 <= j < at ensures !PairAt(s[..at], c, j) {
      assert !PairAt(s, c, j);
    }
    if at > 0 {
      assert !PairAt(s, c, at - 1);
    }
  }

  lemma PartHasNoPair(s: string, c: char, from: nat, to: nat)
    requires NoPair(s, c) && from <= to <= |s|
    ensures NoPair(s[from..to], c)
  {
    forall j | 0 <= j < to - from ensures !PairAt(s[from..to], c, j) {
      assert !PairAt(s, c, from + j);
    }
  }

  lemma NoPairJoin(a: string, b: string, c: char)
    requires NoPair(a, c) && NoPair(b, c) && !(EndsWith(a, c) && StartsWith(b, c))
    ensures NoPair(a + b, c)
  {
    forall j | 0 <= j < |a + b| ensures !PairAt(a + b, c, j) {
      if j + 1 < |a| {
        assert !PairAt(a, c, j);
      } else if j >= |a| {
        assert !PairAt(b, c, j - |a|);
      }
    }
  }

  // ---- trimming ----

  /** The characters with the Unicode property White_Space. */
  predicate IsSpace(c: char) {
    || '\U{0009}' <= c <= '\U{000D}' || c == ' ' || c == '\U{0085}' || c == '\U{00A0}' || c == '\U{1680}'
    || '\U{2000}' <= c <= '\U{200A}' || c == '\U{2028}' || c == '\U{2029}' || c == '\U{202F}'
    || c == '\U{205F}' || c == '\U{3000}'
  }

  function TrimStart(s: string): (t: string)
    ensures t == [] || !IsSpace(t[0])
    ensures |t| <= |s| && t == s[|s| - |t|..]
  {
    if s != [] && IsSpace(s[0]) then TrimStart(s[1..]) else s
  }

  function TrimEnd(s: string): (t: string)
    ensures t == [] || !IsSpace(t[|t| - 1])
    ensures |t| <= |s| && t == s[..|t|]
  {
    if s != [] && IsSpace(s[|s| - 1]) then TrimEnd(s[..|s| - 1]) else s
  }

  function Trim(s: string): string {
    TrimEnd(TrimStart(s))
  }

  predicate IsTrimmed(s: string) {
    s == [] || (!IsSpace(s[0]) && !IsSpace(s[|s| - 1]))
  }

  /** Trimming keeps the part of `s` from `from` to `to`. */
  lemma TrimIsTrimmed(s: string) returns (from: nat, to: nat)
    ensures IsTrimmed(Trim(s))
    ensures from <= to <= |s| && Trim(s) == s[from..to]
  {
    var t := TrimStart(s);
    var u := TrimEnd(t);
    from, to := |s| - |t|, |s| - |t| + |u|;
    SliceOfSlice(s, from, |u|);
    if u != [] {
      assert u[0] == t[0];
    }
  }

  lemma SliceOfSlice(s: string, from: nat, n: nat)
    requires from + n <= |s|
    ensures s[from..][..n] == s[from..from + n]
  {
  }

  predicate AllSpace(s: string) {
    forall i :: 0 <= i < |s| ==> IsSpace(s[i])
  }

  lemma {:induction false} TrimStartTakesSpace(s: string)
    ensures AllSpace(s[..|s| - |TrimStart(s)|])
  {
    if s != [] && IsSpace(s[0]) {
      TrimStartTakesSpace(s[1..]);
      var n := |s| - |TrimStart(s)|;
      assert s[..n] == [s[0]] + s[1..][..n - 1];
    }
  }

  lemma {:induction false} TrimEndTakesSpace(s: string)
    ensures AllSpace(s[|TrimEnd(s)|..])
  {
    if s != [] && IsSpace(s[|s| - 1]) {
      var front := s[..|s| - 1];
      TrimEndTakesSpace(front);
      assert s[|TrimEnd(s)|..] == front[|TrimEnd(s)|..] + [s[|s| - 1]];
    }
  }

  /** Trimming takes off white space, and all of it, at both ends. */
  lemma TrimTakesAllSpaceOffTheEnds(s: string) returns (from: nat, to: nat)
    ensures from <= to <= |s| && Trim(s) == s[from..to] && IsTrimmed(Trim(s))
    ensures AllSpace(s[..from]) && AllSpace(s[to..])
  {
    var t := TrimStart(s);
    from, to := TrimIsTrimmed(s);
    TrimStartTakesSpace(s);
    TrimEndTakesSpace(t);
    from, to := TwoCuts(s, t, TrimEnd(t));
  }

  lemma TwoCuts(s: string, t: string, u: string) returns (from: nat, to: nat)
    requires |u| <= |t| <= |s| && t == s[|s| - |t|..] && u == t[..|u|]
    requires AllSpace(s[..|s| - |t|]) && AllSpace(t[|u|..])
    ensures from <= to <= |s| && u == s[from..to] && AllSpace(s[..from]) && AllSpace(s[to..])
  {
    from, to := |s| - |t|, |s| - |t| + |u|;
    SliceOfSlice(s, from, |u|);
    assert s[to..] == t[|u|..];
  }

  /** Padding is trimmed off again. */
  lemma TrimPadded(key: string)
    requires IsTrimmed(key)
    ensures Trim(" " + key + " ") == key
  {
    var padded := " " + key + " ";
    assert padded[0] == ' ' && padded[1..] == key + " ";
    assert TrimStart(padded) == TrimStart(key + " ");
    if key == [] {
      assert key + " " == " " && (key + " ")[1..] == [];
      assert TrimStart(key + " ") == [];
    } else {
      assert (key + " ")[0] == key[0];
      assert TrimStart(key + " ") == key + " ";
      assert (key + " ")[..|key|] == key;
      assert TrimEnd(key + " ") == TrimEnd(key);
    }
  }
}
