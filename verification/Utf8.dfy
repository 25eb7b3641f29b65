/**
  Cutting UTF-8 text at byte positions (crates/openslate-core/src/output_store.rs, context.rs).

  Text is its bytes; `CharLen` follows the grammar of section 4 of RFC 3629. The test the source relies on looks at
  one byte; it is proved to find exactly the places where a character begins or the text ends.
 */
module Utf8 {

  type Byte = b: int | 0 <= b < 256

  type Bytes = seq<Byte>

  predicate InRange(b: Byte, low: int, high: int) {
    low <= b <= high
  }

  /** A byte that continues a character. */
  predicate IsTail(b: Byte) {
    InRange(b, 0x80, 0xBF)
  }

  predicate TailsAt(s: Bytes, i: nat, n: nat) {
    i + n <= |s| && forall j :: i <= j < i + n ==> IsTail(s[j])
  }

  /** The lowest and highest second byte the grammar allows after `lead`. */
  function SecondLow(lead: Byte): int {
    if lead == 0xE0 then 0xA0 else if lead == 0xF0 then 0x90 else 0x80
  }

  function SecondHigh(lead: Byte): int {
    if lead == 0xED then 0x9F else if lead == 0xF4 then 0x8F else 0xBF
  }

  /** The number of bytes a lead byte announces, 0 if it cannot lead. */
  function Announced(lead: Byte): nat {
    if InRange(lead, 0x00, 0x7F) then 1
    else if InRange(lead, 0xC2, 0xDF) then 2
    else if InRange(lead, 0xE0, 0xEF) then 3
    else if InRange(lead, 0xF0, 0xF4) then 4
    else 0
  }

  /** The length of the character at `i`, 0 if there is none. */
  function CharLen(s: Bytes, i: nat): (n: nat)
    requires i < |s|
    ensures n <= 4 && i + n <= |s|
    ensures n > 0 ==> !IsTail(s[i]) && forall j :: i < j < i + n ==> IsTail(s[j])
  {
    var n := Announced(s[i]);
    if n == 0 || !TailsAt(s, i + 1, n - 1) then 0
    else if n > 1 && !InRange(s[i + 1], SecondLow(s[i]), SecondHigh(s[i])) then 0
    else n
  }

  /** From `i` on, one character follows the other up to the end. */
  predicate ValidFrom(s: Bytes, i: nat)
    requires i <= |s|
    decreases |s| - i
  {
    i == |s| || (CharLen(s, i) > 0 && ValidFrom(s, i + CharLen(s, i)))
  }

  predicate Valid(s: Bytes) {
    ValidFrom(s, 0)
  }

  /** Walking from character to character starting at `from`, one comes to `i`. */
  predicate WalksTo(s: Bytes, from: nat, i: nat)
    requires from <= |s|
    decreases |s| - from
  {
    from == i || (from < |s| && CharLen(s, from) > 0 && WalksTo(s, from + CharLen(s, from), i))
  }

  /** A character begins at `i`, or the text ends there. */
  predicate OnBoundary(s: Bytes, i: nat) {
    WalksTo(s, 0, i)
  }

  /** The test of the standard library: position 0, the end, or a byte that does not continue a character. */
  predicate IsCharBoundary(s: Bytes, i: nat) {
    i == 0 || i == |s| || (i < |s| && !IsTail(s[i]))
  }

  lemma {:induction false} WalkStopsWhereNoTailIs(s: Bytes, from: nat, i: nat)
    requires from <= i <= |s| && ValidFrom(s, from)
    ensures WalksTo(s, from, i) <==> i == |s| || !IsTail(s[i])
    decreases |s| - from
  {
    if from < i {
      var next := from + CharLen(s, from);
      if next <= i {
        WalkStopsWhereNoTailIs(s, next, i);
      } else {
        WalkDoesNotTurnBack(s, next, i);
      }
    }
  }

  lemma {:induction false} WalkDoesNotTurnBack(s: Bytes, from: nat, i: nat)
    requires i < from <= |s|
    ensures !WalksTo(s, from, i)
    decreases |s| - from
  {
    if from < |s| && CharLen(s, from) > 0 {
      WalkDoesNotTurnBack(s, from + CharLen(s, from), i);
    }
  }

  lemma FirstIsNoTail(s: Bytes)
    requires Valid(s) && s != []
    ensures !IsTail(s[0])
  {
    assert CharLen(s, 0) > 0;
  }

  /** In valid text the one-byte test finds exactly the boundaries between characters. */
  lemma ByteTestFindsBoundaries(s: Bytes, i: nat)
    requires Valid(s) && i <= |s|
    ensures IsCharBoundary(s, i) <==> OnBoundary(s, i)
  {
    WalkStopsWhereNoTailIs(s, 0, i);
    if s != [] {
      FirstIsNoTail(s);
    }
  }

  // ---- cutting at a boundary ----

  lemma {:induction false} SuffixValid(s: Bytes, i: nat, j: nat)
    requires i <= j <= |s|
    ensures ValidFrom(s[i..], j - i) <==> ValidFrom(s, j)
    decreases |s| - j
  {
    if j < |s| {
      SameCharLen(s, s[i..], i, j);
      if CharLen(s, j) > 0 {
        SuffixValid(s, i, j + CharLen(s, j));
      }
    }
  }

  lemma SameCharLen(s: Bytes, t: Bytes, i: nat, j: nat)
    requires i <= j < |s| && t == s[i..]
    ensures CharLen(t, j - i) == CharLen(s, j)
  {
    var n := Announced(s[j]);
    if n > 0 && j + n <= |s| {
      assert forall k :: j + 1 <= k < j + n ==> t[k - i] == s[k];
      assert forall k :: j - i + 1 <= k < j - i + n ==> t[k] == s[k + i];
      assert TailsAt(t, j - i + 1, n - 1) == TailsAt(s, j + 1, n - 1);
    }
  }

  lemma {:induction false} WalkKeepsValid(s: Bytes, from: nat, i: nat)
    requires from <= |s| && i <= |s| && ValidFrom(s, from) && WalksTo(s, from, i)
    ensures ValidFrom(s, i)
    decreases |s| - from
  {
    if from != i {
      WalkKeepsValid(s, from + CharLen(s, from), i);
    }
  }

  lemma CharWithinCut(s: Bytes, i: nat, from: nat)
    requires from < i <= |s| && CharLen(s, from) > 0 && from + CharLen(s, from) <= i
    ensures CharLen(s[..i], from) == CharLen(s, from)
  {
    var n := CharLen(s, from);
    assert forall k :: from <= k < from + n ==> s[..i][k] == s[k];
    assert TailsAt(s[..i], from + 1, n - 1);
  }

  lemma {:induction false} PrefixValid(s: Bytes, i: nat, from: nat)
    requires from <= i <= |s| && ValidFrom(s, from) && WalksTo(s, from, i)
    ensures ValidFrom(s[..i], from)
    decreases |s| - from
  {
    if from < i {
      var next := from + CharLen(s, from);
      if next > i {
        WalkDoesNotTurnBack(s, next, i);
      }
      CharWithinCut(s, i, from);
      PrefixValid(s, i, next);
    }
  }

  /** Cut at a boundary, valid text falls into two valid texts. */
  lemma CutsAreValid(s: Bytes, i: nat)
    requires Valid(s) && i <= |s| && OnBoundary(s, i)
    ensures Valid(s[..i]) && Valid(s[i..])
  {
    PrefixValid(s, i, 0);
    WalkKeepsValid(s, 0, i);
    SuffixValid(s, i, i);
  }

  lemma {:induction false} JoinFrom(s: Bytes, t: Bytes, i: nat)
    requires i <= |s| && ValidFrom(s, i) && Valid(t)
    ensures ValidFrom(s + t, i)
    decreases |s| - i
  {
    if i < |s| {
      CharBeforeJoin(s, t, i);
      JoinFrom(s, t, i + CharLen(s, i));
    } else {
      assert (s + t)[|s|..] == t;
      SuffixValid(s + t, |s|, |s|);
    }
  }

  lemma CharBeforeJoin(s: Bytes, t: Bytes, i: nat)
    requires i < |s| && CharLen(s, i) > 0
    ensures CharLen(s + t, i) == CharLen(s, i)
  {
    var n := CharLen(s, i);
    assert forall k :: i <= k < i + n ==> (s + t)[k] == s[k];
    assert TailsAt(s + t, i + 1, n - 1);
  }

  lemma JoinsAreValid(s: Bytes, t: Bytes)
    requires Valid(s) && Valid(t)
    ensures Valid(s + t)
  {
    JoinFrom(s, t, 0);
  }

  // ---- the boundary walks ----

  function Clamped(s: Bytes, index: nat): nat {
    if index < |s| then index else |s|
  }

  /** `r` is the last boundary up to `index`, at most three bytes back. */
  predicate IsFloor(s: Bytes, index: nat, r: nat) {
    && r <= Clamped(s, index) <= r + 3
    && OnBoundary(s, r)
    && forall j :: r < j <= Clamped(s, index) ==> !OnBoundary(s, j)
  }

  /** `r` is the first boundary from `index` on, at most three bytes ahead. */
  predicate IsCeil(s: Bytes, index: nat, r: nat) {
    && Clamped(s, index) <= r <= |s| && r <= Clamped(s, index) + 3
    && OnBoundary(s, r)
    && forall j :: Clamped(s, index) <= j < r ==> !OnBoundary(s, j)
  }

  /** Four bytes in a row never all continue a character. */
  lemma {:induction false} NoFourTails(s: Bytes, from: nat, i: nat)
    requires from <= i && i + 4 <= |s| && ValidFrom(s, from)
    ensures exists j :: i <= j < i + 4 && !IsTail(s[j])
    decreases |s| - from
  {
    var next := from + CharLen(s, from);
    if next <= i {
      NoFourTails(s, next, i);
    } else if from == i {
      assert !IsTail(s[i]);
    } else {
      assert next < i + 4 && ValidFrom(s, next) && CharLen(s, next) > 0;
      assert !IsTail(s[next]);
    }
  }

  /** The last position the byte test accepts is the floor. */
  lemma LastTestedIsFloor(text: Bytes, index: nat, r: nat)
    requires Valid(text) && r <= Clamped(text, index) && IsCharBoundary(text, r)
    requires forall j :: r < j <= Clamped(text, index) ==> !IsCharBoundary(text, j)
    ensures IsFloor(text, index, r)
  {
    var top := Clamped(text, index);
    forall j | r <= j <= top ensures IsCharBoundary(text, j) == OnBoundary(text, j) {
      ByteTestFindsBoundaries(text, j);
    }
    if r + 3 < top {
      assert !IsCharBoundary(text, top);
      NoFourTails(text, 0, top - 3);
      var j :| top - 3 <= j < top + 1 && !IsTail(text[j]);
      assert IsCharBoundary(text, j);
    }
  }

  method FloorCharBoundary(text: Bytes, index: nat) returns (r: nat)
    requires Valid(text)
    ensures IsFloor(text, index, r)
  {
    r := if index < |text| then index else |text|;
    while !IsCharBoundary(text, r)
      invariant 0 <= r <= Clamped(text, index)
      invariant forall j :: r < j <= Clamped(text, index) ==> !IsCharBoundary(text, j)
      decreases r
    {
      r := r - 1;
    }
    LastTestedIsFloor(text, index, r);
  }

  method CeilCharBoundary(text: Bytes, index: nat) returns (r: nat)
    requires Valid(text)
    ensures IsCeil(text, index, r)
  {
    r := if index < |text| then index else |text|;
    while !IsCharBoundary(text, r)
      invariant Clamped(text, index) <= r <= |text|
      invariant forall j :: Clamped(text, index) <= j < r ==> !IsCharBoundary(text, j)
      decreases |text| - r
    {
      r := r + 1;
    }
    ghost var low := Clamped(text, index);
    forall j | low <= j <= r ensures IsCharBoundary(text, j) == OnBoundary(text, j) {
      ByteTestFindsBoundaries(text, j);
    }
    if low + 3 < r {
      NoFourTails(text, 0, low);
      ghost var j :| low <= j < low + 4 && !IsTail(text[j]);
      assert IsCharBoundary(text, j);
    }
  }

  // ---- ASCII ----

  predicate IsAscii(s: Bytes) {
    forall i :: 0 <= i < |s| ==> s[i] < 0x80
  }

  /** The bytes of an ASCII text; there is a `?` for any other character. */
  function Ascii(s: string): (bytes: Bytes)
    ensures |bytes| == |s| && IsAscii(bytes)
    ensures forall i :: 0 <= i < |s| && (s[i] as int) < 0x80 ==> bytes[i] == s[i] as int
  {
    seq(|s|, i requires 0 <= i < |s| => if (s[i] as int) < 0x80 then (s[i] as int) as Byte else 0x3F)
  }

  /** A number in decimal. */
  function Digits(n: nat): (bytes: Bytes)
    ensures bytes != [] && IsAscii(bytes)
  {
    if n < 10 then [(0x30 + n) as Byte] else Digits(n / 10) + [(0x30 + n % 10) as Byte]
  }

  lemma {:induction false} AsciiIsValid(s: Bytes, i: nat)
    requires IsAscii(s) && i <= |s|
    ensures ValidFrom(s, i)
    decreases |s| - i
  {
    if i < |s| {
      AsciiIsValid(s, i + 1);
    }
  }

  lemma AsciiJoin(s: string, t: string)
    ensures Ascii(s + t) == Ascii(s) + Ascii(t)
  {
    var whole, parts := Ascii(s + t), Ascii(s) + Ascii(t);
    forall i | 0 <= i < |s| + |t| ensures whole[i] == parts[i] {
      if i >= |s| {
        assert (s + t)[i] == t[i - |s|];
      }
    }
  }

  lemma OneDigit(n: nat, s: string)
    requires n < 10 && |s| == 1 && s[0] as int == 0x30 + n
    ensures Digits(n) == Ascii(s)
  {
  }

  predicate AreDigits(s: Bytes) {
    forall i :: 0 <= i < |s| ==> 0x30 <= s[i] <= 0x39
  }

  /** The number that decimal digits stand for. */
  function Number(s: Bytes): nat
    requires AreDigits(s)
  {
    if s == [] then 0 else 10 * Number(s[..|s| - 1]) + (s[|s| - 1] - 0x30)
  }

  /** Digits are read back as the number they were written for, and have no needless zero in front. */
  lemma {:induction false} DigitsAreReadBack(n: nat)
    ensures AreDigits(Digits(n)) && Number(Digits(n)) == n
    ensures n > 0 ==> Digits(n)[0] != 0x30
    ensures n == 0 ==> Digits(n) == [0x30]
  {
    if n < 10 {
      assert Digits(n)[..0] == [];
    } else {
      DigitsAreReadBack(n / 10);
      assert Digits(n)[..|Digits(n)| - 1] == Digits(n / 10);
    }
  }
}
