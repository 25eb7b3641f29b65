/** Line buffering of streamed reasoning text (crates/openslate-cli/src/spinner.rs). */
module LineBuffer {
  import opened Wrappers
  import opened Strings

  /** The first newline from `i` on. */
  function FindNewline(s: string): (at: Option<nat>)
    ensures at.Some? ==> at.value < |s| && s[at.value] == '\n' && '\n' !in s[..at.value]
    ensures at.None? ==> '\n' !in s
  {
    if s == [] then None
    else if s[0] == '\n' then Some(0)
    else
      match FindNewline(s[1..])
      case None => None
      case Some(k) =>
        assert s[..k + 1] == [s[0]] + s[1..][..k];
        Some(k + 1)
  }

  /** A line as it is shown: without trailing space, and not at all when blank. */
  function Shown(line: string): seq<string> {
    if TrimEnd(line) == "" then [] else [TrimEnd(line)]
  }

  /** The text cut at its newlines. */
  function Split(s: string): (lines: seq<string>)
    ensures lines != []
    decreases |s|
  {
    match FindNewline(s)
    case None => [s]
    case Some(k) => [s[..k]] + Split(s[k + 1..])
  }

  /** The lines that are not blank, each without trailing space. */
  function NonBlank(lines: seq<string>): seq<string> {
    if lines == [] then [] else Shown(lines[0]) + NonBlank(lines[1..])
  }

  /** What a text shows once it is complete. */
  function ShownText(s: string): seq<string> {
    NonBlank(Split(s))
  }

  /** A line is not shown exactly if it is white space; otherwise it is shown up to its last character that is not. */
  lemma ShownMeans(line: string)
    ensures Shown(line) == [] <==> AllSpace(line)
    ensures Shown(line) != [] ==>
              exists n :: 0 < n <= |line| && Shown(line) == [line[..n]] && !IsSpace(line[n - 1]) && AllSpace(line[n..])
  {
    var t := TrimEnd(line);
    TrimEndTakesSpace(line);
    if t == "" {
      assert line[0..] == line;
    } else {
      assert line[..|t|] == t && !IsSpace(line[|t| - 1]);
    }
  }

  function Rejoined(lines: seq<string>): string
    requires lines != []
  {
    if |lines| == 1 then lines[0] else lines[0] + "\n" + Rejoined(lines[1..])
  }

  /** Nothing is lost or added when a text is cut at its newlines. */
  lemma {:induction false} SplitIsLossless(s: string)
    ensures Rejoined(Split(s)) == s
    ensures forall i :: 0 <= i < |Split(s)| ==> '\n' !in Split(s)[i]
    decreases |s|
  {
    match FindNewline(s)
    case None =>
    case Some(k) =>
      SplitIsLossless(s[k + 1..]);
      var rest := Split(s[k + 1..]);
      assert ([s[..k]] + rest)[1..] == rest;
      assert s == s[..k] + "\n" + s[k + 1..];
  }

  // ---- what is shown so far and what is still buffered ----

  function ShownSoFar(s: string): seq<string>
    decreases |s|
  {
    match FindNewline(s)
    case None => []
    case Some(k) => Shown(s[..k + 1]) + ShownSoFar(s[k + 1..])
  }

  function Buffered(s: string): (rest: string)
    ensures '\n' !in rest
    decreases |s|
  {
    match FindNewline(s)
    case None => s
    case Some(k) => Buffered(s[k + 1..])
  }

  /** The newline is trailing space itself. */
  lemma NewlineIsTrimmed(line: string)
    ensures Shown(line + "\n") == Shown(line)
  {
    assert (line + "\n")[..|line|] == line;
  }

  lemma ShownTextStep(s: string, k: nat)
    requires FindNewline(s) == Some(k)
    ensures ShownText(s) == Shown(s[..k + 1]) + ShownText(s[k + 1..])
  {
    var rest := Split(s[k + 1..]);
    assert ([s[..k]] + rest)[1..] == rest;
    NewlineIsTrimmed(s[..k]);
    assert s[..k + 1] == s[..k] + "\n";
  }

  lemma OneLineShows(s: string)
    requires FindNewline(s).None?
    ensures ShownText(s) == Shown(s)
  {
    assert [s][1..] == [];
    assert NonBlank([s]) == Shown(s) + NonBlank([]) == Shown(s);
  }

  /** The complete lines and the flushed remainder are all lines of the text. */
  lemma {:induction false} FlushCompletes(s: string)
    ensures ShownSoFar(s) + Shown(Buffered(s)) == ShownText(s)
    decreases |s|
  {
    match FindNewline(s)
    case None =>
      OneLineShows(s);
      assert [] + Shown(s) == Shown(s);
    case Some(k) =>
      var rest := s[k + 1..];
      FlushCompletes(rest);
      ShownTextStep(s, k);
      Regroup(Shown(s[..k + 1]), ShownSoFar(rest), Shown(Buffered(rest)));
  }

  lemma {:induction false} FirstNewline(s: string, k: nat)
    requires k < |s| && s[k] == '\n' && '\n' !in s[..k]
    ensures FindNewline(s) == Some(k)
  {
    if k > 0 {
      assert s[..k][0] == s[0];
      assert s[..k] == [s[0]] + s[1..][..k - 1];
      FirstNewline(s[1..], k - 1);
    }
  }

  lemma NewlineInFront(s: string, t: string, k: nat)
    requires FindNewline(s) == Some(k)
    ensures FindNewline(s + t) == Some(k)
    ensures (s + t)[..k + 1] == s[..k + 1] && (s + t)[k + 1..] == s[k + 1..] + t
  {
    assert (s + t)[..k] == s[..k];
    FirstNewline(s + t, k);
  }

  lemma OneMoreLine(s: string, t: string, k: nat)
    requires FindNewline(s) == Some(k)
    ensures ShownSoFar(s + t) == Shown(s[..k + 1]) + ShownSoFar(s[k + 1..] + t)
    ensures Buffered(s + t) == Buffered(s[k + 1..] + t)
  {
    NewlineInFront(s, t, k);
    FirstLineLeaves(s + t, k);
  }

  lemma FirstLineLeaves(s: string, k: nat)
    requires FindNewline(s) == Some(k)
    ensures ShownSoFar(s) == Shown(s[..k + 1]) + ShownSoFar(s[k + 1..])
    ensures Buffered(s) == Buffered(s[k + 1..])
  {
    ShownLeaves(s, k, Shown(s[..k + 1]), s[k + 1..]);
    BufferedLeaves(s, k, s[k + 1..]);
  }

  lemma ShownLeaves(s: string, k: nat, line: seq<string>, rest: string)
    requires FindNewline(s) == Some(k) && line == Shown(s[..k + 1]) && rest == s[k + 1..]
    ensures ShownSoFar(s) == line + ShownSoFar(rest)
  {
  }

  lemma BufferedLeaves(s: string, k: nat, rest: string)
    requires FindNewline(s) == Some(k) && rest == s[k + 1..]
    ensures Buffered(s) == Buffered(rest)
  {
  }

  /** It does not matter whether the text came at once or in two parts. */
  lemma {:induction false} TwoParts(s: string, t: string)
    ensures ShownSoFar(s + t) == ShownSoFar(s) + ShownSoFar(Buffered(s) + t)
    ensures Buffered(s + t) == Buffered(Buffered(s) + t)
    decreases |s|
  {
    match FindNewline(s)
    case None =>
      assert [] + ShownSoFar(s + t) == ShownSoFar(s + t);
    case Some(k) =>
      TwoParts(s[k + 1..], t);
      OneMoreLine(s, t, k);
      Regroup(Shown(s[..k + 1]), ShownSoFar(s[k + 1..]), ShownSoFar(Buffered(s[k + 1..]) + t));
  }

  function Joined(chunks: seq<string>): string {
    if chunks == [] then "" else Joined(chunks[..|chunks| - 1]) + chunks[|chunks| - 1]
  }

  /** What was shown since `before` and what `rest` will show make up what `whole` shows. */
  ghost predicate InSync(before: seq<string>, whole: string, shown: seq<string>, rest: string) {
    shown + ShownSoFar(rest) == before + ShownSoFar(whole) && Buffered(rest) == Buffered(whole)
  }

  lemma LineRound(before: seq<string>, whole: string, shown: seq<string>, rest: string, k: nat)
    requires InSync(before, whole, shown, rest) && FindNewline(rest) == Some(k)
    ensures InSync(before, whole, shown + Shown(rest[..k + 1]), rest[k + 1..])
  {
    FirstLineLeaves(rest, k);
    Regroup(shown, Shown(rest[..k + 1]), ShownSoFar(rest[k + 1..]));
  }

  lemma NoLineLeft(before: seq<string>, whole: string, shown: seq<string>, rest: string)
    requires InSync(before, whole, shown, rest) && FindNewline(rest).None?
    ensures shown == before + ShownSoFar(whole) && rest == Buffered(whole)
  {
    assert shown + [] == shown;
  }

  class ReasoningBuffer {
    var buffer: string
    var shown: seq<string>

    constructor ()
      ensures buffer == "" && shown == []
    {
      buffer, shown := "", [];
    }

    method Show(line: string)
      modifies this`shown
      ensures shown == old(shown) + Shown(line)
    {
      var trimmed := TrimEnd(line);
      if trimmed != "" {
        shown := shown + [trimmed];
      }
    }

    /** Shows every line that is complete and keeps the rest. */
    method OnReasoning(text: string)
      modifies this
      ensures shown == old(shown) + ShownSoFar(old(buffer) + text)
      ensures buffer == Buffered(old(buffer) + text)
    {
      buffer := buffer + text;
      ghost var whole := buffer;
      var at := FindNewline(buffer);
      while at.Some?
        invariant at == FindNewline(buffer)
        invariant InSync(old(shown), whole, shown, buffer)
        decreases |buffer|
      {
        var line := buffer[..at.value + 1];
        LineRound(old(shown), whole, shown, buffer, at.value);
        buffer := buffer[at.value + 1..];
        Show(line);
        at := FindNewline(buffer);
      }
      NoLineLeft(old(shown), whole, shown, buffer);
    }

    /** At the end of a request the rest is shown too. */
    method FlushReasoning()
      modifies this
      ensures shown == old(shown) + Shown(old(buffer)) && buffer == ""
    {
      var remainder := buffer;
      buffer := "";
      Show(remainder);
    }

    /** However a text is cut into chunks, the same lines are shown: its lines that are not blank. */
    method Stream(chunks: seq<string>)
      requires buffer == ""
      modifies this
      ensures shown == old(shown) + ShownText(Joined(chunks)) && buffer == ""
    {
      ghost var before := shown;
      for k := 0 to |chunks|
        invariant shown == before + ShownSoFar(Joined(chunks[..k]))
        invariant buffer == Buffered(Joined(chunks[..k]))
      {
        OnReasoning(chunks[k]);
        TwoParts(Joined(chunks[..k]), chunks[k]);
        assert chunks[..k + 1][..k] == chunks[..k];
        Regroup(before, ShownSoFar(Joined(chunks[..k])), ShownSoFar(Buffered(Joined(chunks[..k])) + chunks[k]));
      }
      assert chunks[..|chunks|] == chunks;
      FlushCompletes(Joined(chunks));
      FlushReasoning();
    }
  }
}
