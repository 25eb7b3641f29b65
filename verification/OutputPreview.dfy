/**
  Showing the ends of long texts: the head-and-tail preview of a stored output
  (crates/openslate-core/src/output_store.rs) and the message previews of a conversation summary
  (crates/openslate-core/src/context.rs).
 */
module OutputPreview {
  import opened Utf8

  const PREVIEW_EDGE_BYTES: nat := 1024

  datatype StoredOutput = StoredOutput(refId: Bytes, origBytes: nat, lineCount: nat)

  /** What the preview text is put together from. */
  datatype Preview = Preview(stored: StoredOutput, head: Bytes, omitted: nat, tail: Bytes)

  function SaturatingSub(a: nat, b: nat): nat {
    if a < b then 0 else a - b
  }

  /** The head ends at the last boundary within its budget, the tail starts at the first within its own, but
      not before the head has ended. */
  predicate CutAt(p: Preview, content: Bytes, headEnd: nat, tailStart: nat) {
    && headEnd <= |content| && tailStart <= |content|
    && IsFloor(content, PREVIEW_EDGE_BYTES, headEnd)
    && IsCeil(content, SaturatingSub(|content|, PREVIEW_EDGE_BYTES), tailStart)
    && p.head == content[..headEnd]
    && p.tail == content[Later(headEnd, tailStart)..]
    && p.omitted == SaturatingSub(p.stored.origBytes, |p.head| + |p.tail|)
  }

  function Later(a: nat, b: nat): nat {
    if a < b then b else a
  }

  function RefLabel(): Bytes {
    Ascii("[STORED OUTPUT ref=\"")
  }

  function SizeLabel(): Bytes {
    Ascii("\" size=")
  }

  function LinesLabel(): Bytes {
    Ascii(" lines=")
  }

  function HeaderEnd(): Bytes {
    Ascii("]\n")
  }

  function OmittedStart(): Bytes {
    Ascii("\n[... ")
  }

  function OmittedLabel(): Bytes {
    Ascii(" bytes omitted (")
  }

  function HintStart(): Bytes {
    Ascii(" lines) ")
  }

  /** An em dash. */
  function Dash(): Bytes {
    [0xE2, 0x80, 0x94]
  }

  function HintEnd(): Bytes {
    Ascii(" use output_query to inspect ...]\n")
  }

  /** The first line. */
  function Header(stored: StoredOutput): Bytes {
    RefLabel() + stored.refId + SizeLabel() + Digits(stored.origBytes) + LinesLabel() + Digits(stored.lineCount)
    + HeaderEnd()
  }

  /** The line between head and tail; it gives the number of all lines, not of those left out. */
  function OmittedLine(omitted: nat, lineCount: nat): Bytes {
    OmittedStart() + Digits(omitted) + OmittedLabel() + Digits(lineCount) + HintStart() + Dash() + HintEnd()
  }

  function PreviewText(p: Preview): Bytes {
    Header(p.stored) + p.head + OmittedLine(p.omitted, p.stored.lineCount) + p.tail
  }

  /** The frozen layout, at one output: the line breaks, brackets and labels, and which number stands where. */
  lemma LayoutIsFrozen(head: Bytes, tail: Bytes)
    ensures PreviewText(Preview(StoredOutput(Ascii("r"), 7, 4), head, 5, tail)) ==
            Ascii("[STORED OUTPUT ref=\"r\" size=7 lines=4]\n") + head
            + (Ascii("\n[... 5 bytes omitted (4 lines) ") + [0xE2, 0x80, 0x94]
               + Ascii(" use output_query to inspect ...]\n")) + tail
  {
    HeaderAtOneOutput();
    OmittedLineAtOneOutput();
  }

  lemma HeaderAtOneOutput()
    ensures Header(StoredOutput(Ascii("r"), 7, 4)) == Ascii("[STORED OUTPUT ref=\"r\" size=7 lines=4]\n")
  {
    OneDigit(7, "7");
    OneDigit(4, "4");
    AsciiJoin("[STORED OUTPUT ref=\"", "r");
    AsciiJoin("[STORED OUTPUT ref=\"r", "\" size=");
    AsciiJoin("[STORED OUTPUT ref=\"r\" size=", "7");
    AsciiJoin("[STORED OUTPUT ref=\"r\" size=7", " lines=");
    AsciiJoin("[STORED OUTPUT ref=\"r\" size=7 lines=", "4");
    AsciiJoin("[STORED OUTPUT ref=\"r\" size=7 lines=4", "]\n");
  }

  lemma OmittedLineAtOneOutput()
    ensures OmittedLine(5, 4) == Ascii("\n[... 5 bytes omitted (4 lines) ") + [0xE2, 0x80, 0x94]
                                 + Ascii(" use output_query to inspect ...]\n")
  {
    OmittedLineStart();
    OneDigit(4, "4");
    AsciiJoin("\n[... 5 bytes omitted (", "4");
    AsciiJoin("\n[... 5 bytes omitted (4", " lines) ");
  }

  lemma OmittedLineStart()
    ensures OmittedStart() + Digits(5) + OmittedLabel() == Ascii("\n[... 5 bytes omitted (")
  {
    OneDigit(5, "5");
    AsciiJoin("\n[... ", "5");
    AsciiJoin("\n[... 5", " bytes omitted (");
  }

  /** The text shows the stored output's own data and both ends of the content, and is valid. */
  method BuildPreview(stored: StoredOutput, content: Bytes) returns (text: Bytes)
    requires Valid(content) && Valid(stored.refId)
    ensures Valid(text)
    ensures exists p, headEnd, tailStart ::
              CutAt(p, content, headEnd, tailStart) && p.stored == stored && text == PreviewText(p)
  {
    var headEnd := FloorCharBoundary(content, PREVIEW_EDGE_BYTES);
    var tailStart := CeilCharBoundary(content, SaturatingSub(|content|, PREVIEW_EDGE_BYTES));
    var head, tail := content[..headEnd], content[Later(headEnd, tailStart)..];
    var omitted := SaturatingSub(stored.origBytes, |head| + |tail|);
    text := Header(stored) + head + OmittedLine(omitted, stored.lineCount) + tail;
    ghost var p := Preview(stored, head, omitted, tail);
    assert CutAt(p, content, headEnd, tailStart) && text == PreviewText(p);
    PreviewIsHonest(p, content, headEnd, tailStart);
    PreviewIsValid(p);
  }

  lemma PreviewIsValid(p: Preview)
    requires Valid(p.stored.refId) && Valid(p.head) && Valid(p.tail)
    ensures Valid(PreviewText(p))
  {
    HeaderIsValid(p.stored);
    OmittedLineIsValid(p.omitted, p.stored.lineCount);
    FourAreValid(Header(p.stored), p.head, OmittedLine(p.omitted, p.stored.lineCount), p.tail);
  }

  lemma FourAreValid(a: Bytes, b: Bytes, c: Bytes, d: Bytes)
    requires Valid(a) && Valid(b) && Valid(c) && Valid(d)
    ensures Valid(a + b + c + d)
  {
    JoinsAreValid(a, b);
    JoinsAreValid(a + b, c);
    JoinsAreValid(a + b + c, d);
  }

  lemma ThreeAreAscii(a: Bytes, b: Bytes, c: Bytes)
    requires IsAscii(a) && IsAscii(b) && IsAscii(c)
    ensures Valid(a + b + c)
  {
    AsciiIsValid(a + b + c, 0);
  }

  lemma HeaderIsValid(stored: StoredOutput)
    requires Valid(stored.refId)
    ensures Valid(Header(stored))
  {
    AsciiIsValid(RefLabel(), 0);
    ThreeAreAscii(SizeLabel(), Digits(stored.origBytes), LinesLabel());
    ThreeAreAscii(Digits(stored.lineCount), HeaderEnd(), []);
    HeaderParts(RefLabel(), stored.refId, SizeLabel(), Digits(stored.origBytes), LinesLabel(),
                Digits(stored.lineCount), HeaderEnd());
  }

  lemma HeaderParts(a: Bytes, b: Bytes, c: Bytes, d: Bytes, e: Bytes, f: Bytes, g: Bytes)
    requires Valid(a) && Valid(b) && Valid(c + d + e) && Valid(f + g + [])
    ensures Valid(a + b + c + d + e + f + g)
  {
    FourAreValid(a, b, c + d + e, f + g + []);
    assert a + b + (c + d + e) + (f + g + []) == a + b + c + d + e + f + g;
  }

  lemma OmittedLineIsValid(omitted: nat, lineCount: nat)
    ensures Valid(OmittedLine(omitted, lineCount))
  {
    ThreeAreAscii(OmittedStart(), Digits(omitted), OmittedLabel());
    ThreeAreAscii(Digits(lineCount), HintStart(), []);
    AsciiIsValid(HintEnd(), 0);
    DashIsValid();
    OmittedParts(OmittedStart(), Digits(omitted), OmittedLabel(), Digits(lineCount), HintStart(), Dash(), HintEnd());
  }

  lemma OmittedParts(a: Bytes, b: Bytes, c: Bytes, d: Bytes, e: Bytes, f: Bytes, g: Bytes)
    requires Valid(a + b + c) && Valid(d + e + []) && Valid(f) && Valid(g)
    ensures Valid(a + b + c + d + e + f + g)
  {
    FourAreValid(a + b + c, d + e + [], f, g);
    assert a + b + c + (d + e + []) + f + g == a + b + c + d + e + f + g;
  }

  lemma DashIsValid()
    ensures Valid(Dash())
  {
    assert CharLen(Dash(), 0) == 3;
    assert ValidFrom(Dash(), 3);
  }

  /** For every valid content the preview keeps whole characters of both ends, at most 1024 bytes of each and
      at most three short of that where there is room; with what lies between they are the content again, and the
      number of omitted bytes is the true one when the stored size is. */
  lemma PreviewIsHonest(p: Preview, content: Bytes, headEnd: nat, tailStart: nat)
    requires Valid(content) && CutAt(p, content, headEnd, tailStart)
    ensures Valid(p.head) && Valid(p.tail)
    ensures |p.head| <= PREVIEW_EDGE_BYTES && |p.tail| <= PREVIEW_EDGE_BYTES
    ensures |content| >= 2 * PREVIEW_EDGE_BYTES ==>
              |p.head| + 3 >= PREVIEW_EDGE_BYTES && |p.tail| + 3 >= PREVIEW_EDGE_BYTES
    ensures var middle := content[headEnd..Later(headEnd, tailStart)];
            && Valid(middle) && content == p.head + middle + p.tail
            && (p.stored.origBytes == |content| ==> p.omitted == |middle|)
  {
    var tailAt := Later(headEnd, tailStart);
    CutsAreValid(content, headEnd);
    CutsAreValid(content, tailAt);
    MiddleIsValid(content, headEnd, tailAt);
  }

  lemma MiddleIsValid(content: Bytes, from: nat, to: nat)
    requires Valid(content) && from <= to <= |content| && OnBoundary(content, from) && OnBoundary(content, to)
    ensures Valid(content[from..to])
  {
    CutsAreValid(content, to);
    var front := content[..to];
    ByteTestFindsBoundaries(content, from);
    assert IsCharBoundary(front, from);
    ByteTestFindsBoundaries(front, from);
    CutsAreValid(front, from);
    assert front[from..] == content[from..to];
  }

  // ---- previews in a conversation summary ----

  const SUMMARY_BYTES: nat := 200

  /** Up to `index` bytes, cut back to a character boundary. */
  method FindCharBoundary(s: Bytes, index: nat) returns (r: nat)
    requires Valid(s)
    ensures IsFloor(s, index, r)
  {
    r := Clamped(s, index);
    while r > 0 && !IsCharBoundary(s, r)
      invariant r <= Clamped(s, index)
      invariant forall j :: r < j <= Clamped(s, index) ==> !IsCharBoundary(s, j)
    {
      r := r - 1;
    }
    LastTestedIsFloor(s, index, r);
  }

  /** A message longer than 200 bytes is cut to whole characters and marked with three dots. */
  method ContentPreview(content: Bytes) returns (preview: Bytes)
    requires Valid(content)
    ensures Valid(preview)
    ensures |content| <= SUMMARY_BYTES ==> preview == content
    ensures |content| > SUMMARY_BYTES ==>
              exists end: nat :: IsFloor(content, SUMMARY_BYTES, end) && preview == content[..end] + Ascii("...")
  {
    if |content| <= SUMMARY_BYTES {
      return content;
    }
    var end := FindCharBoundary(content, SUMMARY_BYTES);
    preview := content[..end] + Ascii("...");
    CutsAreValid(content, end);
    AsciiIsValid(Ascii("..."), 0);
    JoinsAreValid(content[..end], Ascii("..."));
  }
}
