/**
  The cap on the size of a tool's output (crates/openslate-core/src/tool.rs): what it keeps, and exactly when its
  result is within the cap.
 */
module OutputCap {
  import opened Utf8

  datatype Status = Success | Error | Truncated

  /** `bytes` is what the tool reports, not always the length of the content. */
  datatype ToolOutput = ToolOutput(content: Bytes, bytes: nat, status: Status)

  /** Where the first `count` characters end. */
  function CharsEnd(s: Bytes, from: nat, count: nat): (end: nat)
    requires from <= |s| && ValidFrom(s, from)
    ensures from <= end <= |s| && end <= from + 4 * count && WalksTo(s, from, end)
    decreases |s| - from
  {
    if from == |s| || count == 0 then from else CharsEnd(s, from + CharLen(s, from), count - 1)
  }

  function OriginalLabel(): Bytes {
    Ascii("\n\n[TRUNCATED: original ")
  }

  function ShownLabel(): Bytes {
    Ascii(" bytes, showing ")
  }

  function NoticeEnd(): Bytes {
    Ascii(" bytes]")
  }

  /** The line that says how much is shown. */
  function Notice(original: nat, shown: nat): Bytes {
    OriginalLabel() + Digits(original) + ShownLabel() + Digits(shown) + NoticeEnd()
  }

  /** The layout of the notice, at one output. */
  lemma NoticeIsFrozen()
    ensures Notice(5, 2) == Ascii("\n\n[TRUNCATED: original 5 bytes, showing 2 bytes]")
  {
    NoticeStart();
    OneDigit(2, "2");
    AsciiJoin("\n\n[TRUNCATED: original 5 bytes, showing ", "2");
    AsciiJoin("\n\n[TRUNCATED: original 5 bytes, showing 2", " bytes]");
  }

  lemma NoticeStart()
    ensures OriginalLabel() + Digits(5) + ShownLabel() == Ascii("\n\n[TRUNCATED: original 5 bytes, showing ")
  {
    OneDigit(5, "5");
    AsciiJoin("\n\n[TRUNCATED: original ", "5");
    AsciiJoin("\n\n[TRUNCATED: original 5", " bytes, showing ");
  }

  function LimitToolOutput(output: ToolOutput, maxBytes: nat): ToolOutput
    requires Valid(output.content)
  {
    if output.bytes <= maxBytes then output
    else
      var kept := output.content[..CharsEnd(output.content, 0, maxBytes / 4)];
      var notice := Notice(output.bytes, |kept|);
      ToolOutput(kept + notice, |kept| + |notice|, Truncated)
  }

  /** What the cap keeps of an output reported too large is a prefix of whole characters of at most
      `maxBytes` bytes, followed by the notice; the text stays valid and `bytes` is its length. */
  lemma LimitKeepsWholeCharacters(output: ToolOutput, maxBytes: nat)
    requires Valid(output.content) && output.bytes > maxBytes
    ensures var limited := LimitToolOutput(output, maxBytes);
            var end := CharsEnd(output.content, 0, maxBytes / 4);
            && end <= maxBytes && OnBoundary(output.content, end)
            && limited.content == output.content[..end] + Notice(output.bytes, end)
            && limited.bytes == |limited.content| && limited.status == Truncated
            && Valid(limited.content)
  {
    var end := CharsEnd(output.content, 0, maxBytes / 4);
    CutsAreValid(output.content, end);
    AsciiIsValid(Notice(output.bytes, end), 0);
    JoinsAreValid(output.content[..end], Notice(output.bytes, end));
  }

  // ---- when the result is within the cap ----

  /** Bytes of the notice besides its two numbers. */
  const NOTICE_BYTES: nat := 46

  lemma NoticeLength(original: nat, shown: nat)
    ensures |Notice(original, shown)| == NOTICE_BYTES + |Digits(original)| + |Digits(shown)|
  {
    assert |OriginalLabel()| == 23;
    assert |ShownLabel()| == 16;
    assert |NoticeEnd()| == 7;
  }

  /** The first `maxBytes / 4` characters leave room for a notice on `bytes` bytes. */
  predicate RoomForNotice(content: Bytes, bytes: nat, maxBytes: nat)
    requires Valid(content)
  {
    var shown := CharsEnd(content, 0, maxBytes / 4);
    shown + NOTICE_BYTES + |Digits(bytes)| + |Digits(shown)| <= maxBytes
  }

  /** An output reported to be within the cap is not touched, whatever it holds. Of any other the start is kept and
      the notice comes on top, which the cap has to leave room for. */
  lemma WithinCapIffRoomForTheNotice(output: ToolOutput, maxBytes: nat)
    requires Valid(output.content)
    ensures |LimitToolOutput(output, maxBytes).content| <= maxBytes <==>
              if output.bytes <= maxBytes then |output.content| <= maxBytes
              else RoomForNotice(output.content, output.bytes, maxBytes)
    ensures LimitToolOutput(output, maxBytes).bytes <= maxBytes <==>
              output.bytes <= maxBytes || RoomForNotice(output.content, output.bytes, maxBytes)
  {
    NoticeLength(output.bytes, CharsEnd(output.content, 0, maxBytes / 4));
  }

  /** From `i` on every character takes `width` bytes. */
  predicate AllWide(s: Bytes, i: nat, width: nat)
    requires i <= |s|
    decreases |s| - i
  {
    i == |s| || (0 < width == CharLen(s, i) && AllWide(s, i + width, width))
  }

  lemma {:induction false} WideCharsEnd(s: Bytes, from: nat, count: nat, width: nat)
    requires from <= |s| && ValidFrom(s, from) && AllWide(s, from, width) && 0 < width
    requires from + width * count <= |s|
    ensures CharsEnd(s, from, count) == from + width * count
    decreases count
  {
    if count > 0 {
      OneMoreWide(width, count);
      WideCharsEnd(s, from + width, count - 1, width);
    }
  }

  lemma OneMoreWide(width: nat, count: nat)
    requires count > 0
    ensures width * count == width + width * (count - 1) >= width
  {
    assert width * (count - 1) >= 0;
  }

  /** Of a text whose characters all take `width` bytes, `width` times a quarter of the cap is kept, and the result is
      within the cap if and only if that leaves room for the notice. */
  lemma WithinCapOfWideText(output: ToolOutput, maxBytes: nat, width: nat)
    requires Valid(output.content) && 0 < width <= 4 && AllWide(output.content, 0, width)
    requires output.bytes == |output.content| > maxBytes
    ensures var shown := width * (maxBytes / 4);
            |LimitToolOutput(output, maxBytes).content| <= maxBytes <==>
            shown + NOTICE_BYTES + |Digits(output.bytes)| + |Digits(shown)| <= maxBytes
  {
    QuarterFits(maxBytes, width);
    WideCharsEnd(output.content, 0, maxBytes / 4, width);
    WithinCapIffRoomForTheNotice(output, maxBytes);
  }

  lemma QuarterFits(maxBytes: nat, width: nat)
    requires width <= 4
    ensures width * (maxBytes / 4) <= maxBytes
  {
    assert width * (maxBytes / 4) <= 4 * (maxBytes / 4);
  }

  lemma {:induction false} AsciiIsOneWide(s: Bytes, i: nat)
    requires IsAscii(s) && i <= |s|
    ensures AllWide(s, i, 1)
    decreases |s| - i
  {
    if i < |s| {
      AsciiIsOneWide(s, i + 1);
    }
  }

  /** For ASCII content a quarter of the cap is kept. */
  lemma WithinCapOfAscii(output: ToolOutput, maxBytes: nat)
    requires IsAscii(output.content) && output.bytes == |output.content| > maxBytes
    ensures Valid(output.content)
    ensures var shown := maxBytes / 4;
            |LimitToolOutput(output, maxBytes).content| <= maxBytes <==>
            shown + NOTICE_BYTES + |Digits(output.bytes)| + |Digits(shown)| <= maxBytes
  {
    AsciiIsValid(output.content, 0);
    AsciiIsOneWide(output.content, 0);
    WithinCapOfWideText(output, maxBytes, 1);
  }

  /** `count` characters of four bytes each. */
  function FourByteText(count: nat): (s: Bytes)
    ensures |s| == 4 * count
    ensures forall k :: 0 <= k < |s| ==> s[k] == if k % 4 == 0 then 0xF0 else 0x90
  {
    seq(4 * count, k requires 0 <= k < 4 * count => if k % 4 == 0 then 0xF0 else 0x90)
  }

  lemma {:induction false} FourByteTextIsWide(count: nat, done: nat)
    requires done <= count
    ensures ValidFrom(FourByteText(count), 4 * done) && AllWide(FourByteText(count), 4 * done, 4)
    decreases count - done
  {
    if done < count {
      var s, i := FourByteText(count), 4 * done;
      assert s[i] == 0xF0 && s[i + 1] == 0x90 && s[i + 2] == 0x90 && s[i + 3] == 0x90;
      assert CharLen(s, i) == 4;
      FourByteTextIsWide(count, done + 1);
    }
  }

  /** No cap is kept for all outputs: text of four-byte characters, just too long, comes out longer than any cap. */
  lemma NoCapIsAlwaysKept(maxBytes: nat) returns (output: ToolOutput)
    ensures Valid(output.content) && output.bytes == |output.content| > maxBytes
    ensures |LimitToolOutput(output, maxBytes).content| > maxBytes
  {
    var content := FourByteText(maxBytes / 4 + 1);
    output := ToolOutput(content, |content|, Success);
    FourByteTextIsWide(maxBytes / 4 + 1, 0);
    WithinCapOfWideText(output, maxBytes, 4);
  }

  // ---- outputs that report another size than they have ----

  /** No cap touches an output that reports no bytes, as the runtime's own error outputs do: for every cap there is
      one that is longer. */
  lemma UnreportedOutputPasses(maxBytes: nat) returns (output: ToolOutput)
    ensures Valid(output.content) && output.bytes == 0 && |output.content| > maxBytes
    ensures LimitToolOutput(output, maxBytes) == output
  {
    output := ToolOutput(FourByteText(maxBytes / 4 + 1), 0, Error);
    FourByteTextIsWide(maxBytes / 4 + 1, 0);
  }

  /** The cap on outputs of calls from code, which counts the bytes itself. */
  function TruncateBridgeOutput(output: ToolOutput, maxBytes: nat): ToolOutput
    requires Valid(output.content)
  {
    LimitToolOutput(output.(bytes := |output.content|), maxBytes)
  }

  /** There what is reported plays no part: the result reports its true size, is the output itself if that is within
      the cap, and otherwise is within the cap if and only if there is room for the notice. */
  lemma CountingFirstClosesTheGap(output: ToolOutput, maxBytes: nat)
    requires Valid(output.content)
    ensures var limited := TruncateBridgeOutput(output, maxBytes);
            && limited.bytes == |limited.content|
            && (|output.content| <= maxBytes ==> limited.content == output.content)
            && (|limited.content| <= maxBytes <==>
                  |output.content| <= maxBytes || RoomForNotice(output.content, |output.content|, maxBytes))
            && forall reported :: TruncateBridgeOutput(output.(bytes := reported), maxBytes) == limited
  {
    WithinCapIffRoomForTheNotice(output.(bytes := |output.content|), maxBytes);
  }
}
