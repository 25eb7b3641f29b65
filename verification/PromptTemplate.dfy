/**
  Variable substitution in prompts (crates/openslate-core/src/prompt.rs).

  `Pieces` cuts a template into text and tags, `Rendered` and `RenderedStrictly` put values in. The scan of the
  source, which does both at once, is proved to be one after the other.
 */
module PromptTemplate {
  import opened Wrappers
  import opened Strings

  datatype Piece = Text(text: string) | Tag(key: string)

  type Variables = map<string, string>

  /** Cuts at `{{` and the next `}}`; without a closing `}}` the rest is text. */
  function Pieces(s: string): seq<Piece>
    decreases |s|
  {
    match FindPair(s, '{')
    case None => [Text(s)]
    case Some(open) =>
      var inside := s[open + 2..];
      match FindPair(inside, '}')
      case None => [Text(s[..open]), Text("{{" + inside)]
      case Some(close) => [Text(s[..open]), Tag(Trim(inside[..close]))] + Pieces(inside[close + 2..])
  }

  function LeftAsIs(key: string): string {
    "{{ " + key + " }}"
  }

  function RenderedPiece(piece: Piece, variables: Variables): string {
    match piece
    case Text(text) => text
    case Tag(key) => if key in variables then variables[key] else LeftAsIs(key)
  }

  function Rendered(pieces: seq<Piece>, variables: Variables): string {
    if pieces == [] then "" else RenderedPiece(pieces[0], variables) + Rendered(pieces[1..], variables)
  }

  /** The first key without a value. */
  function FirstUnknown(pieces: seq<Piece>, variables: Variables): Option<string> {
    if pieces == [] then None
    else if pieces[0].Tag? && pieces[0].key !in variables then Some(pieces[0].key)
    else FirstUnknown(pieces[1..], variables)
  }

  /** Strict rendering stops at the first key without a value. */
  function RenderedStrictly(pieces: seq<Piece>, variables: Variables): Result<string, string> {
    if pieces == [] then Ok("")
    else if pieces[0].Tag? && pieces[0].key !in variables then Err(pieces[0].key)
    else
      match RenderedStrictly(pieces[1..], variables)
      case Err(key) => Err(key)
      case Ok(rest) => Ok(RenderedPiece(pieces[0], variables) + rest)
  }

  /** What the scan returns: an unknown key is an error in strict mode, and stays as it is otherwise. */
  function Applied(content: string, variables: Variables, strict: bool): Result<string, string> {
    if strict then RenderedStrictly(Pieces(content), variables) else Ok(Rendered(Pieces(content), variables))
  }

  /** Strict success gives the text of the lenient run; strict failure names the first unknown key. */
  lemma {:induction false} StrictIsLenientUnlessUnknown(pieces: seq<Piece>, variables: Variables)
    ensures RenderedStrictly(pieces, variables)
         == (match FirstUnknown(pieces, variables) case Some(key) => Err(key) case None => Ok(Rendered(pieces, variables)))
  {
    if pieces != [] {
      StrictIsLenientUnlessUnknown(pieces[1..], variables);
    }
  }

  // ---- one round of the scan ----

  lemma LastStep(remaining: string, variables: Variables)
    requires FindPair(remaining, '{').None?
    ensures Rendered(Pieces(remaining), variables) == remaining
    ensures FirstUnknown(Pieces(remaining), variables).None?
  {
    assert [Text(remaining)][1..] == [];
    assert remaining + "" == remaining;
  }

  lemma UnclosedStep(remaining: string, variables: Variables)
    requires FindPair(remaining, '{').Some?
    requires FindPair(remaining[FindPair(remaining, '{').value + 2..], '}').None?
    ensures var open := FindPair(remaining, '{').value;
            Rendered(Pieces(remaining), variables) == remaining[..open] + "{{" + remaining[open + 2..]
    ensures FirstUnknown(Pieces(remaining), variables).None?
  {
    var open := FindPair(remaining, '{').value;
    var p, q := Text(remaining[..open]), Text("{{" + remaining[open + 2..]);
    assert Pieces(remaining) == [p, q];
    assert [p, q][1..] == [q] && [q][1..] == [];
    assert Rendered([q], variables) == q.text + Rendered([], variables) == q.text;
    assert FirstUnknown([q], variables) == None;
    assert p.text + q.text == p.text + "{{" + remaining[open + 2..];
  }

  function TagKey(s: string): string
    requires FindPair(s, '{').Some? && FindPair(s[FindPair(s, '{').value + 2..], '}').Some?
  {
    var inside := s[FindPair(s, '{').value + 2..];
    Trim(inside[..FindPair(inside, '}').value])
  }

  function TagRest(s: string): string
    requires FindPair(s, '{').Some? && FindPair(s[FindPair(s, '{').value + 2..], '}').Some?
  {
    var inside := s[FindPair(s, '{').value + 2..];
    inside[FindPair(inside, '}').value + 2..]
  }

  lemma TagStep(remaining: string, variables: Variables)
    requires FindPair(remaining, '{').Some?
    requires FindPair(remaining[FindPair(remaining, '{').value + 2..], '}').Some?
    ensures var open := FindPair(remaining, '{').value;
            var key, rest := TagKey(remaining), TagRest(remaining);
            && Rendered(Pieces(remaining), variables)
               == remaining[..open] + RenderedPiece(Tag(key), variables) + Rendered(Pieces(rest), variables)
            && FirstUnknown(Pieces(remaining), variables)
               == (if key in variables then FirstUnknown(Pieces(rest), variables) else Some(key))
  {
    TextThenTag(remaining[..FindPair(remaining, '{').value], TagKey(remaining), Pieces(TagRest(remaining)), variables);
  }

  lemma TextThenTag(text: string, key: string, rest: seq<Piece>, variables: Variables)
    ensures Rendered([Text(text), Tag(key)] + rest, variables)
         == text + RenderedPiece(Tag(key), variables) + Rendered(rest, variables)
    ensures FirstUnknown([Text(text), Tag(key)] + rest, variables)
         == if key in variables then FirstUnknown(rest, variables) else Some(key)
  {
    var pieces := [Text(text), Tag(key)] + rest;
    assert pieces[1..] == [Tag(key)] + rest && ([Tag(key)] + rest)[1..] == rest;
    assert Rendered(pieces[1..], variables) == RenderedPiece(Tag(key), variables) + Rendered(rest, variables);
    assert FirstUnknown(pieces, variables) == FirstUnknown(pieces[1..], variables);
  }

  /** `s` begins with the text `before` and a tag of `key`, and `rest` follows. */
  predicate IsTag(s: string, before: string, key: string, rest: string) {
    && FindPair(s, '{').Some? && FindPair(s[FindPair(s, '{').value + 2..], '}').Some?
    && before == s[..FindPair(s, '{').value] && key == TagKey(s) && rest == TagRest(s)
  }

  /** `s` is the text `before` and a tag that is never closed. */
  predicate IsUnclosed(s: string, before: string, inside: string) {
    && FindPair(s, '{').Some? && before == s[..FindPair(s, '{').value]
    && inside == s[FindPair(s, '{').value + 2..] && FindPair(inside, '}').None?
  }

  /** What is written so far and what remains make up the whole; a strict run has met no unknown key yet. */
  ghost predicate InSync(content: string, written: string, remaining: string, variables: Variables, strict: bool) {
    && written + Rendered(Pieces(remaining), variables) == Rendered(Pieces(content), variables)
    && (strict ==> FirstUnknown(Pieces(remaining), variables) == FirstUnknown(Pieces(content), variables))
  }

  lemma StartInSync(content: string, variables: Variables, strict: bool)
    ensures InSync(content, "", content, variables, strict)
  {
    assert "" + Rendered(Pieces(content), variables) == Rendered(Pieces(content), variables);
  }

  lemma TagRound(content: string, written: string, remaining: string, variables: Variables, strict: bool,
                 before: string, key: string, rest: string)
    requires InSync(content, written, remaining, variables, strict) && IsTag(remaining, before, key, rest)
    requires key in variables || !strict
    ensures InSync(content, written + before + RenderedPiece(Tag(key), variables), rest, variables, strict)
  {
    TagStep(remaining, variables);
    Joined4(written, before, RenderedPiece(Tag(key), variables), Rendered(Pieces(rest), variables));
  }

  lemma UnknownRound(content: string, written: string, remaining: string, variables: Variables,
                     before: string, key: string, rest: string)
    requires InSync(content, written, remaining, variables, true) && IsTag(remaining, before, key, rest)
    requires key !in variables
    ensures Applied(content, variables, true) == Err(key)
  {
    TagStep(remaining, variables);
    StrictIsLenientUnlessUnknown(Pieces(content), variables);
  }

  lemma UnclosedRound(content: string, written: string, remaining: string, variables: Variables, strict: bool,
                      before: string, inside: string)
    requires InSync(content, written, remaining, variables, strict) && IsUnclosed(remaining, before, inside)
    ensures InSync(content, written + (before + "{{" + inside), "", variables, strict)
  {
    UnclosedStep(remaining, variables);
    LastStep("", variables);
  }

  lemma LastRound(content: string, written: string, remaining: string, variables: Variables, strict: bool)
    requires InSync(content, written, remaining, variables, strict) && FindPair(remaining, '{').None?
    ensures Applied(content, variables, strict) == Ok(written + remaining)
  {
    LastStep(remaining, variables);
    StrictIsLenientUnlessUnknown(Pieces(content), variables);
  }

  lemma Joined4(a: string, b: string, c: string, d: string)
    ensures a + (b + c + d) == a + b + c + d
  {
  }

  /** The single scan of the source. Values go straight to the output and are never looked at again. */
  method ApplyTemplate(content: string, variables: Variables, strict: bool) returns (r: Result<string, string>)
    ensures r == Applied(content, variables, strict)
  {
    var result := "";
    var remaining := content;
    var open := FindPair(remaining, '{');
    StartInSync(content, variables, strict);
    while open.Some?
      invariant open == FindPair(remaining, '{')
      invariant InSync(content, result, remaining, variables, strict)
      decreases |remaining|
    {
      var before, inside := remaining[..open.value], remaining[open.value + 2..];
      var close := FindPair(inside, '}');
      if close.Some? {
        var key, rest := Trim(inside[..close.value]), inside[close.value + 2..];
        assert IsTag(remaining, before, key, rest);
        if key in variables {
          TagRound(content, result, remaining, variables, strict, before, key, rest);
          result := result + before + variables[key];
        } else if strict {
          UnknownRound(content, result, remaining, variables, before, key, rest);
          return Err(key);
        } else {
          TagRound(content, result, remaining, variables, strict, before, key, rest);
          result := result + before + LeftAsIs(key);
        }
        remaining := rest;
      } else {
        UnclosedRound(content, result, remaining, variables, strict, before, inside);
        result := result + (before + "{{" + inside);
        remaining := "";
      }
      open := FindPair(remaining, '{');
    }
    LastRound(content, result, remaining, variables, strict);
    return Ok(result + remaining);
  }

  // ---- laws ----

  /** A strict run fails exactly when a tag has no value, and names the first such tag. */
  lemma {:induction false} StrictNamesTheFirstUnknown(pieces: seq<Piece>, variables: Variables, key: string)
    ensures FirstUnknown(pieces, variables) == Some(key) <==>
              exists i :: 0 <= i < |pieces| && pieces[i] == Tag(key) && key !in variables
                       && forall j :: 0 <= j < i ==> pieces[j].Tag? ==> pieces[j].key in variables
    ensures FirstUnknown(pieces, variables).None? <==>
              forall i :: 0 <= i < |pieces| ==> pieces[i].Tag? ==> pieces[i].key in variables
  {
    if pieces != [] {
      var rest := pieces[1..];
      StrictNamesTheFirstUnknown(rest, variables, key);
      assert forall i :: 0 < i < |pieces| ==> pieces[i] == rest[i - 1];
      if FirstUnknown(rest, variables) == Some(key) && !(pieces[0].Tag? && pieces[0].key !in variables) {
        var i :| 0 <= i < |rest| && rest[i] == Tag(key) && key !in variables
              && forall j :: 0 <= j < i ==> rest[j].Tag? ==> rest[j].key in variables;
        assert pieces[i + 1] == Tag(key);
      }
    }
  }

  // ---- what becomes of a text, of a tag, and of an unclosed one ----

  /** A text without `{{` stays as it is. */
  lemma TextStays(s: string, variables: Variables, strict: bool)
    requires NoPair(s, '{')
    ensures Applied(s, variables, strict) == Ok(s)
  {
    LastStep(s, variables);
    StrictIsLenientUnlessUnknown(Pieces(s), variables);
  }

  /** So does one whose first `{{` is never closed. */
  lemma UnclosedTagStays(pre: string, inside: string, variables: Variables, strict: bool)
    requires NoPair(pre, '{') && !EndsWith(pre, '{') && NoPair(inside, '}')
    ensures Applied(pre + "{{" + inside, variables, strict) == Ok(pre + "{{" + inside)
  {
    var s := pre + ['{', '{'] + inside;
    FirstPair(pre, '{', inside);
    assert s[..|pre|] == pre && s[|pre| + 2..] == inside;
    UnclosedStep(s, variables);
    StrictIsLenientUnlessUnknown(Pieces(s), variables);
  }

  lemma TagIsFound(s: string, pre: string, raw: string, post: string)
    requires s == pre + "{{" + raw + "}}" + post
    requires NoPair(pre, '{') && !EndsWith(pre, '{') && NoPair(raw, '}') && !EndsWith(raw, '}')
    ensures IsTag(s, pre, Trim(raw), post)
  {
    var inside := raw + ['}', '}'] + post;
    Braces(pre, raw, post);
    FirstPair(pre, '{', inside);
    FirstPair(raw, '}', post);
    TagIsThere(s, pre, inside, raw, post);
  }

  lemma Braces(pre: string, raw: string, post: string)
    ensures pre + "{{" + raw + "}}" + post == pre + ['{', '{'] + (raw + ['}', '}'] + post)
  {
  }

  lemma TagIsThere(s: string, pre: string, inside: string, raw: string, post: string)
    requires s == pre + ['{', '{'] + inside && inside == raw + ['}', '}'] + post
    requires FindPair(s, '{') == Some(|pre|) && FindPair(inside, '}') == Some(|raw|)
    ensures IsTag(s, pre, Trim(raw), post)
  {
    assert s[..|pre|] == pre && s[|pre| + 2..] == inside;
    assert inside[..|raw|] == raw && inside[|raw| + 2..] == post;
  }

  lemma TagIsApplied(s: string, pre: string, key: string, post: string, variables: Variables, strict: bool)
    requires IsTag(s, pre, key, post)
    ensures Applied(s, variables, strict) ==
            if strict && key !in variables then Err(key)
            else
              match Applied(post, variables, strict)
              case Err(unknown) => Err(unknown)
              case Ok(rest) => Ok(pre + RenderedPiece(Tag(key), variables) + rest)
  {
    TagStep(s, variables);
    StrictIsLenientUnlessUnknown(Pieces(s), variables);
    StrictIsLenientUnlessUnknown(Pieces(post), variables);
  }

  /** The first tag, its key trimmed, is replaced by the value of its key, strictly or not, and the rest is treated in the
      same way: neither the text before it nor the value is looked at again. */
  lemma KnownTagBecomesItsValue(pre: string, raw: string, post: string, variables: Variables, strict: bool)
    requires NoPair(pre, '{') && !EndsWith(pre, '{') && NoPair(raw, '}') && !EndsWith(raw, '}')
    requires Trim(raw) in variables
    ensures Applied(pre + "{{" + raw + "}}" + post, variables, strict) ==
            match Applied(post, variables, strict)
            case Err(unknown) => Err(unknown)
            case Ok(rest) => Ok(pre + variables[Trim(raw)] + rest)
  {
    TagIsFound(pre + "{{" + raw + "}}" + post, pre, raw, post);
    TagIsApplied(pre + "{{" + raw + "}}" + post, pre, Trim(raw), post, variables, strict);
  }

  /** An unknown key is the error of a strict run; otherwise its tag stays, with one space on each side of the key. */
  lemma UnknownTagStaysOrFails(pre: string, raw: string, post: string, variables: Variables, strict: bool)
    requires NoPair(pre, '{') && !EndsWith(pre, '{') && NoPair(raw, '}') && !EndsWith(raw, '}')
    requires Trim(raw) !in variables
    ensures strict ==> Applied(pre + "{{" + raw + "}}" + post, variables, true) == Err(Trim(raw))
    ensures !strict ==>
              Applied(pre + "{{" + raw + "}}" + post, variables, false) ==
              Ok(pre + ("{{ " + Trim(raw) + " }}") + Applied(post, variables, false).value)
  {
    TagIsFound(pre + "{{" + raw + "}}" + post, pre, raw, post);
    TagIsApplied(pre + "{{" + raw + "}}" + post, pre, Trim(raw), post, variables, strict);
  }

  /** The lenient pass without any variables. */
  function Passed(s: string): string {
    Rendered(Pieces(s), map[])
  }

  lemma LeftTagIsFoundAgain(pre: string, key: string, after: string)
    requires NoPair(pre, '{') && !EndsWith(pre, '{') && IsTrimmed(key) && NoPair(key, '}')
    ensures IsTag(pre + LeftAsIs(key) + after, pre, key, after)
  {
    NoPairJoin(" ", key, '}');
    NoPairJoin(" " + key, " ", '}');
    TrimPadded(key);
    LeftTagIsATag(pre, key, after);
    TagIsFound(pre + LeftAsIs(key) + after, pre, " " + key + " ", after);
  }

  lemma LeftTagIsATag(pre: string, key: string, after: string)
    ensures pre + LeftAsIs(key) + after == pre + "{{" + (" " + key + " ") + "}}" + after
  {
  }

  lemma KeysHaveNoPair(s: string)
    requires FindPair(s, '{').Some? && FindPair(s[FindPair(s, '{').value + 2..], '}').Some?
    ensures IsTrimmed(TagKey(s)) && NoPair(TagKey(s), '}')
  {
    var inside := s[FindPair(s, '{').value + 2..];
    var raw := inside[..FindPair(inside, '}').value];
    BeforeFirstPair(inside, '}');
    var from, to := TrimIsTrimmed(raw);
    PartHasNoPair(raw, '}', from, to);
  }

  /** Without variables a second pass changes nothing: not for nested or empty tags, nor for an unclosed one. */
  lemma {:induction false} PassedTwiceIsPassedOnce(s: string)
    ensures Passed(Passed(s)) == Passed(s)
    decreases |s|
  {
    var open := FindPair(s, '{');
    if open.None? {
      LastStep(s, map[]);
    } else if FindPair(s[open.value + 2..], '}').None? {
      UnclosedStep(s, map[]);
      BeforeFirstPair(s, '{');
      assert Passed(s) == s;
    } else {
      var pre, key, rest := s[..open.value], TagKey(s), TagRest(s);
      PassedTwiceIsPassedOnce(rest);
      BeforeFirstPair(s, '{');
      KeysHaveNoPair(s);
      TagStep(s, map[]);
      LeftTagIsFoundAgain(pre, key, Passed(rest));
      TagStep(pre + LeftAsIs(key) + Passed(rest), map[]);
    }
  }
}
