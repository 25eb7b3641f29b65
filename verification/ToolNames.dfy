/**
  Names of MCP tools (crates/openslate-core/src/mcp.rs): expanding the naming templates, and finding the
  server of a tool again from its exposed name.
 */
module ToolNames {
  import opened Wrappers
  import opened Strings

  const DEFAULT_TOOL_NAME_TEMPLATE := "{prefix}_{server}__{tool}"
  const DEFAULT_BUILTIN_TOOL_NAME_TEMPLATE := "{prefix}_{tool}"

  /** What a template consists of, whatever the values are. */
  datatype Token = Lit(c: char) | PrefixSlot | ServerSlot | ToolSlot

  /** `part` stands at `i`. */
  predicate At(t: string, i: nat, part: string) {
    i + |part| <= |t| && SameFrom(t, i, part, 0)
  }

  predicate SameFrom(t: string, i: nat, part: string, k: nat)
    requires i + |part| <= |t| && k <= |part|
    decreases |part| - k
  {
    k == |part| || (t[i + k] == part[k] && SameFrom(t, i, part, k + 1))
  }

  /** Cuts a template from position `i` on; without a server `{server}` is text like any unknown slot. */
  function Tokens(t: string, i: nat, hasServer: bool): seq<Token>
    requires i <= |t|
    decreases |t| - i
  {
    if i == |t| then []
    else if At(t, i, "{prefix}") then [PrefixSlot] + Tokens(t, i + 8, hasServer)
    else if At(t, i, "{server}") && hasServer then [ServerSlot] + Tokens(t, i + 8, hasServer)
    else if At(t, i, "{tool}") then [ToolSlot] + Tokens(t, i + 6, hasServer)
    else [Lit(t[i])] + Tokens(t, i + 1, hasServer)
  }

  datatype Values = Values(prefix: string, server: string, tool: string)

  function RenderedToken(token: Token, v: Values): string {
    match token
    case Lit(c) => [c]
    case PrefixSlot => v.prefix
    case ServerSlot => v.server
    case ToolSlot => v.tool
  }

  function Rendered(tokens: seq<Token>, v: Values): string {
    if tokens == [] then "" else RenderedToken(tokens[0], v) + Rendered(tokens[1..], v)
  }

  function ValuesOf(prefix: string, server: Option<string>, tool: string): Values {
    Values(prefix, if server.Some? then server.value else "", tool)
  }

  /** Cut first, put values in afterwards. */
  function Expanded(template: string, prefix: string, server: Option<string>, tool: string): string {
    Rendered(Tokens(template, 0, server.Some?), ValuesOf(prefix, server, tool))
  }

  lemma RenderedFirst(token: Token, rest: seq<Token>, v: Values)
    ensures Rendered([token] + rest, v) == RenderedToken(token, v) + Rendered(rest, v)
  {
    assert ([token] + rest)[1..] == rest;
  }

  function FindChar(t: string, c: char, i: nat): (at: Option<nat>)
    requires i <= |t|
    ensures at.Some? ==> i <= at.value < |t| && t[at.value] == c && forall j :: i <= j < at.value ==> t[j] != c
    ensures at.None? ==> forall j :: i <= j < |t| ==> t[j] != c
    decreases |t| - i
  {
    if i == |t| then None else if t[i] == c then Some(i) else FindChar(t, c, i + 1)
  }

  /** What is still to be written from position `i` on. */
  function Rest(t: string, i: nat, hasServer: bool, v: Values): string
    requires i <= |t|
  {
    Rendered(Tokens(t, i, hasServer), v)
  }

  lemma OneCharIsCopied(t: string, i: nat, hasServer: bool, v: Values)
    requires i < |t| && t[i] != '{'
    ensures Rest(t, i, hasServer, v) == [t[i]] + Rest(t, i + 1, hasServer, v)
  {
    NotASlot(t, i);
    RenderedFirst(Lit(t[i]), Tokens(t, i + 1, hasServer), v);
  }

  lemma OneMoreInFront(s: string, i: nat, to: nat, rest: string)
    requires i < to <= |s|
    ensures [s[i]] + (s[i + 1..to] + rest) == s[i..to] + rest
  {
  }

  /** A stretch without `{` is copied. */
  lemma {:induction false} TextIsCopied(t: string, i: nat, to: nat, hasServer: bool, v: Values)
    requires i <= to <= |t| && forall j :: i <= j < to ==> t[j] != '{'
    ensures Rest(t, i, hasServer, v) == t[i..to] + Rest(t, to, hasServer, v)
    decreases |t| - i
  {
    if i == to {
      assert t[i..to] == "" && "" + Rest(t, to, hasServer, v) == Rest(t, to, hasServer, v);
    } else {
      TextIsCopied(t, i + 1, to, hasServer, v);
      OneCharIsCopied(t, i, hasServer, v);
      OneMoreInFront(t, i, to, Rest(t, to, hasServer, v));
    }
  }

  lemma {:induction false} SameAt(t: string, i: nat, part: string, from: nat, k: nat)
    requires i + |part| <= |t| && from <= k < |part|
    ensures SameFrom(t, i, part, from) ==> t[i + k] == part[k]
    decreases |part| - from
  {
    if from < k {
      SameAt(t, i, part, from + 1, k);
    }
  }

  lemma AtChar(t: string, i: nat, part: string, k: nat)
    requires k < |part|
    ensures At(t, i, part) ==> t[i + k] == part[k]
  {
    if i + |part| <= |t| {
      SameAt(t, i, part, 0, k);
    }
  }

  lemma {:induction false} SliceSame(t: string, i: nat, to: nat, part: string, from: nat)
    requires to <= |t| && to == i + |part| && t[i..to] == part && from <= |part|
    ensures SameFrom(t, i, part, from)
    decreases |part| - from
  {
    if from < |part| {
      assert t[i..to][from] == t[i + from];
      SliceSame(t, i, to, part, from + 1);
    }
  }

  lemma SliceIsAt(t: string, i: nat, to: nat, part: string)
    requires to <= |t| && to == i + |part| && t[i..to] == part
    ensures At(t, i, part)
  {
    SliceSame(t, i, to, part, 0);
  }

  lemma NotASlot(t: string, i: nat)
    requires i < |t| && t[i] != '{'
    ensures !At(t, i, "{prefix}") && !At(t, i, "{server}") && !At(t, i, "{tool}")
  {
    AtChar(t, i, "{prefix}", 0);
    AtChar(t, i, "{server}", 0);
    AtChar(t, i, "{tool}", 0);
  }

  lemma SlotsDiffer(t: string, i: nat)
    ensures !(At(t, i, "{prefix}") && At(t, i, "{server}"))
    ensures !(At(t, i, "{prefix}") && At(t, i, "{tool}"))
    ensures !(At(t, i, "{server}") && At(t, i, "{tool}"))
  {
    AtChar(t, i, "{prefix}", 1);
    AtChar(t, i, "{server}", 1);
    AtChar(t, i, "{tool}", 1);
  }

  /** What is written and what is left to write make up the expansion. */
  ghost predicate InSync(whole: string, out: string, template: string, at: nat, server: Option<string>, v: Values) {
    at <= |template| && out + Rest(template, at, server.Some?, v) == whole
  }

  lemma CopyRound(whole: string, out: string, template: string, at: nat, to: nat, server: Option<string>, v: Values)
    requires InSync(whole, out, template, at, server, v)
    requires at <= to <= |template| && forall j :: at <= j < to ==> template[j] != '{'
    ensures InSync(whole, out + template[at..to], template, to, server, v)
  {
    TextIsCopied(template, at, to, server.Some?, v);
    Regroup(out, template[at..to], Rest(template, to, server.Some?, v));
  }

  lemma StartInSync(template: string, prefix: string, server: Option<string>, tool: string)
    ensures InSync(Expanded(template, prefix, server, tool), "", template, 0, server, ValuesOf(prefix, server, tool))
  {
    assert "" + Expanded(template, prefix, server, tool) == Expanded(template, prefix, server, tool);
  }

  /** At `pos` stands something that is written as `text`, and what follows it starts at `next`. */
  ghost predicate Writes(template: string, pos: nat, server: Option<string>, v: Values, text: string, next: nat) {
    && pos < next <= |template|
    && Rest(template, pos, server.Some?, v) == text + Rest(template, next, server.Some?, v)
  }

  lemma Round(whole: string, out: string, template: string, at: nat, to: nat, server: Option<string>, v: Values,
              text: string, next: nat)
    requires InSync(whole, out, template, at, server, v)
    requires at <= to && Writes(template, to, server, v, text, next) && forall j :: at <= j < to ==> template[j] != '{'
    ensures InSync(whole, out + template[at..to] + text, template, next, server, v)
  {
    CopyRound(whole, out, template, at, to, server, v);
    Regroup(out + template[at..to], text, Rest(template, next, server.Some?, v));
  }

  lemma LastRound(whole: string, out: string, template: string, at: nat, server: Option<string>, v: Values)
    requires InSync(whole, out, template, at, server, v)
    requires forall j :: at <= j < |template| ==> template[j] != '{'
    ensures out + template[at..] == whole
  {
    CopyRound(whole, out, template, at, |template|, server, v);
    assert template[at..] == template[at..|template|];
  }

  /** The single scan of the source; the values it writes are not scanned again. */
  method ExpandTemplate(template: string, prefix: string, server: Option<string>, tool: string) returns (out: string)
    ensures out == Expanded(template, prefix, server, tool)
  {
    ghost var whole := Expanded(template, prefix, server, tool);
    var values := ValuesOf(prefix, server, tool);
    out := "";
    StartInSync(template, prefix, server, tool);
    var at: nat := 0;
    var open := FindChar(template, '{', at);
    while open.Some?
      invariant at <= |template| && open == FindChar(template, '{', at)
      invariant InSync(whole, out, template, at, server, values)
      decreases |template| - at
    {
      var text, next := SlotText(template, open.value, server, values);
      Round(whole, out, template, at, open.value, server, values, text, next);
      out := out + template[at..open.value] + text;
      at := next;
      open := FindChar(template, '{', at);
    }
    LastRound(whole, out, template, at, server, values);
    out := out + template[at..];
  }

  /** What the scan writes for a `{`: the value of the slot that starts there, or the brace itself. */
  method SlotText(template: string, pos: nat, server: Option<string>, v: Values) returns (text: string, next: nat)
    requires pos < |template| && template[pos] == '{'
    ensures Writes(template, pos, server, v, text, next)
  {
    var slot := SlotAt(template, pos, server);
    text, next := RenderedToken(slot, v), pos + Width(slot);
    StepIsToken(template, pos, server, v);
  }

  /** What the scan recognises at a `{`, tried in this order. */
  function SlotAt(template: string, pos: nat, server: Option<string>): Token {
    if At(template, pos, "{prefix}") then PrefixSlot
    else if At(template, pos, "{server}") then (if server.Some? then ServerSlot else Lit('{'))
    else if At(template, pos, "{tool}") then ToolSlot
    else Lit('{')
  }

  function Width(token: Token): nat {
    match token
    case Lit(_) => 1
    case PrefixSlot => 8
    case ServerSlot => 8
    case ToolSlot => 6
  }

  lemma StepIsToken(template: string, pos: nat, server: Option<string>, v: Values)
    requires pos < |template| && template[pos] == '{'
    ensures var step := SlotAt(template, pos, server);
            && pos + Width(step) <= |template|
            && Rest(template, pos, server.Some?, v)
               == RenderedToken(step, v) + Rest(template, pos + Width(step), server.Some?, v)
  {
    SlotsDiffer(template, pos);
    var step := SlotAt(template, pos, server);
    RenderedFirst(step, Tokens(template, pos + Width(step), server.Some?), v);
  }

  // ---- names ----

  /** An upstream name with `__` is split there and goes through the large template, any other through the small
      one. */
  function FormatToolName(template: string, builtinTemplate: string, prefix: string, upstream: string): string {
    match FindPair(upstream, '_')
    case None => Expanded(builtinTemplate, prefix, None, upstream)
    case Some(at) => Expanded(template, prefix, Some(upstream[..at]), upstream[at + 2..])
  }

  predicate HasPrefix(s: string, prefix: string) {
    |prefix| <= |s| && s[..|prefix|] == prefix
  }

  function StripPrefix(s: string, prefix: string): string {
    if HasPrefix(s, prefix) then s[|prefix|..] else s
  }

  /** The server a tool belongs to, read off its exposed name. */
  function ServerSlugOf(exposed: string, namespace: Option<string>): Option<string> {
    if namespace.None? then None
    else
      match FindPair(exposed, '_')
      case None => namespace
      case Some(at) =>
        var slug := StripPrefix(exposed[..at], namespace.value + "_");
        Some(if slug == "" then namespace.value else slug)
  }

  // ---- the default templates ----

  /** Where the slots of the default template stand. */
  lemma DefaultSlots()
    ensures var t := DEFAULT_TOOL_NAME_TEMPLATE;
            At(t, 0, "{prefix}") && At(t, 9, "{server}") && At(t, 19, "{tool}")
  {
    var t := DEFAULT_TOOL_NAME_TEMPLATE;
    assert t[0..8] == "{prefix}";
    SliceIsAt(t, 0, 8, "{prefix}");
    assert t[9..17] == "{server}";
    SliceIsAt(t, 9, 17, "{server}");
    assert t[19..25] == "{tool}";
    SliceIsAt(t, 19, 25, "{tool}");
  }

  lemma DefaultTail()
    ensures Tokens(DEFAULT_TOOL_NAME_TEMPLATE, 17, true) == [Lit('_'), Lit('_'), ToolSlot]
  {
    var t := DEFAULT_TOOL_NAME_TEMPLATE;
    DefaultSlots();
    NotASlot(t, 17);
    NotASlot(t, 18);
    SlotsDiffer(t, 19);
    assert Tokens(t, 25, true) == [];
    assert Tokens(t, 19, true) == [ToolSlot];
    assert Tokens(t, 18, true) == [Lit('_'), ToolSlot];
  }

  lemma DefaultTokens()
    ensures Tokens(DEFAULT_TOOL_NAME_TEMPLATE, 0, true)
         == [PrefixSlot, Lit('_'), ServerSlot, Lit('_'), Lit('_'), ToolSlot]
  {
    var t := DEFAULT_TOOL_NAME_TEMPLATE;
    DefaultSlots();
    DefaultTail();
    NotASlot(t, 8);
    SlotsDiffer(t, 9);
    assert Tokens(t, 9, true) == [ServerSlot, Lit('_'), Lit('_'), ToolSlot];
    assert Tokens(t, 8, true) == [Lit('_'), ServerSlot, Lit('_'), Lit('_'), ToolSlot];
  }

  lemma DefaultBuiltinTokens()
    ensures Tokens(DEFAULT_BUILTIN_TOOL_NAME_TEMPLATE, 0, false) == [PrefixSlot, Lit('_'), ToolSlot]
  {
    var t := DEFAULT_BUILTIN_TOOL_NAME_TEMPLATE;
    assert t[0..8] == "{prefix}";
    SliceIsAt(t, 0, 8, "{prefix}");
    assert t[9..15] == "{tool}";
    SliceIsAt(t, 9, 15, "{tool}");
    NotASlot(t, 8);
    SlotsDiffer(t, 9);
    assert Tokens(t, 15, false) == [];
    assert Tokens(t, 9, false) == [ToolSlot];
    assert Tokens(t, 8, false) == [Lit('_'), ToolSlot];
  }

  /** Under the default templates a name is the prefix, an underscore and the upstream name, whether or not the
      upstream name has a server part. */
  lemma DefaultNamesAreJoined(prefix: string, upstream: string)
    ensures FormatToolName(DEFAULT_TOOL_NAME_TEMPLATE, DEFAULT_BUILTIN_TOOL_NAME_TEMPLATE, prefix, upstream)
         == prefix + "_" + upstream
  {
    if FindPair(upstream, '_').None? {
      DefaultBuiltinName(prefix, upstream);
    } else {
      BeforeFirstPair(upstream, '_');
      var at := FindPair(upstream, '_').value;
      DefaultName(prefix, upstream[..at], upstream[at + 2..]);
    }
  }

  lemma DefaultBuiltinName(prefix: string, tool: string)
    ensures Expanded(DEFAULT_BUILTIN_TOOL_NAME_TEMPLATE, prefix, None, tool) == prefix + "_" + tool
  {
    DefaultBuiltinTokens();
    ThreeTokens(ValuesOf(prefix, None, tool));
  }

  lemma DefaultName(prefix: string, server: string, tool: string)
    ensures Expanded(DEFAULT_TOOL_NAME_TEMPLATE, prefix, Some(server), tool) == prefix + "_" + (server + "__" + tool)
  {
    DefaultTokens();
    SixTokens(ValuesOf(prefix, Some(server), tool));
  }

  lemma ThreeTokens(v: Values)
    ensures Rendered([PrefixSlot, Lit('_'), ToolSlot], v) == v.prefix + "_" + v.tool
  {
    RenderedFirst(ToolSlot, [], v);
    RenderedFirst(Lit('_'), [ToolSlot], v);
    RenderedFirst(PrefixSlot, [Lit('_'), ToolSlot], v);
    assert [ToolSlot] + [] == [ToolSlot];
    assert v.prefix + ("_" + (v.tool + "")) == v.prefix + "_" + v.tool;
  }

  lemma SixTokens(v: Values)
    ensures Rendered([PrefixSlot, Lit('_'), ServerSlot, Lit('_'), Lit('_'), ToolSlot], v)
         == v.prefix + "_" + (v.server + "__" + v.tool)
  {
    RenderedFirst(ToolSlot, [], v);
    RenderedFirst(Lit('_'), [ToolSlot], v);
    RenderedFirst(Lit('_'), [Lit('_'), ToolSlot], v);
    RenderedFirst(ServerSlot, [Lit('_'), Lit('_'), ToolSlot], v);
    RenderedFirst(Lit('_'), [ServerSlot, Lit('_'), Lit('_'), ToolSlot], v);
    RenderedFirst(PrefixSlot, [Lit('_'), ServerSlot, Lit('_'), Lit('_'), ToolSlot], v);
    assert [ToolSlot] + [] == [ToolSlot];
    assert v.prefix + ("_" + (v.server + ("_" + ("_" + (v.tool + ""))))) == v.prefix + "_" + (v.server + "__" + v.tool);
  }

  /** `server__tool` splits back into these two, and the server part may follow a prefix. */
  predicate GoodParts(server: string, tool: string) {
    FindPair(server + "__" + tool, '_') == Some(|server|) && server != "" && !StartsWith(server, '_')
  }

  /** The slug found in the default name is the server the name was made from. */
  predicate SlugFound(prefix: string, server: string, tool: string) {
    var exposed := FormatToolName(DEFAULT_TOOL_NAME_TEMPLATE, DEFAULT_BUILTIN_TOOL_NAME_TEMPLATE, prefix,
                                  server + "__" + tool);
    ServerSlugOf(exposed, Some(prefix)) == Some(server)
  }

  lemma SlugInvertsDefaultNaming(prefix: string, server: string, tool: string)
    requires GoodParts(server, tool)
    requires NoPair(prefix, '_') && !EndsWith(prefix, '_')
    ensures SlugFound(prefix, server, tool)
  {
    var upstream := server + "__" + tool;
    DefaultNamesAreJoined(prefix, upstream);
    BeforeFirstPair(upstream, '_');
    SplitJoined(prefix, server, tool);
    SlugOfJoined(prefix, server, tool);
  }

  lemma SplitJoined(prefix: string, server: string, tool: string)
    ensures (server + "__" + tool)[..|server|] == server
    ensures prefix + "_" + (server + "__" + tool) == prefix + "_" + server + ['_', '_'] + tool
  {
  }

  lemma SlugOfJoined(prefix: string, server: string, tool: string)
    requires server != "" && !StartsWith(server, '_') && NoPair(server, '_') && !EndsWith(server, '_')
    requires NoPair(prefix, '_') && !EndsWith(prefix, '_')
    ensures ServerSlugOf(prefix + "_" + server + ['_', '_'] + tool, Some(prefix)) == Some(server)
  {
    var head := prefix + "_" + server;
    NoPairJoin(prefix, "_", '_');
    NoPairJoin(prefix + "_", server, '_');
    FirstPair(head, '_', tool);
    assert (head + ['_', '_'] + tool)[..|head|] == head;
    assert head[..|prefix| + 1] == prefix + "_" && head[|prefix| + 1..] == server;
  }

  lemma PairInFrontIsFirst(front: string, rest: string)
    requires FindPair(front, '_').Some?
    ensures FindPair(front + rest, '_') == FindPair(front, '_')
  {
    var s, at := front + rest, FindPair(front, '_').value;
    assert PairAt(s, '_', at);
    forall j | 0 <= j < at ensures !PairAt(s, '_', j) {
      assert !PairAt(front, '_', j);
    }
  }

  /** Behind a prefix with `__` or a final `_` every tool seems to be of the same server. */
  lemma SlugOfBadPrefix(prefix: string) returns (slug: string)
    requires !NoPair(prefix, '_') || EndsWith(prefix, '_')
    ensures forall rest :: ServerSlugOf(prefix + "_" + rest, Some(prefix)) == Some(slug)
  {
    var front := prefix + "_";
    if !NoPair(prefix, '_') {
      var j :| 0 <= j < |prefix| && PairAt(prefix, '_', j);
      assert PairAt(front, '_', j);
    } else {
      assert PairAt(front, '_', |prefix| - 1);
    }
    var at := FindPair(front, '_').value;
    var head := front[..at];
    slug := if head == "" then prefix else head;
    forall rest ensures ServerSlugOf(front + rest, Some(prefix)) == Some(slug) {
      PairInFrontIsFirst(front, rest);
      assert (front + rest)[..at] == head;
    }
  }

  lemma OneLetterParts(c: char)
    requires c != '_'
    ensures GoodParts([c], "t")
  {
    FirstPair([c], '_', "t");
    assert [c] + "__" + "t" == [c] + ['_', '_'] + "t";
  }

  /** Exactly which prefixes are safe: the slug is found for every server and tool if and only if the prefix
      neither holds `__` nor ends in `_`. */
  lemma SlugFoundIffPrefixIsClean(prefix: string)
    ensures (forall server, tool :: GoodParts(server, tool) ==> SlugFound(prefix, server, tool))
       <==> NoPair(prefix, '_') && !EndsWith(prefix, '_')
  {
    if NoPair(prefix, '_') && !EndsWith(prefix, '_') {
      forall server, tool | GoodParts(server, tool) ensures SlugFound(prefix, server, tool) {
        SlugInvertsDefaultNaming(prefix, server, tool);
      }
    } else {
      var slug := SlugOfBadPrefix(prefix);
      var server := if slug == "x" then "y" else "x";
      OneLetterParts(server[0]);
      assert server == [server[0]];
      var upstream := server + "__" + "t";
      DefaultNamesAreJoined(prefix, upstream);
      assert ServerSlugOf(prefix + "_" + upstream, Some(prefix)) == Some(slug);
      assert !SlugFound(prefix, server, "t");
    }
  }

  // ---- names of bare tools ----

  /** No two underscores next to each other among the literals. */
  predicate NoLitPair(tokens: seq<Token>) {
    forall i :: 0 <= i < |tokens| - 1 ==> !(tokens[i] == Lit('_') && tokens[i + 1] == Lit('_'))
  }

  lemma NoLitPairInFront(token: Token, rest: seq<Token>)
    requires NoLitPair(rest)
    requires token == Lit('_') && rest != [] ==> rest[0] != Lit('_')
    ensures NoLitPair([token] + rest)
  {
    var tokens := [token] + rest;
    forall i | 0 <= i < |tokens| - 1 ensures !(tokens[i] == Lit('_') && tokens[i + 1] == Lit('_')) {
      if i > 0 {
        assert !(rest[i - 1] == Lit('_') && rest[i - 1 + 1] == Lit('_'));
      }
    }
  }

  /** The token at `i` of a template without a server. */
  function TokenAt(t: string, i: nat): Token
    requires i < |t|
  {
    if At(t, i, "{prefix}") then PrefixSlot else if At(t, i, "{tool}") then ToolSlot else Lit(t[i])
  }

  lemma TokensUnfold(t: string, i: nat)
    requires i < |t|
    ensures var token := TokenAt(t, i);
            i + Width(token) <= |t| && Tokens(t, i, false) == [token] + Tokens(t, i + Width(token), false)
  {
  }

  lemma {:induction false} TemplateTokensHaveNoPair(t: string, i: nat)
    requires i <= |t| && NoPair(t, '_')
    ensures NoLitPair(Tokens(t, i, false))
    ensures var tokens := Tokens(t, i, false); tokens != [] && tokens[0] == Lit('_') ==> t[i] == '_'
    decreases |t| - i
  {
    if i < |t| {
      var token := TokenAt(t, i);
      TokensUnfold(t, i);
      TemplateTokensHaveNoPair(t, i + Width(token));
      if token == Lit('_') {
        assert !PairAt(t, '_', i);
      }
      NoLitPairInFront(token, Tokens(t, i + Width(token), false));
    }
  }

  /** `s` can stand anywhere in a name without making a `__`. */
  predicate Harmless(s: string) {
    s != "" && NoPair(s, '_') && !StartsWith(s, '_') && !EndsWith(s, '_')
  }

  lemma {:induction false} RenderedHasNoPair(tokens: seq<Token>, v: Values)
    requires NoLitPair(tokens) && Harmless(v.prefix) && Harmless(v.tool)
    requires ServerSlot !in tokens
    ensures NoPair(Rendered(tokens, v), '_')
    ensures StartsWith(Rendered(tokens, v), '_') ==> tokens != [] && tokens[0] == Lit('_')
  {
    if tokens != [] {
      assert tokens[0] in tokens;
      assert forall i :: 0 <= i < |tokens[1..]| ==> tokens[1..][i] == tokens[i + 1];
      RenderedHasNoPair(tokens[1..], v);
      NoPairJoin(RenderedToken(tokens[0], v), Rendered(tokens[1..], v), '_');
    }
  }

  lemma {:induction false} NoServerSlot(t: string, i: nat)
    requires i <= |t|
    ensures ServerSlot !in Tokens(t, i, false)
    decreases |t| - i
  {
    if i < |t| {
      TokensUnfold(t, i);
      NoServerSlot(t, i + Width(TokenAt(t, i)));
    }
  }

  /** A builtin template without `__` never makes a `__`, so the name of a bare tool is never taken for a name with
      a server part: its scope is the prefix. */
  lemma BareNamesNeverGetAServerPart(template: string, builtinTemplate: string, prefix: string, tool: string)
    requires NoPair(builtinTemplate, '_') && Harmless(prefix) && Harmless(tool)
    ensures var exposed := FormatToolName(template, builtinTemplate, prefix, tool);
            NoPair(exposed, '_') && ServerSlugOf(exposed, Some(prefix)) == Some(prefix)
  {
    var tokens := Tokens(builtinTemplate, 0, false);
    TemplateTokensHaveNoPair(builtinTemplate, 0);
    NoServerSlot(builtinTemplate, 0);
    RenderedHasNoPair(tokens, ValuesOf(prefix, None, tool));
  }
}
