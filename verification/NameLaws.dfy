/**
  What the naming templates and the server lookup come to, piece by piece (crates/openslate-core/src/mcp.rs).
 */
module NameLaws {
  import opened Wrappers
  import opened Strings
  import opened ToolNames

  // ---- a template read from its front ----

  lemma {:induction false} SameFromBehind(a: string, t: string, i: nat, part: string, k: nat)
    requires i + |part| <= |t| && k <= |part|
    ensures SameFrom(a + t, |a| + i, part, k) == SameFrom(t, i, part, k)
    decreases |part| - k
  {
    if k < |part| {
      assert (a + t)[|a| + i + k] == t[i + k];
      SameFromBehind(a, t, i, part, k + 1);
    }
  }

  lemma AtBehind(a: string, t: string, i: nat, part: string)
    ensures At(a + t, |a| + i, part) == At(t, i, part)
  {
    if i + |part| <= |t| {
      SameFromBehind(a, t, i, part, 0);
    }
  }

  lemma {:induction false} TokensBehind(a: string, t: string, i: nat, hasServer: bool)
    requires i <= |t|
    ensures Tokens(a + t, |a| + i, hasServer) == Tokens(t, i, hasServer)
    decreases |t| - i
  {
    if i < |t| {
      AtBehind(a, t, i, "{prefix}");
      AtBehind(a, t, i, "{server}");
      AtBehind(a, t, i, "{tool}");
      assert (a + t)[|a| + i] == t[i];
      TokenBehind(a, t, i, hasServer);
    }
  }

  lemma TokenBehind(a: string, t: string, i: nat, hasServer: bool)
    requires i < |t|
    ensures At(t, i, "{prefix}") || At(t, i, "{server}") ==>
              i + 8 <= |t| && Tokens(a + t, |a| + (i + 8), hasServer) == Tokens(t, i + 8, hasServer)
    ensures At(t, i, "{tool}") ==> i + 6 <= |t| && Tokens(a + t, |a| + (i + 6), hasServer) == Tokens(t, i + 6, hasServer)
    ensures Tokens(a + t, |a| + (i + 1), hasServer) == Tokens(t, i + 1, hasServer)
    decreases |t| - i, 0
  {
    if At(t, i, "{prefix}") || At(t, i, "{server}") {
      TokensBehind(a, t, i + 8, hasServer);
    }
    if At(t, i, "{tool}") {
      TokensBehind(a, t, i + 6, hasServer);
    }
    TokensBehind(a, t, i + 1, hasServer);
  }

  /** What comes out does not depend on what stands in front. */
  lemma RestBehind(a: string, t: string, hasServer: bool, v: Values)
    ensures Rest(a + t, |a|, hasServer, v) == Rest(t, 0, hasServer, v)
  {
    TokensBehind(a, t, 0, hasServer);
  }

  // ---- text, slots and other braces ----

  /** Text in front of a template's first `{` is copied. */
  lemma TextInFront(a: string, t: string, prefix: string, server: Option<string>, tool: string)
    requires '{' !in a
    ensures Expanded(a + t, prefix, server, tool) == a + Expanded(t, prefix, server, tool)
  {
    var v := ValuesOf(prefix, server, tool);
    TextIsCopied(a + t, 0, |a|, server.Some?, v);
    RestBehind(a, t, server.Some?, v);
    assert (a + t)[0..|a|] == a;
  }

  lemma TextAlone(t: string, prefix: string, server: Option<string>, tool: string)
    requires '{' !in t
    ensures Expanded(t, prefix, server, tool) == t
  {
    TextInFront(t, "", prefix, server, tool);
    assert t + "" == t;
  }

  lemma BraceInFront(s: string, t: string, prefix: string, server: Option<string>, tool: string)
    requires s != "" && s[0] == '{' && Width(SlotAt(s + t, 0, server)) == |s|
    ensures Expanded(s + t, prefix, server, tool) ==
            RenderedToken(SlotAt(s + t, 0, server), ValuesOf(prefix, server, tool)) + Expanded(t, prefix, server, tool)
  {
    var v := ValuesOf(prefix, server, tool);
    StepIsToken(s + t, 0, server, v);
    RestBehind(s, t, server.Some?, v);
  }

  /** `{prefix}` is replaced by the prefix. */
  lemma PrefixIsPutIn(t: string, prefix: string, server: Option<string>, tool: string)
    ensures Expanded("{prefix}" + t, prefix, server, tool) == prefix + Expanded(t, prefix, server, tool)
  {
    var whole := "{prefix}" + t;
    assert whole[0..8] == "{prefix}";
    SliceIsAt(whole, 0, 8, "{prefix}");
    BraceInFront("{prefix}", t, prefix, server, tool);
  }

  /** `{tool}` is replaced by the tool. */
  lemma ToolIsPutIn(t: string, prefix: string, server: Option<string>, tool: string)
    ensures Expanded("{tool}" + t, prefix, server, tool) == tool + Expanded(t, prefix, server, tool)
  {
    var whole := "{tool}" + t;
    assert whole[0..6] == "{tool}";
    SliceIsAt(whole, 0, 6, "{tool}");
    SlotsDiffer(whole, 0);
    BraceInFront("{tool}", t, prefix, server, tool);
  }

  /** `{server}` is replaced by the server. */
  lemma ServerIsPutIn(t: string, prefix: string, server: string, tool: string)
    ensures Expanded("{server}" + t, prefix, Some(server), tool) == server + Expanded(t, prefix, Some(server), tool)
  {
    var whole := "{server}" + t;
    assert whole[0..8] == "{server}";
    SliceIsAt(whole, 0, 8, "{server}");
    SlotsDiffer(whole, 0);
    BraceInFront("{server}", t, prefix, Some(server), tool);
  }

  /** Any other `{` stays, and so does that of `{server}` where there is none. */
  lemma OtherBraceStays(t: string, prefix: string, server: Option<string>, tool: string)
    requires !At("{" + t, 0, "{prefix}") && !At("{" + t, 0, "{tool}")
    requires server.Some? ==> !At("{" + t, 0, "{server}")
    ensures Expanded("{" + t, prefix, server, tool) == "{" + Expanded(t, prefix, server, tool)
  {
    BraceInFront("{", t, prefix, server, tool);
  }

  // ---- which template, which parts ----

  /** An upstream name that is put together from a server and a tool is taken apart there again, at its first `__`, and
      goes through the large template. */
  lemma AggregatedNameIsTakenApart(template: string, builtinTemplate: string, prefix: string, server: string, tool: string)
    requires NoPair(server, '_') && !EndsWith(server, '_')
    ensures FormatToolName(template, builtinTemplate, prefix, server + "__" + tool) ==
            Expanded(template, prefix, Some(server), tool)
  {
    var upstream := server + ['_', '_'] + tool;
    FirstPair(server, '_', tool);
    assert upstream == server + "__" + tool;
    assert upstream[..|server|] == server && upstream[|server| + 2..] == tool;
  }

  /** A bare name goes through the small template, which has no server. */
  lemma BareNameIsKeptWhole(template: string, builtinTemplate: string, prefix: string, tool: string)
    requires NoPair(tool, '_')
    ensures FormatToolName(template, builtinTemplate, prefix, tool) == Expanded(builtinTemplate, prefix, None, tool)
  {
  }

  /** The server read off any name: nothing without a namespace, the namespace for a bare name, and otherwise what stands
      before the first `__`, without the namespace and an underscore in front; the namespace again if that leaves
      nothing. */
  lemma ServerSlugMeans(namespace: string, head: string, rest: string)
    requires NoPair(head, '_') && !EndsWith(head, '_')
    ensures ServerSlugOf(rest, None) == None
    ensures NoPair(rest, '_') ==> ServerSlugOf(rest, Some(namespace)) == Some(namespace)
    ensures ServerSlugOf(head + "__" + rest, Some(namespace)) ==
            (if head == "" then Some(namespace)
             else if HasPrefix(head, namespace + "_") then Some(head[|namespace| + 1..])
             else Some(head))
  {
    var exposed := head + ['_', '_'] + rest;
    FirstPair(head, '_', rest);
    assert exposed == head + "__" + rest && exposed[..|head|] == head;
    if HasPrefix(head, namespace + "_") {
      HeadIsLonger(namespace, head);
    }
  }

  /** A head that does not end in `_` is more than the namespace and an underscore. */
  lemma HeadIsLonger(namespace: string, head: string)
    requires HasPrefix(head, namespace + "_") && !EndsWith(head, '_')
    ensures |head| > |namespace| + 1
  {
    assert (namespace + "_")[|namespace|] == '_';
    assert head[|namespace|] == head[..|namespace| + 1][|namespace|];
  }
}
