/**
  What the approval rules and the gate come to (crates/openslate-core/src/approval.rs): who is asked what, which level
  a call has under a configuration, and what the legacy view of any rules keeps.
 */
module ApprovalLaws {
  import opened Wrappers
  import opened AsciiCase
  import opened Approval

  // ---- the gate ----

  /** The callback is installed and refuses the request. */
  predicate Refuses(callback: Callback, request: Request, reason: string) {
    callback.Some? && callback.value(request) == Denied(reason)
  }

  /** For all rules a call is denied exactly if the callback refuses it, with the callback's own reason: at level Manual
      whatever the risk, at level Auto unless the risk is low, at level Allow never. */
  lemma DeniedIffRefused(rules: Rules, callback: Callback, tool: string, server: Option<string>, risk: RiskLevel,
                         reason: string)
    ensures var level := LevelFor(rules, tool, server);
            Check(rules, callback, tool, server, risk) == Denied(reason) <==>
              || (level == Manual && Refuses(callback, Request(tool, server, risk, ManualTrigger), reason))
              || (level == Auto && risk != Low && Refuses(callback, Request(tool, server, risk, AutoRisk), reason))
  {
  }

  // ---- levels ----

  predicate NoVariant(table: Table, key: string) {
    forall i :: 0 <= i < |table| ==> !EqIgnoreCase(table[i].key, key)
  }

  /** Entry `i` is the first whose key is `key` in any case. */
  predicate FirstVariant(table: Table, key: string, i: nat) {
    && i < |table| && EqIgnoreCase(table[i].key, key)
    && forall j :: 0 <= j < i ==> !EqIgnoreCase(table[j].key, key)
  }

  lemma {:induction false} FindIgnoringCaseFinds(table: Table, key: string) returns (i: nat)
    ensures FindIgnoringCase(table, key).None? ==> NoVariant(table, key)
    ensures FindIgnoringCase(table, key).Some? ==>
              FirstVariant(table, key, i) && FindIgnoringCase(table, key) == Some(table[i].level)
  {
    i := 0;
    if table != [] {
      var k := FindIgnoringCaseFinds(table[1..], key);
      assert table == [table[0]] + table[1..];
      if !EqIgnoreCase(table[0].key, key) {
        VariantBehind(table[0], table[1..], key, k);
        i := k + 1;
      }
    }
  }

  lemma VariantBehind(e: Entry, rest: Table, key: string, i: nat)
    requires !EqIgnoreCase(e.key, key)
    ensures FirstVariant([e] + rest, key, i + 1) <==> FirstVariant(rest, key, i)
  {
    var table := [e] + rest;
    assert forall j :: 0 <= j < |rest| ==> table[j + 1] == rest[j];
  }

  lemma {:induction false} FindExactFinds(table: Table, key: string)
    requires NoVariant(table, key)
    ensures FindExact(table, key).None?
  {
    if table != [] {
      assert !EqIgnoreCase(table[0].key, key);
      assert forall i :: 0 <= i < |table[1..]| ==> table[1..][i] == table[i + 1];
      FindExactFinds(table[1..], key);
    }
  }

  lemma TheFirstVariant(table: Table, key: string, i: nat)
    requires FirstVariant(table, key, i)
    ensures FindIgnoringCase(table, key) == Some(table[i].level)
  {
    var k := FindIgnoringCaseFinds(table, key);
    assert FindIgnoringCase(table, key).Some?;
    assert k == i;
  }

  lemma NothingIsFound(table: Table, key: string)
    requires NoVariant(table, key)
    ensures FindIgnoringCase(table, key).None? && FindExact(table, key).None?
  {
    FindExactFinds(table, key);
    var i := FindIgnoringCaseFinds(table, key);
  }

  /** Without an exact key, the first key in any other case decides. */
  lemma FirstVariantDecides(rules: Rules, tool: string, server: Option<string>, i: nat)
    requires FindExact(rules.tools, tool).None? && FirstVariant(rules.tools, tool, i)
    ensures LevelFor(rules, tool, server) == rules.tools[i].level
  {
    TheFirstVariant(rules.tools, tool, i);
  }

  /** Without a key for the tool in any case, its server's keys decide in the same way; without those, the default. */
  lemma ServerThenDefault(rules: Rules, tool: string, server: Option<string>)
    requires NoVariant(rules.tools, tool)
    ensures server.Some? && FindExact(rules.servers, server.value).Some? ==>
              LevelFor(rules, tool, server) == FindExact(rules.servers, server.value).value
    ensures server.Some? && FindExact(rules.servers, server.value).None? ==>
              forall i: nat :: FirstVariant(rules.servers, server.value, i) ==>
                LevelFor(rules, tool, server) == rules.servers[i].level
    ensures server.None? || NoVariant(rules.servers, server.value) ==> LevelFor(rules, tool, server) == rules.defaultLevel
  {
    NothingIsFound(rules.tools, tool);
    if server.Some? {
      if NoVariant(rules.servers, server.value) {
        NothingIsFound(rules.servers, server.value);
      }
      forall i: nat | FirstVariant(rules.servers, server.value, i)
        ensures FindIgnoringCase(rules.servers, server.value) == Some(rules.servers[i].level)
      {
        TheFirstVariant(rules.servers, server.value, i);
      }
    }
  }

  /** A configuration names a tool or a server if one of its keys is that name in any case. */
  ghost predicate NamesTool(config: ApprovalConfig, tool: string) {
    exists key :: EqIgnoreCase(key, tool) && ToolEntry(config, key).Some?
  }

  ghost predicate NamesServer(config: ApprovalConfig, server: string) {
    exists key :: EqIgnoreCase(key, server) && FindExact(config.serverLevels, key).Some?
  }

  lemma {:induction false} EntryIsFound(table: Table, i: nat)
    requires i < |table|
    ensures FindExact(table, table[i].key).Some?
  {
    if i > 0 {
      EntryIsFound(table[1..], i - 1);
    }
  }

  lemma UnnamedHasNoVariant(config: ApprovalConfig, rules: Rules, tool: string)
    requires Says(config, rules) && !NamesTool(config, tool)
    ensures NoVariant(rules.tools, tool)
  {
    forall i | 0 <= i < |rules.tools| ensures !EqIgnoreCase(rules.tools[i].key, tool) {
      EntryIsFound(rules.tools, i);
      assert FindExact(rules.tools, rules.tools[i].key) == ToolEntry(config, rules.tools[i].key);
    }
  }

  lemma UnnamedServerHasNoVariant(config: ApprovalConfig, rules: Rules, server: string)
    requires Says(config, rules) && !NamesServer(config, server)
    ensures NoVariant(rules.servers, server)
  {
    forall i | 0 <= i < |rules.servers| ensures !EqIgnoreCase(rules.servers[i].key, server) {
      EntryIsFound(rules.servers, i);
      assert FindExact(rules.servers, rules.servers[i].key) == FindExact(config.serverLevels, rules.servers[i].key);
    }
  }

  /** A call the configuration does not name has the default level. */
  lemma UnnamedCallHasTheDefault(config: ApprovalConfig, rules: Rules, tool: string, server: Option<string>)
    requires Says(config, rules) && !NamesTool(config, tool)
    requires server.Some? ==> !NamesServer(config, server.value)
    ensures LevelFor(rules, tool, server) == DefaultOf(config)
  {
    UnnamedHasNoVariant(config, rules, tool);
    if server.Some? {
      UnnamedServerHasNoVariant(config, rules, server.value);
    }
    ServerThenDefault(rules, tool, server);
  }

  /** Under a configuration whose default is auto, a call it does not name is denied exactly if its risk is not low and
      the callback refuses it as a risk. */
  lemma AutoDefaultGate(config: ApprovalConfig, rules: Rules, callback: Callback, tool: string, server: Option<string>,
                        risk: RiskLevel, reason: string)
    requires Says(config, rules) && config.defaultLevel == Some(Auto) && !NamesTool(config, tool)
    requires server.Some? ==> !NamesServer(config, server.value)
    ensures Check(rules, callback, tool, server, risk) == Denied(reason) <==>
              risk != Low && Refuses(callback, Request(tool, server, risk, AutoRisk), reason)
  {
    UnnamedCallHasTheDefault(config, rules, tool, server);
    DeniedIffRefused(rules, callback, tool, server, risk, reason);
  }

  // ---- the legacy view ----

  /** Some tool key at level Manual is `tool` in any case. */
  ghost predicate ManualFor(table: Table, tool: string) {
    exists i :: 0 <= i < |table| && table[i].level == Manual && EqIgnoreCase(table[i].key, tool)
  }

  ghost predicate Lists(keys: seq<string>, tool: string) {
    exists t :: t in keys && EqIgnoreCase(t, tool)
  }

  lemma {:induction false} ManualKeysMean(table: Table, tool: string)
    ensures Lists(ManualKeys(table), tool) <==> ManualFor(table, tool)
  {
    if table != [] {
      var e, rest := table[0], table[1..];
      ManualKeysMean(rest, tool);
      assert table == [e] + rest;
      if ManualFor(rest, tool) {
        var i :| 0 <= i < |rest| && rest[i].level == Manual && EqIgnoreCase(rest[i].key, tool);
        assert table[i + 1] == rest[i];
      }
      if Lists(ManualKeys(rest), tool) {
        var t :| t in ManualKeys(rest) && EqIgnoreCase(t, tool);
        assert t in ManualKeys(table);
      }
      if e.level == Manual && EqIgnoreCase(e.key, tool) {
        assert table[0] == e && e.key in ManualKeys(table);
      }
    }
  }

  /** The legacy view of any rules asks for a tool exactly if the default is Manual or a tool key at level Manual names it;
      servers and the level Auto are lost in it. */
  lemma LegacyViewMeans(rules: Rules, tool: string)
    ensures Asks(ToLegacyPolicy(rules), tool) <==> rules.defaultLevel == Manual || ManualFor(rules.tools, tool)
  {
    ManualKeysMean(rules.tools, tool);
    if ManualKeys(rules.tools) == [] {
      assert !Lists(ManualKeys(rules.tools), tool);
    }
  }
}
