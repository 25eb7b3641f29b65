/**
  The approval rules (crates/openslate-core/src/approval.rs): how a level is looked up, how legacy policies
  become rules and rules a legacy view again, and when a call is put before the callback.
 */
module Approval {
  import opened Wrappers
  import opened AsciiCase

  datatype Level = Manual | Allow | Auto

  datatype Policy = AutoPolicy | ManualPolicy | AutoExcept(tools: seq<string>)

  // ---- tables ordered by key ----

  datatype Entry = Entry(key: string, level: Level)

  type Table = seq<Entry>

  /** The order of keys: by code points, a prefix first. */
  predicate Less(s: string, t: string) {
    if t == [] then false
    else if s == [] then true
    else s[0] < t[0] || (s[0] == t[0] && Less(s[1..], t[1..]))
  }

  predicate Ordered(table: Table) {
    forall i, j :: 0 <= i < j < |table| ==> Less(table[i].key, table[j].key)
  }

  function Put(table: Table, key: string, level: Level): Table {
    if table == [] then [Entry(key, level)]
    else if table[0].key == key then [Entry(key, level)] + table[1..]
    else if Less(key, table[0].key) then [Entry(key, level)] + table
    else [table[0]] + Put(table[1..], key, level)
  }

  function FindExact(table: Table, key: string): Option<Level> {
    if table == [] then None
    else if table[0].key == key then Some(table[0].level)
    else FindExact(table[1..], key)
  }

  function FindIgnoringCase(table: Table, key: string): Option<Level> {
    if table == [] then None
    else if EqIgnoreCase(table[0].key, key) then Some(table[0].level)
    else FindIgnoringCase(table[1..], key)
  }

  /** The exact key first, then the first key that differs only in case. */
  function LookupLevel(table: Table, key: string): Option<Level> {
    if FindExact(table, key).Some? then FindExact(table, key) else FindIgnoringCase(table, key)
  }

  // ---- rules ----

  datatype Rules = Rules(defaultLevel: Level, tools: Table, servers: Table)

  const DEFAULT_RULES := Rules(Allow, [], [])

  /** Tool before server before default. */
  function LevelFor(rules: Rules, tool: string, server: Option<string>): Level {
    match LookupLevel(rules.tools, tool)
    case Some(level) => level
    case None =>
      match if server.Some? then LookupLevel(rules.servers, server.value) else None
      case Some(level) => level
      case None => rules.defaultLevel
  }

  function PutAll(table: Table, keys: seq<string>, level: Level): Table
    decreases |keys|
  {
    if keys == [] then table else PutAll(Put(table, keys[0], level), keys[1..], level)
  }

  function RulesFromPolicy(policy: Policy): Rules {
    match policy
    case AutoPolicy => DEFAULT_RULES
    case ManualPolicy => DEFAULT_RULES.(defaultLevel := Manual)
    case AutoExcept(tools) => Rules(Allow, PutAll([], tools, Manual), [])
  }

  function ManualKeys(table: Table): seq<string> {
    if table == [] then []
    else (if table[0].level == Manual then [table[0].key] else []) + ManualKeys(table[1..])
  }

  /** The closest legacy view of the rules. */
  function ToLegacyPolicy(rules: Rules): Policy {
    match rules.defaultLevel
    case Manual => ManualPolicy
    case _ => if ManualKeys(rules.tools) == [] then AutoPolicy else AutoExcept(ManualKeys(rules.tools))
  }

  /** What the legacy policy meant: ask always, never, or for the listed tools in any case. */
  predicate Asks(policy: Policy, tool: string) {
    match policy
    case AutoPolicy => false
    case ManualPolicy => true
    case AutoExcept(tools) => exists t :: t in tools && EqIgnoreCase(t, tool)
  }

  // ---- the order of keys ----

  lemma {:induction false} LessIsStrict(s: string, t: string)
    ensures Less(s, t) ==> s != t && !Less(t, s)
    ensures s == t || Less(s, t) || Less(t, s)
  {
    if s != [] && t != [] && s[0] == t[0] {
      LessIsStrict(s[1..], t[1..]);
      assert s == [s[0]] + s[1..] && t == [t[0]] + t[1..];
    }
  }

  lemma {:induction false} LessIsTransitive(s: string, t: string, u: string)
    requires Less(s, t) && Less(t, u)
    ensures Less(s, u)
  {
    if s != [] && s[0] == t[0] && t[0] == u[0] {
      LessIsTransitive(s[1..], t[1..], u[1..]);
    }
  }

  // ---- tables ----

  predicate HasKey(table: Table, key: string) {
    exists i :: 0 <= i < |table| && table[i].key == key
  }

  predicate AllAt(table: Table, level: Level) {
    forall i :: 0 <= i < |table| ==> table[i].level == level
  }

  lemma HasKeyInFront(e: Entry, rest: Table, key: string)
    ensures HasKey([e] + rest, key) <==> e.key == key || HasKey(rest, key)
  {
    var table := [e] + rest;
    if HasKey(rest, key) {
      var i :| 0 <= i < |rest| && rest[i].key == key;
      assert table[i + 1].key == key;
    }
    if e.key == key {
      assert table[0].key == key;
    }
  }

  lemma {:induction false} PutAddsKey(table: Table, key: string, level: Level, other: string)
    ensures HasKey(Put(table, key, level), other) <==> other == key || HasKey(table, other)
  {
    if table == [] {
      HasKeyInFront(Entry(key, level), [], other);
    } else {
      assert table == [table[0]] + table[1..];
      HasKeyInFront(table[0], table[1..], other);
      if table[0].key == key {
        HasKeyInFront(Entry(key, level), table[1..], other);
      } else if Less(key, table[0].key) {
        HasKeyInFront(Entry(key, level), table, other);
      } else {
        PutAddsKey(table[1..], key, level, other);
        HasKeyInFront(table[0], Put(table[1..], key, level), other);
      }
    }
  }

  lemma {:induction false} PutKeepsLevel(table: Table, key: string, level: Level)
    requires AllAt(table, level)
    ensures AllAt(Put(table, key, level), level)
  {
    if table != [] && table[0].key != key && !Less(key, table[0].key) {
      PutKeepsLevel(table[1..], key, level);
    }
  }

  lemma {:induction false} PutAllHolds(table: Table, keys: seq<string>, level: Level, other: string)
    requires AllAt(table, level)
    ensures AllAt(PutAll(table, keys, level), level)
    ensures HasKey(PutAll(table, keys, level), other) <==> HasKey(table, other) || other in keys
    decreases |keys|
  {
    if keys != [] {
      PutKeepsLevel(table, keys[0], level);
      PutAddsKey(table, keys[0], level, other);
      PutAllHolds(Put(table, keys[0], level), keys[1..], level, other);
      assert keys == [keys[0]] + keys[1..];
    }
  }

  lemma {:induction false} FindIgnoringCaseMeans(table: Table, key: string, level: Level)
    requires AllAt(table, level)
    ensures FindExact(table, key).Some? ==> FindExact(table, key) == Some(level)
    ensures FindIgnoringCase(table, key).Some? ==> FindIgnoringCase(table, key) == Some(level)
    ensures FindIgnoringCase(table, key).Some? <==> exists i :: 0 <= i < |table| && EqIgnoreCase(table[i].key, key)
    ensures FindExact(table, key).Some? ==> FindIgnoringCase(table, key).Some?
  {
    if table != [] {
      var rest := table[1..];
      FindIgnoringCaseMeans(rest, key, level);
      assert forall i :: 0 < i < |table| ==> table[i] == rest[i - 1];
      if i :| 0 <= i < |rest| && EqIgnoreCase(rest[i].key, key) {
        assert table[i + 1] == rest[i];
      }
    }
  }

  /** A legacy policy means the same through the rules: whatever the tool and its server, a call is at level Manual
      exactly when the policy asks, and otherwise at level Allow. */
  lemma LegacyPoliciesKeepTheirMeaning(policy: Policy, tool: string, server: Option<string>)
    ensures LevelFor(RulesFromPolicy(policy), tool, server) == if Asks(policy, tool) then Manual else Allow
  {
    if policy.AutoExcept? {
      var table := PutAll([], policy.tools, Manual);
      PutAllHolds([], policy.tools, Manual, tool);
      FindIgnoringCaseMeans(table, tool, Manual);
      if i :| 0 <= i < |table| && EqIgnoreCase(table[i].key, tool) {
        PutAllHolds([], policy.tools, Manual, table[i].key);
        assert HasKey(table, table[i].key);
      }
      if t :| t in policy.tools && EqIgnoreCase(t, tool) {
        PutAllHolds([], policy.tools, Manual, t);
        var i :| 0 <= i < |table| && table[i].key == t;
      }
    }
  }

  // ---- policy to rules and back ----

  lemma OrderedTail(table: Table)
    requires Ordered(table) && table != []
    ensures Ordered(table[1..])
    ensures forall i :: 0 <= i < |table[1..]| ==> Less(table[0].key, table[1..][i].key)
  {
    assert forall i :: 0 <= i < |table[1..]| ==> table[1..][i] == table[i + 1];
  }

  lemma OrderedInFront(e: Entry, rest: Table)
    requires Ordered(rest) && forall i :: 0 <= i < |rest| ==> Less(e.key, rest[i].key)
    ensures Ordered([e] + rest)
  {
    var table := [e] + rest;
    forall i, j | 0 <= i < j < |table| ensures Less(table[i].key, table[j].key) {
      assert table[j] == rest[j - 1];
      assert i > 0 ==> table[i] == rest[i - 1];
    }
  }

  /** `key` comes before all keys of the table. */
  predicate Before(key: string, table: Table) {
    forall i :: 0 <= i < |table| ==> Less(key, table[i].key)
  }

  lemma {:induction false} PutStaysBehind(first: string, table: Table, key: string, level: Level)
    requires Before(first, table) && Less(first, key)
    ensures Before(first, Put(table, key, level))
  {
    if table != [] {
      assert forall i :: 0 <= i < |table[1..]| ==> table[1..][i] == table[i + 1];
      if table[0].key != key && !Less(key, table[0].key) {
        PutStaysBehind(first, table[1..], key, level);
      }
    }
  }

  lemma {:induction false} PutStaysOrdered(table: Table, key: string, level: Level)
    requires Ordered(table)
    ensures Ordered(Put(table, key, level))
  {
    if table == [] {
    } else {
      OrderedTail(table);
      LessIsStrict(key, table[0].key);
      if table[0].key == key {
        OrderedInFront(Entry(key, level), table[1..]);
      } else if Less(key, table[0].key) {
        forall i | 0 <= i < |table| ensures Less(key, table[i].key) {
          if i > 0 {
            LessIsTransitive(key, table[0].key, table[i].key);
          }
        }
        OrderedInFront(Entry(key, level), table);
      } else {
        PutStaysOrdered(table[1..], key, level);
        PutStaysBehind(table[0].key, table[1..], key, level);
        OrderedInFront(table[0], Put(table[1..], key, level));
      }
    }
  }

  lemma {:induction false} PutAllStaysOrdered(table: Table, keys: seq<string>, level: Level)
    requires Ordered(table)
    ensures Ordered(PutAll(table, keys, level))
    decreases |keys|
  {
    if keys != [] {
      PutStaysOrdered(table, keys[0], level);
      PutAllStaysOrdered(Put(table, keys[0], level), keys[1..], level);
    }
  }

  /** A key behind all others is put at the end. */
  lemma {:induction false} PutAtEnd(table: Table, key: string, level: Level)
    requires forall i :: 0 <= i < |table| ==> Less(table[i].key, key)
    ensures Put(table, key, level) == table + [Entry(key, level)]
  {
    if table != [] {
      LessIsStrict(table[0].key, key);
      assert forall i :: 0 <= i < |table[1..]| ==> table[1..][i] == table[i + 1];
      PutAtEnd(table[1..], key, level);
      assert table == [table[0]] + table[1..];
    }
  }

  lemma {:induction false} KeysRebuildTable(front: Table, back: Table)
    requires Ordered(front + back) && AllAt(back, Manual)
    ensures PutAll(front, ManualKeys(back), Manual) == front + back
    decreases |back|
  {
    if back == [] {
      assert front + back == front;
    } else {
      var e, rest := back[0], back[1..];
      assert forall i :: 0 <= i < |rest| ==> rest[i] == back[i + 1];
      forall i | 0 <= i < |front| ensures Less(front[i].key, e.key) {
        assert (front + back)[i] == front[i] && (front + back)[|front|] == e;
      }
      PutAtEnd(front, e.key, Manual);
      assert (front + [e]) + rest == front + back;
      assert ManualKeys(back) == [e.key] + ManualKeys(rest);
      assert ([e.key] + ManualKeys(rest))[1..] == ManualKeys(rest);
      KeysRebuildTable(front + [e], rest);
    }
  }

  lemma {:induction false} ManualKeysOfManual(table: Table)
    requires AllAt(table, Manual)
    ensures |ManualKeys(table)| == |table|
  {
    if table != [] {
      assert forall i :: 0 <= i < |table[1..]| ==> table[1..][i] == table[i + 1];
      ManualKeysOfManual(table[1..]);
    }
  }

  /** Policy to rules to policy to rules ends where the first step did. */
  lemma LegacyRulesRoundTrip(policy: Policy)
    ensures RulesFromPolicy(ToLegacyPolicy(RulesFromPolicy(policy))) == RulesFromPolicy(policy)
  {
    if policy.AutoExcept? {
      var table := PutAll([], policy.tools, Manual);
      PutAllHolds([], policy.tools, Manual, "");
      PutAllStaysOrdered([], policy.tools, Manual);
      ManualKeysOfManual(table);
      assert [] + table == table;
      KeysRebuildTable([], table);
    }
  }

  // ---- the gate ----

  datatype RiskLevel = Low | Medium | High

  datatype Decision = Approved | Denied(reason: string)

  datatype Trigger = ManualTrigger | AutoRisk

  /** Who asks, and why: what the callback sees of a call, apart from its arguments. */
  datatype Request = Request(tool: string, server: Option<string>, risk: RiskLevel, trigger: Trigger)

  /** The callback, if one is installed. */
  type Callback = Option<Request -> Decision>

  /** `risk` is what the heuristics make of the call. */
  function Check(rules: Rules, callback: Callback, tool: string, server: Option<string>, risk: RiskLevel): Decision {
    match LevelFor(rules, tool, server)
    case Allow => Approved
    case Manual => Ask(callback, Request(tool, server, risk, ManualTrigger))
    case Auto => if risk == Low then Approved else Ask(callback, Request(tool, server, risk, AutoRisk))
  }

  /** Without a callback a call that needs approval goes through. */
  function Ask(callback: Callback, request: Request): Decision {
    if callback.None? then Approved else callback.value(request)
  }

  /** Under a legacy policy a call is denied exactly when the policy asks and the callback says no. */
  lemma LegacyGate(policy: Policy, callback: Callback, tool: string, server: Option<string>, risk: RiskLevel)
    ensures Check(RulesFromPolicy(policy), callback, tool, server, risk).Denied? <==>
              && Asks(policy, tool)
              && callback.Some? && callback.value(Request(tool, server, risk, ManualTrigger)).Denied?
  {
    LegacyPoliciesKeepTheirMeaning(policy, tool, server);
  }

  // ---- rules from the configuration ----

  datatype ApprovalConfig = ApprovalConfig(
    policy: Policy, defaultLevel: Option<Level>, toolLevels: Table, serverLevels: Table)

  function PutEach(table: Table, entries: Table): Table
    decreases |entries|
  {
    if entries == [] then table else PutEach(Put(table, entries[0].key, entries[0].level), entries[1..])
  }

  /** The level a configuration gives a tool under exactly this name. */
  function ToolEntry(config: ApprovalConfig, tool: string): Option<Level> {
    if FindExact(config.toolLevels, tool).Some? then FindExact(config.toolLevels, tool)
    else if config.policy.AutoExcept? && tool in config.policy.tools then Some(Manual)
    else None
  }

  function DefaultOf(config: ApprovalConfig): Level {
    match config.defaultLevel
    case Some(level) => level
    case None => if config.policy.ManualPolicy? then Manual else Allow
  }

  /** The rules say for every key what the configuration says, newer keys before the legacy list. */
  ghost predicate Says(config: ApprovalConfig, rules: Rules) {
    && rules.defaultLevel == DefaultOf(config)
    && Ordered(rules.tools) && (forall tool :: FindExact(rules.tools, tool) == ToolEntry(config, tool))
    && Ordered(rules.servers)
    && (forall server :: FindExact(rules.servers, server) == FindExact(config.serverLevels, server))
  }

  /** The legacy part first, then the keys of the newer part, one by one. */
  method RulesFromConfig(config: Option<ApprovalConfig>) returns (rules: Rules)
    requires config.Some? ==> Ordered(config.value.toolLevels) && Ordered(config.value.serverLevels)
    ensures config.None? ==> rules == DEFAULT_RULES
    ensures config.Some? ==> Says(config.value, rules)
    ensures config.Some? ==>
              forall tool, server :: FindExact(config.value.toolLevels, tool).Some? ==>
                LevelFor(rules, tool, server) == FindExact(config.value.toolLevels, tool).value
  {
    rules := DEFAULT_RULES;
    if config.None? {
      return;
    }
    var legacy := RulesFromPolicy(config.value.policy);
    rules := rules.(defaultLevel := legacy.defaultLevel, tools := legacy.tools);
    if config.value.defaultLevel.Some? {
      rules := rules.(defaultLevel := config.value.defaultLevel.value);
    }
    var tools := PutEachInOrder(rules.tools, config.value.toolLevels);
    var servers := PutEachInOrder(rules.servers, config.value.serverLevels);
    rules := rules.(tools := tools, servers := servers);
    EachKeyIsSaid(config.value, rules);
    forall tool, server | FindExact(config.value.toolLevels, tool).Some?
      ensures LevelFor(rules, tool, server) == FindExact(config.value.toolLevels, tool).value
    {
      ConfiguredToolLevelDecides(config.value, rules, tool, server);
    }
  }

  lemma EachKeyIsSaid(config: ApprovalConfig, rules: Rules)
    requires Ordered(config.toolLevels) && Ordered(config.serverLevels)
    requires rules.defaultLevel == DefaultOf(config)
    requires rules.tools == PutEach(RulesFromPolicy(config.policy).tools, config.toolLevels)
    requires rules.servers == PutEach([], config.serverLevels)
    ensures Says(config, rules)
  {
    LegacyToolsAreOrdered(config.policy);
    PutEachStaysOrdered(RulesFromPolicy(config.policy).tools, config.toolLevels);
    PutEachStaysOrdered([], config.serverLevels);
    forall tool ensures FindExact(rules.tools, tool) == ToolEntry(config, tool) {
      FindAfterPutEach(RulesFromPolicy(config.policy).tools, config.toolLevels, tool);
      FindInLegacyTools(config.policy, tool);
    }
    forall server ensures FindExact(rules.servers, server) == FindExact(config.serverLevels, server) {
      FindAfterPutEach([], config.serverLevels, server);
    }
  }

  lemma LegacyToolsAreOrdered(policy: Policy)
    ensures Ordered(RulesFromPolicy(policy).tools)
  {
    if policy.AutoExcept? {
      PutAllStaysOrdered([], policy.tools, Manual);
    }
  }

  lemma {:induction false} PutEachStaysOrdered(table: Table, entries: Table)
    requires Ordered(table)
    ensures Ordered(PutEach(table, entries))
    decreases |entries|
  {
    if entries != [] {
      PutStaysOrdered(table, entries[0].key, entries[0].level);
      PutEachStaysOrdered(Put(table, entries[0].key, entries[0].level), entries[1..]);
    }
  }

  lemma FindInLegacyTools(policy: Policy, tool: string)
    ensures FindExact(RulesFromPolicy(policy).tools, tool)
         == if policy.AutoExcept? && tool in policy.tools then Some(Manual) else None
  {
    if policy.AutoExcept? {
      FindAfterPutAll([], policy.tools, Manual, tool);
    }
  }

  lemma {:induction false} FindAfterPutAll(table: Table, keys: seq<string>, level: Level, key: string)
    requires Ordered(table)
    ensures FindExact(PutAll(table, keys, level), key) == if key in keys then Some(level) else FindExact(table, key)
    decreases |keys|
  {
    if keys != [] {
      PutStaysOrdered(table, keys[0], level);
      FindAfterPut(table, keys[0], level, key);
      FindAfterPutAll(Put(table, keys[0], level), keys[1..], level, key);
    }
  }

  method PutEachInOrder(table: Table, entries: Table) returns (result: Table)
    ensures result == PutEach(table, entries)
  {
    result := table;
    var k := 0;
    assert entries[0..] == entries;
    while k < |entries|
      invariant k <= |entries|
      invariant PutEach(result, entries[k..]) == PutEach(table, entries)
    {
      assert entries[k..][0] == entries[k] && entries[k..][1..] == entries[k + 1..];
      result := Put(result, entries[k].key, entries[k].level);
      k := k + 1;
    }
  }

  lemma {:induction false} FindAfterPut(table: Table, key: string, level: Level, other: string)
    requires Ordered(table)
    ensures FindExact(Put(table, key, level), other) == if other == key then Some(level) else FindExact(table, other)
  {
    if table != [] {
      OrderedTail(table);
      LessIsStrict(key, table[0].key);
      if table[0].key == key {
        assert ([Entry(key, level)] + table[1..])[1..] == table[1..];
      } else if Less(key, table[0].key) {
        assert ([Entry(key, level)] + table)[1..] == table;
      } else {
        FindAfterPut(table[1..], key, level, other);
        assert ([table[0]] + Put(table[1..], key, level))[1..] == Put(table[1..], key, level);
      }
    }
  }

  lemma {:induction false} FindAfterPutEach(table: Table, entries: Table, key: string)
    requires Ordered(table) && Ordered(entries)
    ensures FindExact(PutEach(table, entries), key)
         == if FindExact(entries, key).Some? then FindExact(entries, key) else FindExact(table, key)
    decreases |entries|
  {
    if entries != [] {
      OrderedTail(entries);
      PutStaysOrdered(table, entries[0].key, entries[0].level);
      FindAfterPut(table, entries[0].key, entries[0].level, key);
      FindAfterPutEach(Put(table, entries[0].key, entries[0].level), entries[1..], key);
      if FindExact(entries[1..], entries[0].key).Some? {
        FoundIsThere(entries[1..], entries[0].key);
        var i :| 0 <= i < |entries[1..]| && entries[1..][i].key == entries[0].key;
        LessIsStrict(entries[0].key, entries[1..][i].key);
      }
    }
  }

  lemma {:induction false} FoundIsThere(table: Table, key: string)
    requires FindExact(table, key).Some?
    ensures HasKey(table, key)
  {
    if table[0].key == key {
      assert HasKey(table, key);
    } else {
      FoundIsThere(table[1..], key);
      assert table == [table[0]] + table[1..];
      HasKeyInFront(table[0], table[1..], key);
    }
  }

  /** A level configured for a tool under its exact name decides, whatever the legacy part, the servers and
      the default say. */
  lemma ConfiguredToolLevelDecides(config: ApprovalConfig, rules: Rules, tool: string, server: Option<string>)
    requires Says(config, rules) && FindExact(config.toolLevels, tool).Some?
    ensures LevelFor(rules, tool, server) == FindExact(config.toolLevels, tool).value
  {
    assert FindExact(rules.tools, tool) == ToolEntry(config, tool);
  }

  /** A server's exact name decides for its tools that no tool key names in any case. */
  lemma ConfiguredServerLevelDecides(config: ApprovalConfig, rules: Rules, tool: string, server: string)
    requires Says(config, rules) && FindExact(config.serverLevels, server).Some?
    requires forall key :: EqIgnoreCase(key, tool) ==> ToolEntry(config, key).None?
    ensures LevelFor(rules, tool, Some(server)) == FindExact(config.serverLevels, server).value
  {
    assert FindExact(rules.servers, server) == FindExact(config.serverLevels, server);
    NothingIgnoringCase(rules.tools, tool);
  }

  lemma {:induction false} NothingIgnoringCase(table: Table, tool: string)
    requires forall key :: EqIgnoreCase(key, tool) ==> FindExact(table, key).None?
    ensures FindIgnoringCase(table, tool).None? && FindExact(table, tool).None?
  {
    assert EqIgnoreCase(tool, tool);
    if table != [] {
      forall key | EqIgnoreCase(key, tool) ensures FindExact(table[1..], key).None? {
        assert FindExact(table, key).None?;
      }
      assert FindExact(table, table[0].key).Some?;
      NothingIgnoringCase(table[1..], tool);
    }
  }
}
