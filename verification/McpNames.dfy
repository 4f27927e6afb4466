/** Names for the tools of MCP servers: sanitised, qualified by the server, made unique by a suffix. */
module McpNames {
  import opened Wrappers

  /** A tool as its server knows it. */
  datatype ManagedTool = ManagedTool(server: string, tool: string)

  /** What a server answers: not at all, to none of the three listings, or with its tools. */
  datatype Answer = Unreachable | Silent | Listed(tools: seq<string>)

  datatype Server = Server(name: string, enabled: bool, required: bool,
                           enabledTools: Option<seq<string>>, disabledTools: Option<seq<string>>, answer: Answer)

  datatype Manager = Manager(servers: set<string>, tools: Tools)

  type Tools = map<string, ManagedTool>

  // ---------- names ----------

  predicate IsAllowed(c: char) {
    'a' <= c <= 'z' || 'A' <= c <= 'Z' || '0' <= c <= '9' || c == '_' || c == '-'
  }

  function Cleaned(name: string): string {
    if name == "" then "" else [if IsAllowed(name[0]) then name[0] else '_'] + Cleaned(name[1..])
  }

  function SanitizeToolName(name: string): string {
    var sanitized := Cleaned(name);
    if sanitized == "" then "_" else sanitized
  }

  function Digit(d: nat): char
    requires d < 10
  {
    '0' + d as char
  }

  function Decimal(n: nat): string {
    if n < 10 then [Digit(n)] else Decimal(n / 10) + [Digit(n % 10)]
  }

  /** The name tried at `index`: the bare one, then suffixes from 2 on. */
  function Candidate(base: string, index: nat): string {
    if index < 2 then base else base + "_" + Decimal(index)
  }

  function Base(server: string, tool: string): string {
    SanitizeToolName("mcp__" + server + "__" + tool)
  }

  /** All names tried before `index` are in use. */
  ghost predicate AllTaken(base: string, existing: set<string>, index: nat) {
    forall i :: 1 <= i < index ==> Candidate(base, i) in existing
  }

  /** The first name not in use. The search ends because the names tried are all different. */
  function FirstFree(base: string, existing: set<string>, index: nat): string
    requires index > 0 && AllTaken(base, existing, index)
    decreases |existing| + 2 - index
  {
    TakenBound(base, existing, index);
    if Candidate(base, index) !in existing then Candidate(base, index) else FirstFree(base, existing, index + 1)
  }

  function Qualified(tool: ManagedTool, existing: set<string>): string {
    FirstFree(Base(tool.server, tool.tool), existing, 1)
  }

  method QualifyToolName(server: string, tool: string, existing: Tools) returns (name: string)
    ensures name == Qualified(ManagedTool(server, tool), existing.Keys)
  {
    var base := Base(server, tool);
    if base !in existing {
      return base;
    }
    var index := 2;
    TakenBound(base, existing.Keys, index);
    while true
      invariant index >= 2 && AllTaken(base, existing.Keys, index)
      invariant FirstFree(base, existing.Keys, index) == FirstFree(base, existing.Keys, 1)
      decreases |existing| + 2 - index
    {
      TakenBound(base, existing.Keys, index);
      var candidate := base + "_" + Decimal(index);
      if candidate !in existing {
        return candidate;
      }
      index := index + 1;
    }
  }

  // ---------- the search ends ----------

  function Value(s: string): int {
    if s == "" then 0 else Value(s[..|s| - 1]) * 10 + (s[|s| - 1] as int - '0' as int)
  }

  lemma {:induction false} DecimalValue(n: nat)
    ensures Value(Decimal(n)) == n && |Decimal(n)| > 0
    ensures forall i :: 0 <= i < |Decimal(n)| ==> '0' <= Decimal(n)[i] <= '9'
  {
    if n >= 10 {
      DecimalValue(n / 10);
      assert Decimal(n)[..|Decimal(n)| - 1] == Decimal(n / 10);
    } else {
      assert Value([Digit(n)]) == Value([Digit(n)][..0]) * 10 + n;
    }
  }

  lemma CandidatesDiffer(base: string, i: nat, j: nat)
    requires 1 <= i < j
    ensures Candidate(base, i) != Candidate(base, j)
  {
    DecimalValue(i);
    DecimalValue(j);
    assert (base + "_" + Decimal(i))[|base| + 1..] == Decimal(i);
    assert (base + "_" + Decimal(j))[|base| + 1..] == Decimal(j);
  }

  function Tried(base: string, index: nat): set<string> {
    set i | 1 <= i < index :: Candidate(base, i)
  }

  lemma {:induction false} TriedCount(base: string, index: nat)
    requires index > 0
    ensures |Tried(base, index)| == index - 1
  {
    if index > 1 {
      TriedCount(base, index - 1);
      forall i | 1 <= i < index - 1 ensures Candidate(base, i) != Candidate(base, index - 1) {
        CandidatesDiffer(base, i, index - 1);
      }
      assert Tried(base, index) == Tried(base, index - 1) + {Candidate(base, index - 1)};
    }
  }

  lemma {:induction false} SubsetSize(a: set<string>, b: set<string>)
    requires a <= b
    ensures |a| <= |b|
  {
    assert b == a + (b - a);
  }

  /** No more names can be in use than there are. */
  lemma TakenBound(base: string, existing: set<string>, index: nat)
    requires index > 0 && AllTaken(base, existing, index)
    ensures index <= |existing| + 1
  {
    TriedCount(base, index);
    SubsetSize(Tried(base, index), existing);
  }

  // ---------- registration ----------

  predicate Passes(server: Server, tool: string) {
    && (server.enabledTools.Some? ==> tool in server.enabledTools.value)
    && (server.disabledTools.Some? ==> tool !in server.disabledTools.value)
  }

  function FilterTools(server: Server, tools: seq<string>): seq<ManagedTool> {
    if tools == [] then []
    else
      (if Passes(server, tools[0]) then [ManagedTool(server.name, tools[0])] else [])
      + FilterTools(server, tools[1..])
  }

  function Register(tools: Tools, todo: seq<ManagedTool>): Tools
    decreases |todo|
  {
    if todo == [] then tools else Register(tools[Qualified(todo[0], tools.Keys) := todo[0]], todo[1..])
  }

  /** The enabled server answers, if only to say which tools it has. */
  predicate Answers(server: Server) { server.enabled && server.answer.Listed? }

  predicate Fails(server: Server) { server.enabled && server.required && !server.answer.Listed? }

  /** The tools of the servers that answer, in order. */
  function Offered(servers: seq<Server>): seq<ManagedTool> {
    if servers == [] then []
    else (if Answers(servers[0]) then FilterTools(servers[0], servers[0].answer.tools) else []) + Offered(servers[1..])
  }

  function Answering(servers: seq<Server>): set<string> {
    set server | server in servers && server.enabled && server.answer.Listed? :: server.name
  }

  /** The servers taken on in order; a required one that does not answer is the error. */
  function Connected(m: Manager, config: seq<Server>): Result<Manager, string>
    decreases |config|
  {
    if config == [] then Ok(m)
    else if Fails(config[0]) then Err(config[0].name)
    else if !Answers(config[0]) then Connected(m, config[1..])
    else
      var listed := FilterTools(config[0], config[0].answer.tools);
      Connected(Manager(m.servers + {config[0].name}, Register(m.tools, listed)), config[1..])
  }

  method Connect(config: seq<Server>) returns (r: Result<Manager, string>)
    ensures r == Connected(Manager({}, map[]), config)
  {
    var servers: set<string> := {};
    var tools: Tools := map[];
    for i := 0 to |config|
      invariant Connected(Manager(servers, tools), config[i..]) == Connected(Manager({}, map[]), config)
    {
      var server := config[i];
      assert config[i..][1..] == config[i + 1..];
      if !server.enabled {
        continue;
      }
      if !server.answer.Listed? {
        if server.required {
          return Err(server.name);
        }
        continue;
      }
      tools := RegisterTools(tools, FilterTools(server, server.answer.tools));
      servers := servers + {server.name};
    }
    r := Ok(Manager(servers, tools));
  }

  method RegisterTools(before: Tools, todo: seq<ManagedTool>) returns (tools: Tools)
    ensures tools == Register(before, todo)
  {
    tools := before;
    for i := 0 to |todo|
      invariant Register(tools, todo[i..]) == Register(before, todo)
    {
      var name := QualifyToolName(todo[i].server, todo[i].tool, tools);
      assert todo[i..][1..] == todo[i + 1..];
      tools := tools[name := todo[i]];
    }
  }

  lemma {:induction false} RegisterAppend(tools: Tools, a: seq<ManagedTool>, b: seq<ManagedTool>)
    ensures Register(tools, a + b) == Register(Register(tools, a), b)
    decreases |a|
  {
    if a == [] {
      assert a + b == b;
    } else {
      assert (a + b)[1..] == a[1..] + b;
      RegisterAppend(tools[Qualified(a[0], tools.Keys) := a[0]], a[1..], b);
    }
  }

  /** The first server in the list that is required and does not answer. */
  ghost predicate FirstFailure(config: seq<Server>, name: string) {
    exists i :: 0 <= i < |config| && Missed(config[i]) && config[i].name == name
      && (forall j :: 0 <= j < i ==> !Missed(config[j]))
  }

  /** Required, not switched off, and without an answer of any kind. */
  predicate Missed(server: Server) {
    server.required && server.enabled && (server.answer.Unreachable? || server.answer.Silent?)
  }

  /** Connecting fails exactly when a required server does not answer, naming the first one; otherwise it
      registers the servers that answer, and their tools in order. */
  lemma {:induction false} ConnectedExactly(m: Manager, config: seq<Server>)
    ensures Connected(m, config).Ok? <==> forall i :: 0 <= i < |config| ==> !Missed(config[i])
    ensures Connected(m, config).Err? ==> FirstFailure(config, Connected(m, config).error)
    ensures Connected(m, config).Ok? ==>
      Connected(m, config).value == Manager(m.servers + Answering(config), Register(m.tools, Offered(config)))
    decreases |config|
  {
    if config != [] && !Fails(config[0]) {
      var (server, rest) := (config[0], config[1..]);
      assert config == [server] + rest && [] + Offered(rest) == Offered(rest);
      if Answers(server) {
        var listed := FilterTools(server, server.answer.tools);
        ConnectedExactly(Manager(m.servers + {server.name}, Register(m.tools, listed)), rest);
        RegisterAppend(m.tools, listed, Offered(rest));
      } else {
        ConnectedExactly(m, rest);
      }
      AnsweringFirst(config);
      FailuresFirst(config);
    }
  }

  lemma AnsweringFirst(config: seq<Server>)
    requires config != []
    ensures Answering(config) == (if Answers(config[0]) then {config[0].name} else {}) + Answering(config[1..])
  {
    assert config == [config[0]] + config[1..];
  }

  lemma FailuresFirst(config: seq<Server>)
    requires config != [] && !Missed(config[0])
    ensures (forall i :: 0 <= i < |config| ==> !Missed(config[i]))
      <==> (forall i :: 0 <= i < |config[1..]| ==> !Missed(config[1..][i]))
    ensures forall name :: FirstFailure(config[1..], name) ==> FirstFailure(config, name)
  {
    forall i | 0 < i < |config| ensures config[i] == config[1..][i - 1] { }
    forall name | FirstFailure(config[1..], name) ensures FirstFailure(config, name) {
      var i :| 0 <= i < |config[1..]| && Missed(config[1..][i]) && config[1..][i].name == name
        && (forall j :: 0 <= j < i ==> !Missed(config[1..][j]));
      assert Missed(config[i + 1]) && config[i + 1].name == name;
    }
  }

  // ---------- what the names are ----------

  lemma {:induction false} FirstFreeExactly(base: string, existing: set<string>, index: nat) returns (k: nat)
    requires index > 0 && AllTaken(base, existing, index)
    ensures FirstFree(base, existing, index) == Candidate(base, k) && Candidate(base, k) !in existing
    ensures 1 <= k <= |existing| + 1 && AllTaken(base, existing, k)
    decreases |existing| + 2 - index
  {
    TakenBound(base, existing, index);
    if Candidate(base, index) !in existing { k := index; } else { k := FirstFreeExactly(base, existing, index + 1); }
  }

  predicate AllAllowed(name: string) {
    name != "" && forall i :: 0 <= i < |name| ==> IsAllowed(name[i])
  }

  lemma {:induction false} CleanedAllowed(name: string)
    ensures |Cleaned(name)| == |name| && forall i :: 0 <= i < |name| ==> IsAllowed(Cleaned(name)[i])
  {
    if name != "" { CleanedAllowed(name[1..]); }
  }

  lemma CandidateAllowed(base: string, index: nat)
    requires AllAllowed(base)
    ensures AllAllowed(Candidate(base, index))
  {
    DecimalValue(index);
  }

  /** Each character that is not allowed becomes an underscore, every other stays. */
  lemma {:induction false} CleanedAt(name: string, i: nat)
    requires i < |name|
    ensures |Cleaned(name)| == |name|
    ensures Cleaned(name)[i] == if IsAllowed(name[i]) then name[i] else '_'
  {
    CleanedAllowed(name);
    if i > 0 { CleanedAt(name[1..], i - 1); }
  }

  lemma {:induction false} CleanedSame(name: string)
    requires forall i :: 0 <= i < |name| ==> IsAllowed(name[i])
    ensures Cleaned(name) == name
  {
    if name != "" { CleanedSame(name[1..]); }
  }

  /** A tool and a server of allowed characters: the name says which, behind the prefix, the server first; if
      it is in use, with the first free number from 2 on. */
  lemma PlainName(server: string, tool: string, existing: set<string>) returns (k: nat)
    requires forall i :: 0 <= i < |server| ==> IsAllowed(server[i])
    requires forall i :: 0 <= i < |tool| ==> IsAllowed(tool[i])
    ensures var plain := "mcp__" + server + "__" + tool;
      && (plain !in existing ==> Qualified(ManagedTool(server, tool), existing) == plain)
      && (plain in existing ==>
          && k >= 2 && Value(Decimal(k)) == k
          && Qualified(ManagedTool(server, tool), existing) == plain + "_" + Decimal(k)
          && plain + "_" + Decimal(k) !in existing
          && forall i :: 2 <= i < k ==> plain + "_" + Decimal(i) in existing)
  {
    var plain := "mcp__" + server + "__" + tool;
    CleanedSame(plain);
    k := FirstFreeExactly(plain, existing, 1);
    DecimalValue(k);
    forall i | 2 <= i < k ensures plain + "_" + Decimal(i) in existing { assert Candidate(plain, i) in existing; }
    assert Candidate(plain, 1) == plain;
  }

  /** The new name is not in use, uses allowed characters only, and is found within one try more than
      there are names: it is the first candidate not in use. */
  lemma QualifiedExactly(tool: ManagedTool, existing: set<string>) returns (k: nat)
    ensures Qualified(tool, existing) !in existing && AllAllowed(Qualified(tool, existing))
    ensures Qualified(tool, existing) == Candidate(Base(tool.server, tool.tool), k) && 1 <= k <= |existing| + 1
    ensures AllTaken(Base(tool.server, tool.tool), existing, k)
  {
    var base := Base(tool.server, tool.tool);
    CleanedAllowed("mcp__" + tool.server + "__" + tool.tool);
    k := FirstFreeExactly(base, existing, 1);
    CandidateAllowed(base, k);
  }

  predicate Distinct(names: seq<string>) {
    forall i, j :: 0 <= i < j < |names| ==> names[i] != names[j]
  }

  /** Registering adds one entry per tool, whatever sanitising merges: entry for entry the tools in order,
      under names that are all different and new; entries already there stay. */
  lemma {:induction false} RegisteredExactly(tools: Tools, todo: seq<ManagedTool>) returns (names: seq<string>)
    ensures |names| == |todo| && Distinct(names) && |Register(tools, todo)| == |tools| + |todo|
    ensures forall i :: 0 <= i < |todo| ==> names[i] !in tools && AllAllowed(names[i])
    ensures forall i :: 0 <= i < |todo| ==>
      names[i] in Register(tools, todo) && Register(tools, todo)[names[i]] == todo[i]
    ensures forall name :: name in Register(tools, todo) <==> name in tools || name in names
    ensures forall name :: name in tools ==> Register(tools, todo)[name] == tools[name]
    decreases |todo|
  {
    names := [];
    if todo != [] {
      var name := Qualified(todo[0], tools.Keys);
      var _ := QualifiedExactly(todo[0], tools.Keys);
      var more := tools[name := todo[0]];
      assert more.Keys == tools.Keys + {name};
      assert |more| == |more.Keys| && |tools| == |tools.Keys|;
      var rest := RegisteredExactly(more, todo[1..]);
      names := [name] + rest;
    }
  }

  lemma {:induction false} FilteredFrom(server: Server, tools: seq<string>)
    ensures forall tool :: tool in FilterTools(server, tools) <==>
      tool.server == server.name && tool.tool in tools && Passes(server, tool.tool)
  {
    if tools != [] {
      FilteredFrom(server, tools[1..]);
      assert tools == [tools[0]] + tools[1..];
    }
  }

  lemma {:induction false} OfferedFrom(servers: seq<Server>)
    ensures forall tool :: tool in Offered(servers) <==>
      exists server :: server in servers && Answers(server) && tool in FilterTools(server, server.answer.tools)
  {
    if servers != [] {
      OfferedFrom(servers[1..]);
      assert servers == [servers[0]] + servers[1..];
    }
  }

  /** A tool is admitted if it is on the list of those enabled, where there is one, and not on that of those
      disabled. */
  predicate Admits(server: Server, tool: string) {
    && (server.enabledTools == None || tool in server.enabledTools.value)
    && !(server.disabledTools.Some? && tool in server.disabledTools.value)
  }

  /** The tools of one server are offered in its order, each as often as it is listed. */
  lemma {:induction false} ListedInOrder(server: Server, before: seq<string>, tool: string, after: seq<string>)
    ensures FilterTools(server, before + [tool] + after) ==
      FilterTools(server, before) + (if Admits(server, tool) then [ManagedTool(server.name, tool)] else [])
      + FilterTools(server, after)
    ensures FilterTools(server, []) == []
    decreases |before|
  {
    var all := before + [tool] + after;
    var here := if Admits(server, tool) then [ManagedTool(server.name, tool)] else [];
    if before == [] {
      assert all[0] == tool && all[1..] == after && [] + here == here;
    } else {
      assert all[0] == before[0] && all[1..] == before[1..] + [tool] + after;
      ListedInOrder(server, before[1..], tool, after);
    }
  }

  /** The servers' tools are offered server after server, in the order of the configuration. */
  lemma {:induction false} OfferedInOrder(before: seq<Server>, server: Server, after: seq<Server>)
    ensures Offered(before + [server] + after) == Offered(before)
      + (if server.enabled && server.answer.Listed? then FilterTools(server, server.answer.tools) else [])
      + Offered(after)
    ensures Offered([]) == []
    decreases |before|
  {
    var all := before + [server] + after;
    var here := if server.enabled && server.answer.Listed? then FilterTools(server, server.answer.tools) else [];
    if before == [] {
      assert all[0] == server && all[1..] == after && [] + here == here;
    } else {
      assert all[0] == before[0] && all[1..] == before[1..] + [server] + after;
      OfferedInOrder(before[1..], server, after);
    }
  }

  /** Every entry of the manager resolves to a tool that an answering, hence registered, server offers and
      its filter admits; and every such tool has an entry. */
  lemma EntriesResolve(config: seq<Server>, tool: ManagedTool)
    ensures tool in Register(map[], Offered(config)).Values <==>
      exists server :: server in config && server.enabled && server.answer.Listed? && tool.server == server.name
        && tool.tool in server.answer.tools && Admits(server, tool.tool)
    ensures tool in Register(map[], Offered(config)).Values ==> tool.server in Answering(config)
    ensures |Register(map[], Offered(config))| == |Offered(config)|
  {
    var registered := Register(map[], Offered(config));
    var names := RegisteredExactly(map[], Offered(config));
    OfferedFrom(config);
    forall server | server in config && Answers(server)
      ensures tool in FilterTools(server, server.answer.tools) <==>
        tool.server == server.name && tool.tool in server.answer.tools && Passes(server, tool.tool)
    {
      FilteredFrom(server, server.answer.tools);
    }
    assert tool in registered.Values <==> tool in Offered(config) by {
      if tool in registered.Values {
        var name :| name in registered && registered[name] == tool;
        assert name in names;
      }
      if tool in Offered(config) {
        var i :| 0 <= i < |Offered(config)| && Offered(config)[i] == tool;
        assert registered[names[i]] == tool;
      }
    }
  }
}
