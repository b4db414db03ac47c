/** Registry names of MCP tools: when they can be told apart, and when a directive can use them. */
module ToolNames {
  import opened Selection
  import opened Text
  import DecisionEngine

  // ----- The two name grammars -----

  predicate IsAlphanumeric(c: char) {
    'A' <= c <= 'Z' || 'a' <= c <= 'z' || '0' <= c <= '9'
  }

  /** The `$` of a pattern also matches before a line feed at the very end. */
  function BeforeEnd(s: string): (body: string)
    ensures body <= s && (s == body || s == body + "\n")
  {
    if s != [] && s[|s| - 1] == '\n' then s[..|s| - 1] else s
  }

  /** The rest of `[A-Za-z0-9]+([-_][A-Za-z0-9]+)*`, where a separator may come only after a letter or digit. */
  predicate WordsFollow(s: string, separatorMayCome: bool) {
    if s == [] then separatorMayCome
    else if IsAlphanumeric(s[0]) then WordsFollow(s[1..], true)
    else s[0] in {'-', '_'} && separatorMayCome && WordsFollow(s[1..], false)
  }

  predicate IsSeparator(c: char) {
    c == '-' || c == '_'
  }

  predicate NameCharsOnly(s: string) {
    forall c :: c in s ==> IsAlphanumeric(c) || IsSeparator(c)
  }

  predicate NoTwoSeparators(s: string) {
    forall i :: 0 <= i < |s| - 1 ==> !(IsSeparator(s[i]) && IsSeparator(s[i + 1]))
  }

  lemma NameCharsOfMore(s: string)
    requires s != []
    ensures NameCharsOnly(s) <==> (IsAlphanumeric(s[0]) || IsSeparator(s[0])) && NameCharsOnly(s[1..])
  {
    assert s == [s[0]] + s[1..];
  }

  lemma SeparatorsOfMore(s: string)
    requires s != []
    ensures NoTwoSeparators(s) <==>
      NoTwoSeparators(s[1..]) && (|s| > 1 ==> !(IsSeparator(s[0]) && IsSeparator(s[1])))
  {
    var rest := s[1..];
    assert forall i :: 0 <= i < |rest| ==> rest[i] == s[i + 1];
    if NoTwoSeparators(rest) && (|s| > 1 ==> !(IsSeparator(s[0]) && IsSeparator(s[1]))) {
      forall i | 0 <= i < |s| - 1 ensures !(IsSeparator(s[i]) && IsSeparator(s[i + 1])) {
        if i > 0 { assert !(IsSeparator(rest[i - 1]) && IsSeparator(rest[i - 1 + 1])); }
      }
    }
    if NoTwoSeparators(s) {
      forall i | 0 <= i < |rest| - 1 ensures !(IsSeparator(rest[i]) && IsSeparator(rest[i + 1])) {
        assert !(IsSeparator(s[i + 1]) && IsSeparator(s[i + 1 + 1]));
      }
    }
  }

  lemma {:induction false} WordsFollowIff(s: string, separatorMayCome: bool)
    ensures WordsFollow(s, separatorMayCome) <==>
      && NameCharsOnly(s) && NoTwoSeparators(s)
      && (s == [] ==> separatorMayCome)
      && (s != [] ==> IsAlphanumeric(s[|s| - 1]) && (separatorMayCome || IsAlphanumeric(s[0])))
    decreases |s|
  {
    hide NameCharsOnly, NoTwoSeparators;
    if s == [] {
      assert NameCharsOnly(s) && NoTwoSeparators(s) by { EmptyIsFine(s); }
    } else {
      NameCharsOfMore(s);
      SeparatorsOfMore(s);
      var rest := s[1..];
      WordsFollowIff(rest, IsAlphanumeric(s[0]));
      if rest != [] {
        NameCharsOfMore(rest);
        assert rest[0] == s[1] && rest[|rest| - 1] == s[|s| - 1];
      }
    }
  }

  lemma EmptyIsFine(s: string)
    ensures s == [] ==> NameCharsOnly(s) && NoTwoSeparators(s)
  {}

  /** `_SERVER_NAME`. */
  predicate IsServerName(s: string) {
    |s| <= 64 && WordsFollow(BeforeEnd(s), false)
  }

  predicate IsToolChar(c: char) {
    IsAlphanumeric(c) || c in {'_', '.', '-'}
  }

  /** `_REMOTE_TOOL_NAME`. */
  predicate IsRemoteToolName(s: string) {
    1 <= |BeforeEnd(s)| <= 128 && forall c :: c in BeforeEnd(s) ==> IsToolChar(c)
  }

  /**
    A server name is letters and digits with single separators between them and none at either end, at most
    64 characters in all; and both patterns let one line feed through at the end.
  */
  lemma NamesAreExact(s: string)
    requires s == [] || s[|s| - 1] != '\n'
    ensures IsServerName(s) <==>
      && 1 <= |s| <= 64 && NameCharsOnly(s) && NoTwoSeparators(s)
      && IsAlphanumeric(s[0]) && IsAlphanumeric(s[|s| - 1])
    ensures IsServerName(s + "\n") <==> IsServerName(s) && |s| < 64
    ensures IsRemoteToolName(s) <==> 1 <= |s| <= 128 && forall c :: c in s ==> IsAlphanumeric(c) || c in "_.-"
    ensures IsRemoteToolName(s + "\n") <==> IsRemoteToolName(s)
  {
    hide NameCharsOnly, NoTwoSeparators, WordsFollow;
    WordsFollowIff(s, false);
    assert BeforeEnd(s) == s && BeforeEnd(s + "\n") == s;
  }

  /** `namespaced_tool_name`. */
  function Namespaced(server: string, tool: string): string {
    "mcp__" + server + "__" + tool
  }

  // ----- Reading a name back -----

  /** The first position of two underscores in a row. */
  function FirstGap(s: string): (i: Option<nat>)
    ensures i.Some? ==> i.value + 1 < |s| && s[i.value] == '_' && s[i.value + 1] == '_'
  {
    if |s| < 2 then None
    else if s[0] == '_' && s[1] == '_' then Some(0)
    else
      var rest := FirstGap(s[1..]);
      if rest.None? then None else Some(rest.value + 1)
  }

  /** The server and tool of a registry name, split at the first `__` after the prefix. */
  function ParseName(name: string): Option<(string, string)> {
    if !("mcp__" <= name) then None else
      var rest := name[5..];
      var gap := FirstGap(rest);
      if gap.None? then None else Some((rest[..gap.value], rest[gap.value + 2..]))
  }

  lemma {:induction false} FirstGapOfJoined(server: string, tool: string)
    ensures FirstGap(server + "_").None? ==> FirstGap(server + "__" + tool) == Some(|server|)
    ensures FirstGap(server + "_").Some? ==> FirstGap(server + "__" + tool) == FirstGap(server + "_")
    decreases |server|
  {
    var joined := server + "__" + tool;
    if server != [] {
      FirstGapOfJoined(server[1..], tool);
      assert joined[1..] == server[1..] + "__" + tool;
      assert (server + "_")[1..] == server[1..] + "_";
      assert joined[1] == (server + "_")[1];
    }
  }

  /** A name reads back as the server and tool it was made of exactly when the server holds no `__`
      and does not end in `_`. */
  lemma NameIsUniqueIff(server: string, tool: string)
    ensures ParseName(Namespaced(server, tool)) == Some((server, tool)) <==> FirstGap(server + "_").None?
  {
    var rest := server + "__" + tool;
    FirstGapOfJoined(server, tool);
    assert Namespaced(server, tool)[5..] == rest;
    assert rest[..|server|] == server && rest[|server| + 2..] == tool;
  }

  lemma {:induction false} WordsHaveNoGap(s: string, separatorMayCome: bool)
    requires WordsFollow(s, separatorMayCome)
    ensures FirstGap(s + "_").None? && (s != [] && !separatorMayCome ==> IsAlphanumeric(s[0]))
    ensures forall c :: c in s ==> IsAlphanumeric(c) || c in {'-', '_'}
    decreases |s|
  {
    if s != [] {
      var next := IsAlphanumeric(s[0]);
      WordsHaveNoGap(s[1..], next);
      assert (s + "_")[1..] == s[1..] + "_";
      assert s[1..] != [] ==> (s + "_")[1] == s[1];
    }
  }

  lemma {:induction false} GapBeforeLineFeed(s: string)
    requires FirstGap(s + "_").None?
    ensures FirstGap(s + "\n" + "_").None?
    decreases |s|
  {
    if s == [] {
      assert (s + "\n" + "_")[0] == '\n';
    } else {
      assert (s + "_")[1..] == s[1..] + "_";
      assert (s + "\n" + "_")[1..] == s[1..] + "\n" + "_";
      GapBeforeLineFeed(s[1..]);
      if |s| > 1 { assert (s + "\n" + "_")[1] == (s + "_")[1]; }
    }
  }

  lemma ServerNameHasNoGap(server: string)
    requires IsServerName(server)
    ensures FirstGap(server + "_").None?
    ensures forall c :: c in server ==> IsAlphanumeric(c) || c in {'-', '_', '\n'}
  {
    var body := BeforeEnd(server);
    WordsHaveNoGap(body, false);
    if server != body {
      GapBeforeLineFeed(body);
    }
  }

  /** The names of tools of configured servers are different for different servers or tools. */
  lemma NamesAreCollisionFree(server: string, tool: string, server2: string, tool2: string)
    requires IsServerName(server) && IsServerName(server2)
    ensures Namespaced(server, tool) == Namespaced(server2, tool2) <==> server == server2 && tool == tool2
  {
    ServerNameHasNoGap(server);
    ServerNameHasNoGap(server2);
    NameIsUniqueIff(server, tool);
    NameIsUniqueIff(server2, tool2);
  }

  /** Without the restriction on server names two tools can share a name. */
  lemma NamesCanCollide()
    ensures Namespaced("a", "b__c") == Namespaced("a__b", "c") == "mcp__a__b__c"
  {
    assert Namespaced("a", "b__c") == "mcp__a__b__c";
    assert Namespaced("a__b", "c") == "mcp__a__b__c";
  }

  // ----- Directives that name a registered tool -----

  lemma NameHasNoColon(server: string, tool: string)
    requires IsServerName(server) && IsRemoteToolName(tool)
    ensures ':' !in Namespaced(server, tool)
  {
    hide IsServerName, WordsFollow, FirstGap;
    ServerNameHasNoGap(server);
    var body := BeforeEnd(tool);
    assert forall c :: c in tool ==> c in body || c == '\n';
  }

  /** The directive for a registered tool names it exactly when its remote name does not end in the
      line feed that the pattern lets through. */
  lemma DirectiveNamesToolIff(server: string, tool: string, payload: string)
    requires IsServerName(server) && IsRemoteToolName(tool) && Strip(payload) != ""
    ensures var name := Namespaced(server, tool);
      var content := "TOOL" + [':'] + name + [':'] + payload;
      DecisionEngine.ParseDirective(content) == Some((name, payload)) <==> tool == BeforeEnd(tool)
  {
    hide IsServerName, WordsFollow, Strip, DecisionEngine.IsDirective;
    var name := Namespaced(server, tool);
    var content := "TOOL" + [':'] + name + [':'] + payload;
    NameHasNoColon(server, tool);
    assert name[0] == 'm' && name[|name| - 1] == tool[|tool| - 1];
    if tool == BeforeEnd(tool) {
      assert tool[|tool| - 1] in BeforeEnd(tool);
      assert Stripped(name);
      DecisionEngine.DirectiveRoundTrip("TOOL", name, payload);
    } else {
      assert IsSpace(tool[|tool| - 1]);
      assert DecisionEngine.Spells(content, "TOOL", name, payload);
      DecisionEngine.ThreeParts(content, "TOOL", name, payload);
      StripIsStripped(name);
    }
  }

  // ----- The registry -----

  /** A registered adapter: the server it forwards to and the tool's name there. */
  datatype Adapter = Adapter(server: string, remoteName: string)

  datatype Status = Status(exposed: seq<string>, hidden: seq<string>, skipped: seq<string>)

  type Registry = map<string, Adapter>

  /** Every entry is filed under the name of its own server and tool. */
  predicate WellFiled(tools: Registry) {
    forall name :: name in tools ==>
      name == Namespaced(tools[name].server, tools[name].remoteName)
      && IsServerName(tools[name].server) && IsRemoteToolName(tools[name].remoteName)
  }

  predicate Registered(tools: Registry, server: string, tool: string) {
    Namespaced(server, tool) in tools && tools[Namespaced(server, tool)] == Adapter(server, tool)
  }

  /** What one pass over a server's tools leaves; `exposes` stands for its allow and deny lists. */
  function RegisterAll(tools: Registry, server: string, exposes: string -> bool, infos: seq<string>): (Registry, Status)
    decreases |infos|
  {
    if infos == [] then (tools, Status([], [], [])) else
      var (before, status) := RegisterAll(tools, server, exposes, infos[..|infos| - 1]);
      var info := infos[|infos| - 1];
      if !IsRemoteToolName(info) then (before, status.(skipped := status.skipped + [info]))
      else if !exposes(info) then (before, status.(hidden := status.hidden + [info]))
      else if Namespaced(server, info) in before then (before, status.(skipped := status.skipped + [info]))
      else (before[Namespaced(server, info) := Adapter(server, info)],
            status.(exposed := status.exposed + [Namespaced(server, info)]))
  }

  class McpToolset {
    var tools: Registry

    constructor ()
      ensures tools == map[]
    {
      tools := map[];
    }

    /** `_register`. */
    method Register(server: string, exposes: string -> bool, infos: seq<string>) returns (status: Status)
      modifies this
      ensures (tools, status) == RegisterAll(old(tools), server, exposes, infos)
    {
      hide IsRemoteToolName, Namespaced;
      status := Status([], [], []);
      for k := 0 to |infos|
        invariant (tools, status) == RegisterAll(old(tools), server, exposes, infos[..k])
      {
        var info := infos[k];
        assert infos[..k + 1][..k] == infos[..k];
        if !IsRemoteToolName(info) {
          status := status.(skipped := status.skipped + [info]);
        } else if !exposes(info) {
          status := status.(hidden := status.hidden + [info]);
        } else {
          var name := Namespaced(server, info);
          if name in tools {
            status := status.(skipped := status.skipped + [info]);
          } else {
            tools := tools[name := Adapter(server, info)];
            status := status.(exposed := status.exposed + [name]);
          }
        }
      }
      assert infos[..|infos|] == infos;
    }
  }

  /** Every valid exposed tool ends up registered under its own name, and nothing is displaced. */
  lemma {:induction false} RegistrationIsComplete(
      tools: Registry, server: string, exposes: string -> bool, infos: seq<string>)
    requires IsServerName(server) && WellFiled(tools)
    ensures var after := RegisterAll(tools, server, exposes, infos).0;
      && WellFiled(after)
      && (forall name :: name in tools ==> name in after && after[name] == tools[name])
      && (forall t :: t in infos && IsRemoteToolName(t) && exposes(t) ==> Registered(after, server, t))
    decreases |infos|
  {
    hide IsServerName, IsRemoteToolName, Namespaced;
    if infos != [] {
      var front, info := infos[..|infos| - 1], infos[|infos| - 1];
      RegistrationIsComplete(tools, server, exposes, front);
      assert infos == front + [info];
      var before := RegisterAll(tools, server, exposes, front).0;
      if Namespaced(server, info) in before {
        var found := before[Namespaced(server, info)];
        NamesAreCollisionFree(server, info, found.server, found.remoteName);
      }
    }
  }

  /** Nothing but exposed tools of this server is added, and every listed tool is accounted for once. */
  lemma {:induction false} RegistrationIsAccounted(
      tools: Registry, server: string, exposes: string -> bool, infos: seq<string>)
    ensures var (after, status) := RegisterAll(tools, server, exposes, infos);
      && (forall name :: name in after && name !in tools ==>
            after[name].server == server && after[name].remoteName in infos && exposes(after[name].remoteName))
      && |status.exposed| + |status.hidden| + |status.skipped| == |infos|
      && |after| == |tools| + |status.exposed|
    decreases |infos|
  {
    hide IsRemoteToolName, Namespaced;
    if infos != [] {
      RegistrationIsAccounted(tools, server, exposes, infos[..|infos| - 1]);
    }
  }

  // ----- What the status lists -----

  datatype Fate = Exposed | Hidden | Skipped

  /** What becomes of the `p`-th listed tool. */
  function FateOf(tools: Registry, server: string, exposes: string -> bool, infos: seq<string>, p: nat): Fate
    requires p < |infos|
  {
    if !IsRemoteToolName(infos[p]) then Skipped
    else if !exposes(infos[p]) then Hidden
    else if Namespaced(server, infos[p]) in tools || infos[p] in infos[..p] then Skipped
    else Exposed
  }

  /** `listed` are the names of the tools that have this fate, in the order in which the server listed them. */
  ghost predicate ListsFate(
      tools: Registry, server: string, exposes: string -> bool, infos: seq<string>, fate: Fate,
      listed: seq<string>, ps: seq<nat>)
  {
    && |ps| == |listed| && Ascending(ps)
    && (forall i :: 0 <= i < |ps| ==> ps[i] < |infos|)
    && (forall i :: 0 <= i < |ps| ==>
          listed[i] == if fate.Exposed? then Namespaced(server, infos[ps[i]]) else infos[ps[i]])
    && (forall p: nat :: p < |infos| ==> (FateOf(tools, server, exposes, infos, p) == fate <==> p in ps))
  }

  lemma FateOfOneMore(
      tools: Registry, server: string, exposes: string -> bool, front: seq<string>, last: string, fate: Fate,
      listed: seq<string>, ps: seq<nat>)
    requires ListsFate(tools, server, exposes, front, fate, listed, ps)
    ensures var infos, name := front + [last], if fate.Exposed? then Namespaced(server, last) else last;
      if FateOf(tools, server, exposes, infos, |front|) == fate
      then ListsFate(tools, server, exposes, infos, fate, listed + [name], ps + Only(|front|))
      else ListsFate(tools, server, exposes, infos, fate, listed, ps)
  {
    hide IsRemoteToolName, Namespaced;
    var infos := front + [last];
    forall p: nat | p < |front|
      ensures FateOf(tools, server, exposes, infos, p) == FateOf(tools, server, exposes, front, p)
    {
      assert infos[..p] == front[..p] && infos[p] == front[p];
    }
    assert |front| !in ps;
    var qs := ps + Only(|front|);
    assert qs[|ps|] == |front| && forall p: nat :: p in qs <==> p in ps || p == |front|;
  }

  lemma OneName(server: string, a: string, b: string)
    ensures Namespaced(server, a) == Namespaced(server, b) <==> a == b
  {
    var prefix := "mcp__" + server + "__";
    assert a == (prefix + a)[|prefix|..] && b == (prefix + b)[|prefix|..];
  }

  /** A name of this server is taken exactly when it was before, or when its tool came earlier in the list. */
  lemma {:induction false} TakenNames(
      tools: Registry, server: string, exposes: string -> bool, infos: seq<string>, t: string)
    requires IsRemoteToolName(t) && exposes(t)
    ensures Namespaced(server, t) in RegisterAll(tools, server, exposes, infos).0
      <==> Namespaced(server, t) in tools || t in infos
    decreases |infos|
  {
    hide IsRemoteToolName, Namespaced;
    if infos != [] {
      var front, last := infos[..|infos| - 1], infos[|infos| - 1];
      assert infos == front + [last];
      TakenNames(tools, server, exposes, front, t);
      OneName(server, t, last);
    }
  }

  /**
    Every listed tool is reported once, in order, and as what became of it: skipped for its name, hidden by
    the configuration, skipped because its name was taken, or exposed under its registry name.
  */
  lemma {:induction false} StatusIsExact(tools: Registry, server: string, exposes: string -> bool, infos: seq<string>)
      returns (ps: seq<nat>, qs: seq<nat>, rs: seq<nat>)
    ensures var status := RegisterAll(tools, server, exposes, infos).1;
      && ListsFate(tools, server, exposes, infos, Exposed, status.exposed, ps)
      && ListsFate(tools, server, exposes, infos, Hidden, status.hidden, qs)
      && ListsFate(tools, server, exposes, infos, Skipped, status.skipped, rs)
    decreases |infos|
  {
    hide IsRemoteToolName, Namespaced, ListsFate;
    if infos == [] {
      ps, qs, rs := [], [], [];
      NoFates(tools, server, exposes);
    } else {
      var front, last := infos[..|infos| - 1], infos[|infos| - 1];
      assert infos == front + [last];
      ps, qs, rs := StatusIsExact(tools, server, exposes, front);
      var status := RegisterAll(tools, server, exposes, front).1;
      FateOfOneMore(tools, server, exposes, front, last, Exposed, status.exposed, ps);
      FateOfOneMore(tools, server, exposes, front, last, Hidden, status.hidden, qs);
      FateOfOneMore(tools, server, exposes, front, last, Skipped, status.skipped, rs);
      LastFate(tools, server, exposes, front, last);
      match FateOf(tools, server, exposes, infos, |front|)
      case Exposed => ps := ps + Only(|front|);
      case Hidden => qs := qs + Only(|front|);
      case Skipped => rs := rs + Only(|front|);
    }
  }

  lemma NoFates(tools: Registry, server: string, exposes: string -> bool)
    ensures forall fate :: ListsFate(tools, server, exposes, [], fate, [], [])
  {}

  lemma LastFate(tools: Registry, server: string, exposes: string -> bool, front: seq<string>, last: string)
    ensures var infos := front + [last];
      var (before, status) := RegisterAll(tools, server, exposes, front);
      RegisterAll(tools, server, exposes, infos).1
        == match FateOf(tools, server, exposes, infos, |front|)
           case Exposed => status.(exposed := status.exposed + [Namespaced(server, last)])
           case Hidden => status.(hidden := status.hidden + [last])
           case Skipped => status.(skipped := status.skipped + [last])
  {
    hide IsRemoteToolName, Namespaced;
    var infos := front + [last];
    assert infos[..|infos| - 1] == front && infos[..|front|] == front && infos[|front|] == last;
    if IsRemoteToolName(last) && exposes(last) {
      TakenNames(tools, server, exposes, front, last);
    }
  }

  /** In a well-filed registry a name determines its server and tool. */
  lemma RegistryIsReadable(tools: Registry, name: string)
    requires WellFiled(tools) && name in tools
    ensures ParseName(name) == Some((tools[name].server, tools[name].remoteName))
  {
    ServerNameHasNoGap(tools[name].server);
    NameIsUniqueIff(tools[name].server, tools[name].remoteName);
  }
}
