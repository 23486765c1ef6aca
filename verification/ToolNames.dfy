/**
 Tool names across MCP servers: `server__tool` is built when tools are advertised and taken
 apart again, at the first "__", when a model calls one.
 */
module ToolNames {
  import opened Wrappers

  const SEPARATOR := "__"

  function Namespaced(server: string, tool: string): string {
    server + SEPARATOR + tool
  }

  predicate SeparatorAt(s: string, i: nat) {
    i + 1 < |s| && s[i] == '_' && s[i + 1] == '_'
  }

  // The first position of the separator at or after `from`.
  function FindSeparator(s: string, from: nat): (r: Option<nat>)
    ensures r.Some? ==>
              && from <= r.value && SeparatorAt(s, r.value)
              && forall i: nat | from <= i < r.value :: !SeparatorAt(s, i)
    ensures r.None? ==> forall i: nat | from <= i :: !SeparatorAt(s, i)
    decreases |s| - from
  {
    if from + 1 >= |s| then None
    else if SeparatorAt(s, from) then Some(from)
    else FindSeparator(s, from + 1)
  }

  // split_tool_name, that is str::split_once("__").
  function SplitToolName(name: string): Option<(string, string)> {
    match FindSeparator(name, 0)
    case None => None
    case Some(i) => Some((name[..i], name[i + 2..]))
  }

  // split_namespaced_name: strip a known server's prefix.
  function SplitNamespacedName(server: string, name: string): Option<(string, string)> {
    var prefix := server + SEPARATOR;
    if |prefix| <= |name| && name[..|prefix|] == prefix then Some((server, name[|prefix|..])) else None
  }

  // The server name contains no separator and does not end in half of one.
  ghost predicate Unambiguous(server: string) {
    && (forall i: nat :: !SeparatorAt(server, i))
    && (server != "" ==> server[|server| - 1] != '_')
  }

  lemma {:induction false} SeparatorsOfName(server: string, tool: string, i: nat)
    ensures SeparatorAt(Namespaced(server, tool), |server|)
    ensures i < |server| ==>
              (SeparatorAt(Namespaced(server, tool), i)
               <==> SeparatorAt(server, i) || (i == |server| - 1 && server[i] == '_'))
  {
    var name := Namespaced(server, tool);
    assert name[|server|] == '_' && name[|server| + 1] == '_';
  }

  /** Splitting gives back the server and the tool iff the server name is unambiguous; the tool
      name does not matter. */
  lemma {:induction false} SplitInvertsIff(server: string, tool: string)
    ensures SplitToolName(Namespaced(server, tool)) == Some((server, tool)) <==> Unambiguous(server)
  {
    var name := Namespaced(server, tool);
    SeparatorsOfName(server, tool, 0);
    var at := FindSeparator(name, 0).value;
    assert name[|server| + 2..] == tool && name[..|server|] == server;
    assert at <= |server|;
    if at < |server| {
      SeparatorsOfName(server, tool, at);
      assert |name[..at]| != |server|;
    } else {
      forall i: nat
        ensures !SeparatorAt(server, i)
      {
        if i < |server| {
          SeparatorsOfName(server, tool, i);
        }
      }
      if server != "" {
        SeparatorsOfName(server, tool, |server| - 1);
      }
    }
  }

  /** On unambiguous servers, names are unique across servers and both ways of splitting agree. */
  lemma {:induction false} NamesAreInjective(server: string, tool: string, server': string, tool': string)
    requires Unambiguous(server) && Unambiguous(server') && Namespaced(server, tool) == Namespaced(server', tool')
    ensures server == server' && tool == tool'
  {
    SplitInvertsIff(server, tool);
    SplitInvertsIff(server', tool');
  }

  lemma {:induction false} SplitsAgree(server: string, name: string)
    requires Unambiguous(server)
    ensures SplitNamespacedName(server, name).Some?
            <==> SplitToolName(name).Some? && SplitToolName(name).value.0 == server
    ensures SplitNamespacedName(server, name).Some? ==> SplitNamespacedName(server, name) == SplitToolName(name)
  {
    var prefix := server + SEPARATOR;
    if SplitNamespacedName(server, name).Some? {
      assert name == Namespaced(server, name[|prefix|..]);
      SplitInvertsIff(server, name[|prefix|..]);
    }
    if SplitToolName(name).Some? && SplitToolName(name).value.0 == server {
      var i := FindSeparator(name, 0).value;
      assert name[..i] == server && name[i..i + 2] == SEPARATOR;
      assert name[..|prefix|] == name[..i] + name[i..i + 2];
    }
  }

  // ------------------------------------------------------------------------ routing

  datatype RouteError = UnknownServer(name: string) | InvalidToolName(name: string)

  // The routing part of McpRegistry::call_tool.
  function Route(servers: set<string>, name: string): Result<(string, string), RouteError> {
    match SplitToolName(name)
    case None => Err(InvalidToolName(name))
    case Some((server, tool)) =>
      if server == "" || tool == "" then Err(InvalidToolName(name))
      else if server !in servers then Err(UnknownServer(server))
      else Ok((server, tool))
  }

  // The name is this server and tool, split at its first separator.
  ghost predicate FirstSplit(name: string, server: string, tool: string) {
    name == Namespaced(server, tool) && forall i: nat | i < |server| :: !SeparatorAt(name, i)
  }

  lemma {:induction false} FirstSplitIff(name: string, server: string, tool: string)
    ensures SplitToolName(name) == Some((server, tool)) <==> FirstSplit(name, server, tool)
  {
    if FirstSplit(name, server, tool) {
      SeparatorsOfName(server, tool, 0);
      assert FindSeparator(name, 0) == Some(|server|);
      assert name[..|server|] == server && name[|server| + 2..] == tool;
    }
    if SplitToolName(name) == Some((server, tool)) {
      var i := FindSeparator(name, 0).value;
      assert name[i..i + 2] == SEPARATOR;
      assert name == name[..i] + name[i..i + 2] + name[i + 2..];
    }
  }

  /** Exactly how a name is routed: to a known server iff it splits at its first separator into
      that server and a tool, neither empty; to no server if only the server is unknown; and not
      at all if it has no separator or nothing on one side of the first. */
  lemma {:induction false} RouteIff(servers: set<string>, name: string, server: string, tool: string)
    ensures Route(servers, name) == Ok((server, tool))
            <==> FirstSplit(name, server, tool) && server != "" && tool != "" && server in servers
    ensures Route(servers, name) == Err(UnknownServer(server))
            <==> server != "" && server !in servers && exists t: string :: t != "" && FirstSplit(name, server, t)
    ensures Route(servers, name) == Err(InvalidToolName(name))
            <==> forall s: string, t: string | FirstSplit(name, s, t) :: s == "" || t == ""
  {
    FirstSplitIff(name, server, tool);
    var split := SplitToolName(name);
    if split.Some? {
      FirstSplitIff(name, split.value.0, split.value.1);
    }
    forall s: string, t: string | FirstSplit(name, s, t)
      ensures split == Some((s, t))
    {
      FirstSplitIff(name, s, t);
    }
  }

  /** Every advertised tool of an unambiguously named server is routed back to it. */
  lemma {:induction false} AdvertisedToolsRouteBack(servers: set<string>, server: string, tool: string)
    requires server in servers && server != "" && tool != "" && Unambiguous(server)
    ensures Route(servers, Namespaced(server, tool)) == Ok((server, tool))
  {
    SplitInvertsIff(server, tool);
  }

  /** And a tool of an ambiguously named server never is. */
  lemma {:induction false} AmbiguousServersAreUnreachable(servers: set<string>, server: string, tool: string)
    requires !Unambiguous(server)
    ensures Route(servers, Namespaced(server, tool)) != Ok((server, tool))
  {
    SplitInvertsIff(server, tool);
  }
}
