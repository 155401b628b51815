/** The registry of tool servers: which sessions are open, which tools are offered, and which session
    a tool is routed to, whatever the servers answer while they are connected. */
module ToolRegistry {
  import opened Wrappers

  const SEPARATOR := "__"

  datatype Route = Route(server: string, tool: string)

  datatype Entry = NativeTool(kind: string) | FunctionTool(name: string)

  /** One item of a server's listing: an error ends it; a tool may be filtered out, or fail to convert. */
  datatype Listed = ListError | Listed(name: string, matches: bool, converts: bool)

  /** A configured server and all that happens when it is connected. */
  datatype Server =
    | Native(definition: Option<string>)
    | Unreachable
    | Dialed(filterCompiles: bool, listing: seq<Listed>)

  datatype Contents = Contents(sessions: set<string>, routes: map<string, Route>, entries: seq<Entry>)

  const NOTHING := Contents({}, map[], [])

  predicate HasPrefix(prefix: string, s: string) {
    prefix <= s
  }

  function KeyPrefix(id: string): string {
    id + SEPARATOR
  }

  function Key(id: string, tool: string): string {
    KeyPrefix(id) + tool
  }

  predicate Keeps(prefix: string, e: Entry) {
    e.FunctionTool? ==> !HasPrefix(prefix, e.name)
  }

  function KeptEntries(prefix: string, entries: seq<Entry>): seq<Entry> {
    if entries == [] then []
    else
      var rest := KeptEntries(prefix, entries[..|entries| - 1]);
      if Keeps(prefix, entries[|entries| - 1]) then rest + [entries[|entries| - 1]] else rest
  }

  /** `removeToolsForServer`. */
  function WithoutTools(c: Contents, id: string): Contents {
    c.(routes := map k | k in c.routes && !HasPrefix(KeyPrefix(id), k) :: c.routes[k],
       entries := KeptEntries(KeyPrefix(id), c.entries))
  }

  /** The registry after a server's listing, up to its first failure, and whether there was none. */
  function Added(c: Contents, id: string, listing: seq<Listed>): (Contents, bool) {
    if listing == [] then (c, true)
    else
      var (before, ok) := Added(c, id, listing[..|listing| - 1]);
      var item := listing[|listing| - 1];
      if !ok then (before, false)
      else if item.ListError? then (before, false)
      else if !item.matches then (before, true)
      else
        var routed := before.(routes := before.routes[Key(id, item.name) := Route(id, item.name)]);
        if item.converts then (routed.(entries := routed.entries + [FunctionTool(Key(id, item.name))]), true)
        else (routed, false)
  }

  function Connected(c: Contents, id: string, server: Server): Contents {
    match server
    case Native(definition) => if definition.Some? then c.(entries := c.entries + [NativeTool(definition.value)]) else c
    case Unreachable => c
    case Dialed(filterCompiles, listing) =>
      if !filterCompiles then c.(sessions := c.sessions - {id})
      else
        var (added, ok) := Added(c.(sessions := c.sessions + {id}), id, listing);
        if ok then added else WithoutTools(added.(sessions := added.sessions - {id}), id)
  }

  function ConnectedAll(ids: seq<string>, servers: map<string, Server>): Contents
    requires forall i :: 0 <= i < |ids| ==> ids[i] in servers
  {
    if ids == [] then NOTHING
    else
      var id := ids[|ids| - 1];
      Connected(ConnectedAll(ids[..|ids| - 1], servers), id, servers[id])
  }

  /** What a call of a tool comes to, before its arguments are read. */
  datatype Lookup = UnknownTool | NoSession(server: string) | Call(server: string, tool: string)

  function LookUp(c: Contents, name: string): Lookup {
    if name !in c.routes then UnknownTool
    else if c.routes[name].server !in c.sessions then NoSession(c.routes[name].server)
    else Call(c.routes[name].server, c.routes[name].tool)
  }

  class Registry {
    var sessions: set<string>
    var routes: map<string, Route>
    var entries: seq<Entry>

    ghost function View(): Contents
      reads this
    {
      Contents(sessions, routes, entries)
    }

    constructor ()
      ensures View() == NOTHING
    {
      sessions, routes, entries := {}, map[], [];
    }

    method RemoveToolsForServer(id: string)
      modifies this
      ensures View() == WithoutTools(old(View()), id)
    {
      var prefix := KeyPrefix(id);
      routes := map k | k in routes && !HasPrefix(prefix, k) :: routes[k];
      var kept: seq<Entry> := [];
      var i := 0;
      while i < |entries|
        invariant 0 <= i <= |entries|
        invariant kept == KeptEntries(prefix, entries[..i])
      {
        var e := entries[i];
        if e.NativeTool? || !HasPrefix(prefix, e.name) {
          kept := kept + [e];
        }
        assert entries[..i + 1][..i] == entries[..i];
        i := i + 1;
      }
      assert entries[..i] == entries;
      entries := kept;
    }

    /** Registers one server. */
    method ConnectOne(id: string, server: Server)
      modifies this
      ensures View() == Connected(old(View()), id, server)
    {
      match server
      case Native(definition) =>
        if definition.Some? {
          entries := entries + [NativeTool(definition.value)];
        }
      case Unreachable =>
      case Dialed(filterCompiles, listing) =>
        sessions := sessions + {id};
        if !filterCompiles {
          sessions := sessions - {id};
          return;
        }
        var failed := false;
        var i := 0;
        ghost var start := View();
        while i < |listing| && !failed
          invariant 0 <= i <= |listing|
          invariant (View(), !failed) == Added(start, id, listing[..i])
          invariant sessions == start.sessions
        {
          assert listing[..i + 1][..i] == listing[..i];
          var item := listing[i];
          i := i + 1;
          if item.ListError? {
            failed := true;
          } else if item.matches {
            routes := routes[Key(id, item.name) := Route(id, item.name)];
            if item.converts {
              entries := entries + [FunctionTool(Key(id, item.name))];
            } else {
              failed := true;
            }
          }
        }
        FailureEndsListing(start, id, listing, i);
        if failed {
          sessions := sessions - {id};
          RemoveToolsForServer(id);
        }
    }

    /** Registers the servers in the given order. */
    method Connect(ids: seq<string>, servers: map<string, Server>) returns (registered: bool)
      requires View() == NOTHING
      requires forall i :: 0 <= i < |ids| ==> ids[i] in servers
      modifies this
      ensures registered == (ConnectedAll(ids, servers).entries != [])
      ensures View() == if registered then ConnectedAll(ids, servers) else ConnectedAll(ids, servers).(sessions := {})
    {
      hide Connected;
      var i := 0;
      while i < |ids|
        invariant 0 <= i <= |ids|
        invariant View() == ConnectedAll(ids[..i], servers)
      {
        assert ids[..i + 1][..i] == ids[..i];
        ConnectOne(ids[i], servers[ids[i]]);
        i := i + 1;
      }
      assert ids[..i] == ids;
      if entries == [] {
        Close();
        return false;
      }
      return true;
    }

    method Close()
      modifies this
      ensures View() == old(View()).(sessions := {})
    {
      sessions := {};
    }
  }

  lemma {:induction false} FailureEndsListing(c: Contents, id: string, listing: seq<Listed>, i: nat)
    requires i <= |listing| && (i < |listing| ==> !Added(c, id, listing[..i]).1)
    ensures Added(c, id, listing) == Added(c, id, listing[..i])
    decreases |listing|
  {
    if i == |listing| {
      assert listing[..i] == listing;
    } else {
      var init := listing[..|listing| - 1];
      assert init[..i] == listing[..i];
      FailureEndsListing(c, id, init, i);
    }
  }

  // ---------- Tools, routes and sessions agree ----------

  /** A tool is offered exactly when it is routed, under its server's id, to an open session. */
  ghost predicate Agree(c: Contents) {
    && (forall k :: k in c.routes <==> FunctionTool(k) in c.entries)
    && forall k :: k in c.routes ==> k == Key(c.routes[k].server, c.routes[k].tool) && c.routes[k].server in c.sessions
  }

  lemma {:induction false} KeptMeans(prefix: string, entries: seq<Entry>, e: Entry)
    ensures e in KeptEntries(prefix, entries) <==> e in entries && Keeps(prefix, e)
  {
    if entries != [] {
      KeptMeans(prefix, entries[..|entries| - 1], e);
      assert entries == entries[..|entries| - 1] + [entries[|entries| - 1]];
    }
  }

  /** During a listing only the tool that failed to convert can be routed without being offered. */
  lemma {:induction false} AddedAgrees(c: Contents, id: string, listing: seq<Listed>)
    requires Agree(c) && id in c.sessions
    ensures var (r, ok) := Added(c, id, listing);
            && r.sessions == c.sessions && (ok ==> Agree(r))
            && (forall k :: k in r.routes ==>
                  k == Key(r.routes[k].server, r.routes[k].tool) && r.routes[k].server in r.sessions)
            && forall k :: !HasPrefix(KeyPrefix(id), k) ==>
                 && (k in r.routes <==> k in c.routes) && (k in c.routes ==> r.routes[k] == c.routes[k])
                 && (FunctionTool(k) in r.entries <==> k in c.routes)
  {
    if listing != [] {
      AddedAgrees(c, id, listing[..|listing| - 1]);
    }
  }

  lemma ConnectedAgrees(c: Contents, id: string, server: Server)
    requires Agree(c) && id !in c.sessions
    ensures Agree(Connected(c, id, server)) && Connected(c, id, server).sessions <= c.sessions + {id}
  {
    hide HasPrefix, Key, KeptEntries, Added;
    if server.Dialed? && server.filterCompiles {
      var dialed := c.(sessions := c.sessions + {id});
      AddedAgrees(dialed, id, server.listing);
      var (added, ok) := Added(dialed, id, server.listing);
      if !ok {
        forall k ensures FunctionTool(k) in KeptEntries(KeyPrefix(id), added.entries)
                    <==> FunctionTool(k) in added.entries && !HasPrefix(KeyPrefix(id), k) {
          KeptMeans(KeyPrefix(id), added.entries, FunctionTool(k));
        }
        forall k | k in added.routes && !HasPrefix(KeyPrefix(id), k)
          ensures added.routes[k].server in c.sessions
        {
          assert k in c.routes;
        }
      }
    }
  }

  predicate Distinct(ids: seq<string>) {
    forall i, j :: 0 <= i < j < |ids| ==> ids[i] != ids[j]
  }

  /** Whatever the servers answer: every tool offered has a route, every route an open session, and so
      no call of an offered tool fails for want of a session. */
  lemma {:induction false} OfferedToolsHaveSessions(ids: seq<string>, servers: map<string, Server>)
    requires Distinct(ids) && forall i :: 0 <= i < |ids| ==> ids[i] in servers
    ensures var c := ConnectedAll(ids, servers);
            && Agree(c) && (forall id :: id in c.sessions ==> id in ids)
            && (forall name :: !LookUp(c, name).NoSession?)
            && forall name :: LookUp(c, name).Call? <==> FunctionTool(name) in c.entries
  {
    hide Connected;
    if ids != [] {
      var init, id := ids[..|ids| - 1], ids[|ids| - 1];
      OfferedToolsHaveSessions(init, servers);
      ConnectedAgrees(ConnectedAll(init, servers), id, servers[id]);
    }
  }

  // ---------- When one server's failure harms another ----------

  lemma {:induction false} NoneRemoved(prefix: string, entries: seq<Entry>)
    requires forall e :: e in entries ==> Keeps(prefix, e)
    ensures KeptEntries(prefix, entries) == entries
  {
    if entries != [] {
      NoneRemoved(prefix, entries[..|entries| - 1]);
      assert entries == entries[..|entries| - 1] + [entries[|entries| - 1]];
    }
  }

  lemma {:induction false} AddedIsRemoved(c: Contents, id: string, listing: seq<Listed>)
    ensures KeptEntries(KeyPrefix(id), Added(c, id, listing).0.entries) == KeptEntries(KeyPrefix(id), c.entries)
  {
    if listing != [] {
      AddedIsRemoved(c, id, listing[..|listing| - 1]);
      var before := Added(c, id, listing[..|listing| - 1]).0;
      var item := listing[|listing| - 1];
      if item.Listed? {
        assert (before.entries + [FunctionTool(Key(id, item.name))])[..|before.entries|] == before.entries;
      }
    }
  }

  /** A server whose listing fails leaves the registry as it found it, if and only if no tool that was
      registered before carries a name that begins with the failed server's id and the separator. */
  lemma FailureRestoresExactly(c: Contents, id: string, listing: seq<Listed>)
    requires Agree(c) && id !in c.sessions && !Added(c.(sessions := c.sessions + {id}), id, listing).1
    ensures Connected(c, id, Dialed(true, listing)) == c <==> forall k :: k in c.routes ==> !HasPrefix(KeyPrefix(id), k)
  {
    hide HasPrefix, Key, KeptEntries, Added;
    var dialed := c.(sessions := c.sessions + {id});
    AddedAgrees(dialed, id, listing);
    AddedIsRemoved(dialed, id, listing);
    var r := Connected(c, id, Dialed(true, listing));
    assert r.sessions == c.sessions;
    if forall k :: k in c.routes ==> !HasPrefix(KeyPrefix(id), k) {
      NoneRemoved(KeyPrefix(id), c.entries);
      assert r.routes == c.routes;
    }
  }

  const NEIGHBOURS := map[
    "a" := Dialed(true, [Listed("b__x", true, true)]),
    "a__b" := Dialed(true, [ListError])]

  /** Server "a" offers a tool named "b__x"; then server "a__b" fails, and takes it away. */
  lemma NeighbourLosesTool()
    ensures LookUp(ConnectedAll(["a"], NEIGHBOURS), "a__b__x") == Call("a", "b__x")
    ensures LookUp(ConnectedAll(["a", "a__b"], NEIGHBOURS), "a__b__x") == UnknownTool
  {
    var listing := [Listed("b__x", true, true)];
    assert Key("a", "b__x") == "a__b__x";
    assert listing[..0] == [] && [ListError][..0] == [] && ["a"][..0] == [] && ["a", "a__b"][..1] == ["a"];
    var start := Contents({"a"}, map[], []);
    assert NOTHING.(sessions := NOTHING.sessions + {"a"}) == start;
    assert Added(start, "a", listing[..|listing| - 1]) == (start, true);
    assert Key("a", listing[|listing| - 1].name) == "a__b__x";
    var entries: seq<Entry> := [];
    assert entries + [FunctionTool("a__b__x")] == [FunctionTool("a__b__x")];
    assert Added(start, "a", listing)
        == (Contents({"a"}, map["a__b__x" := Route("a", "b__x")], [FunctionTool("a__b__x")]), true);
    var c := ConnectedAll(["a"], NEIGHBOURS);
    assert c == Added(start, "a", listing).0;
    assert !Added(c.(sessions := c.sessions + {"a__b"}), "a__b", [ListError]).1;
    assert HasPrefix(KeyPrefix("a__b"), "a__b__x");
  }

  // ---------- When no id runs into another ----------

  /** No id, with the separator, begins another. */
  predicate Apart(ids: seq<string>) {
    forall i, j :: 0 <= i < |ids| && 0 <= j < |ids| && i != j ==> !HasPrefix(KeyPrefix(ids[i]), KeyPrefix(ids[j]))
  }

  lemma PrefixesOfOne(p: string, q: string, s: string)
    requires p <= s && q <= s
    ensures p <= q || q <= p
  {
    if |p| <= |q| {
      assert p == q[..|p|];
    } else {
      assert q == p[..|q|];
    }
  }

  lemma ApartKeys(a: string, b: string, tool: string)
    requires !HasPrefix(KeyPrefix(a), KeyPrefix(b)) && !HasPrefix(KeyPrefix(b), KeyPrefix(a))
    ensures !HasPrefix(KeyPrefix(b), Key(a, tool))
  {
    hide KeyPrefix;
    assert KeyPrefix(a) <= Key(a, tool);
    if KeyPrefix(b) <= Key(a, tool) {
      PrefixesOfOne(KeyPrefix(a), KeyPrefix(b), Key(a, tool));
    }
  }

  /** The tools a server contributes: all that pass its filter, if nothing fails, or else none. */
  function ToolsOf(server: Server): set<string> {
    if !server.Dialed? || !server.filterCompiles then {}
    else if exists i :: 0 <= i < |server.listing| && Fails(server.listing[i]) then {}
    else set i | 0 <= i < |server.listing| && server.listing[i].matches :: server.listing[i].name
  }

  predicate Fails(item: Listed) {
    item.ListError? || (item.matches && !item.converts)
  }

  predicate Routed(c: Contents, id: string, tool: string) {
    Key(id, tool) in c.routes && c.routes[Key(id, tool)] == Route(id, tool)
  }

  lemma {:induction false} AddedTools(c: Contents, id: string, listing: seq<Listed>, tool: string)
    ensures Added(c, id, listing).1 <==> forall i :: 0 <= i < |listing| ==> !Fails(listing[i])
    ensures Added(c, id, listing).1 ==>
              (Routed(Added(c, id, listing).0, id, tool) <==>
                 Routed(c, id, tool) || exists i :: 0 <= i < |listing| && listing[i].matches && listing[i].name == tool)
  {
    if listing != [] {
      var init, item := listing[..|listing| - 1], listing[|listing| - 1];
      AddedTools(c, id, init, tool);
      assert listing == init + [item];
      if item.Listed? {
        assert Key(id, item.name) == Key(id, tool) <==> item.name == tool by {
          assert Key(id, item.name)[|KeyPrefix(id)|..] == item.name && Key(id, tool)[|KeyPrefix(id)|..] == tool;
        }
      }
    }
  }

  /** A server contributes its tools and no others. */
  lemma OwnTools(c: Contents, id: string, server: Server, tool: string)
    requires forall k :: k in c.routes ==> !HasPrefix(KeyPrefix(id), k)
    ensures Routed(Connected(c, id, server), id, tool) <==> tool in ToolsOf(server)
  {
    hide Added;
    assert HasPrefix(KeyPrefix(id), Key(id, tool));
    if server.Dialed? && server.filterCompiles {
      AddedTools(c.(sessions := c.sessions + {id}), id, server.listing, tool);
    }
  }

  /** A server neither adds nor takes away a tool under another id. */
  lemma OtherTools(c: Contents, id: string, server: Server, other: string, tool: string)
    requires Agree(c) && id !in c.sessions && !HasPrefix(KeyPrefix(id), Key(other, tool))
    ensures Routed(Connected(c, id, server), other, tool) <==> Routed(c, other, tool)
  {
    hide HasPrefix, Key, KeptEntries, Added;
    if server.Dialed? && server.filterCompiles {
      AddedAgrees(c.(sessions := c.sessions + {id}), id, server.listing);
    }
  }

  /** When no id begins another, each server's tools are registered exactly: all or none of them,
      whatever the other servers do. */
  lemma {:induction false} ToolsAreExactly(ids: seq<string>, servers: map<string, Server>, j: nat, tool: string)
    requires Distinct(ids) && Apart(ids) && j < |ids| && forall i :: 0 <= i < |ids| ==> ids[i] in servers
    ensures LookUp(ConnectedAll(ids, servers), Key(ids[j], tool)) == Call(ids[j], tool)
       <==> tool in ToolsOf(servers[ids[j]])
  {
    hide Connected, ToolsOf, HasPrefix, Key, KeyPrefix;
    var n := |ids| - 1;
    var init, id := ids[..n], ids[n];
    var before := ConnectedAll(init, servers);
    OfferedToolsHaveSessions(init, servers);
    OfferedToolsHaveSessions(ids, servers);
    if j < n {
      ToolsAreExactly(init, servers, j, tool);
      ApartKeys(ids[j], id, tool);
      OtherTools(before, id, servers[id], ids[j], tool);
    } else {
      forall k | k in before.routes ensures !HasPrefix(KeyPrefix(id), k) {
        var other := before.routes[k].server;
        assert other in init;
        ApartKeys(other, id, before.routes[k].tool);
      }
      OwnTools(before, id, servers[id], tool);
    }
  }

  // ---------- When ids run into each other ----------

  /** The server registers a tool under the key. */
  predicate Contributes(id: string, server: Server, key: string) {
    exists tool :: tool in ToolsOf(server) && key == Key(id, tool)
  }

  /** The server's listing fails, and the key begins with its id and the separator. */
  predicate Wipes(id: string, server: Server, key: string) {
    && server.Dialed? && server.filterCompiles && (exists i :: 0 <= i < |server.listing| && Fails(server.listing[i]))
    && HasPrefix(KeyPrefix(id), key)
  }

  predicate Offers(id: string, listing: seq<Listed>, key: string) {
    exists i :: 0 <= i < |listing| && listing[i].Listed? && listing[i].matches && key == Key(id, listing[i].name)
  }

  lemma {:induction false} AddedAt(c: Contents, id: string, listing: seq<Listed>, key: string)
    requires Added(c, id, listing).1
    ensures var r := Added(c, id, listing).0;
            if Offers(id, listing, key) then key in r.routes && r.routes[key].server == id
            else (key in r.routes <==> key in c.routes) && (key in c.routes ==> r.routes[key] == c.routes[key])
  {
    if listing != [] {
      var init, item := listing[..|listing| - 1], listing[|listing| - 1];
      AddedAt(c, id, init, key);
      assert listing == init + [item];
      assert Offers(id, listing, key)
        <==> Offers(id, init, key) || (item.Listed? && item.matches && key == Key(id, item.name));
    }
  }

  lemma {:induction false} AddedElsewhere(c: Contents, id: string, listing: seq<Listed>, key: string)
    requires !HasPrefix(KeyPrefix(id), key)
    ensures var r := Added(c, id, listing).0;
            (key in r.routes <==> key in c.routes) && (key in c.routes ==> r.routes[key] == c.routes[key])
  {
    if listing != [] {
      AddedElsewhere(c, id, listing[..|listing| - 1], key);
    }
  }

  lemma OffersContributes(id: string, server: Server, key: string)
    requires server.Dialed? && server.filterCompiles
    requires forall i :: 0 <= i < |server.listing| ==> !Fails(server.listing[i])
    ensures Offers(id, server.listing, key) <==> Contributes(id, server, key)
  {
    hide Key;
    if i :| 0 <= i < |server.listing| && server.listing[i].Listed? && server.listing[i].matches
            && key == Key(id, server.listing[i].name) {
      assert server.listing[i].name in ToolsOf(server);
    }
  }

  /** A later server takes away another's tool by registering its key, or by failing under a prefix of it. */
  lemma LaterServer(c: Contents, id: string, server: Server, other: string, tool: string)
    requires other != id
    ensures Routed(Connected(c, id, server), other, tool)
       <==> Routed(c, other, tool) && !Contributes(id, server, Key(other, tool)) && !Wipes(id, server, Key(other, tool))
  {
    hide HasPrefix, Key, KeyPrefix, Added, KeptEntries;
    var key := Key(other, tool);
    if server.Dialed? && server.filterCompiles {
      var dialed := c.(sessions := c.sessions + {id});
      AddedTools(dialed, id, server.listing, tool);
      if Added(dialed, id, server.listing).1 {
        OffersContributes(id, server, key);
        hide ToolsOf;
        AddedAt(dialed, id, server.listing, key);
      } else if !HasPrefix(KeyPrefix(id), key) {
        AddedElsewhere(dialed, id, server.listing, key);
      }
    }
  }

  lemma FirstOwnTools(c: Contents, id: string, server: Server, tool: string)
    requires !Routed(c, id, tool)
    ensures Routed(Connected(c, id, server), id, tool) <==> tool in ToolsOf(server)
  {
    hide Added;
    assert HasPrefix(KeyPrefix(id), Key(id, tool));
    if server.Dialed? && server.filterCompiles {
      AddedTools(c.(sessions := c.sessions + {id}), id, server.listing, tool);
    }
  }

  /** A call of a server's tool reaches that server if and only if the server contributes the tool, and no
      later server contributes its key or fails under a prefix of it. */
  lemma RoutedExactly(ids: seq<string>, servers: map<string, Server>, j: nat, tool: string)
    requires Distinct(ids) && j < |ids| && forall i :: 0 <= i < |ids| ==> ids[i] in servers
    ensures LookUp(ConnectedAll(ids, servers), Key(ids[j], tool)) == Call(ids[j], tool)
       <==> && tool in ToolsOf(servers[ids[j]])
            && forall i :: j < i < |ids| ==>
                 && !Contributes(ids[i], servers[ids[i]], Key(ids[j], tool))
                 && !Wipes(ids[i], servers[ids[i]], Key(ids[j], tool))
  {
    hide ConnectedAll, ToolsOf, Contributes, Wipes, Key;
    OfferedToolsHaveSessions(ids, servers);
    LastRoute(ids, servers, j, tool);
  }

  lemma {:induction false} LastRoute(ids: seq<string>, servers: map<string, Server>, j: nat, tool: string)
    requires Distinct(ids) && j < |ids| && forall i :: 0 <= i < |ids| ==> ids[i] in servers
    ensures Routed(ConnectedAll(ids, servers), ids[j], tool)
       <==> && tool in ToolsOf(servers[ids[j]])
            && forall i :: j < i < |ids| ==>
                 && !Contributes(ids[i], servers[ids[i]], Key(ids[j], tool))
                 && !Wipes(ids[i], servers[ids[i]], Key(ids[j], tool))
  {
    hide Connected, ToolsOf, Contributes, Wipes, Key, LookUp;
    var n := |ids| - 1;
    var init, id := ids[..n], ids[n];
    var before := ConnectedAll(init, servers);
    if j < n {
      hide Routed;
      LastRoute(init, servers, j, tool);
      LaterServer(before, id, servers[id], ids[j], tool);
    } else {
      OfferedToolsHaveSessions(init, servers);
      assert id !in init;
      FirstOwnTools(before, id, servers[id], tool);
    }
  }

  const NAMESAKES := map[
    "a" := Dialed(true, [Listed("b__x", true, true)]),
    "a__b" := Dialed(true, [Listed("x", true, true)])]

  /** Two servers that both connect share the key "a__b__x", and the later one gets the calls. */
  lemma NamesakeTakesCalls()
    ensures "b__x" in ToolsOf(NAMESAKES["a"])
    ensures LookUp(ConnectedAll(["a", "a__b"], NAMESAKES), Key("a", "b__x")) == Call("a__b", "x")
  {
    assert NAMESAKES["a"].listing[0].name == "b__x" && NAMESAKES["a__b"].listing[0].name == "x";
    assert Key("a__b", "x") == Key("a", "b__x");
    hide Key, KeyPrefix;
    RoutedExactly(["a", "a__b"], NAMESAKES, 1, "x");
  }

  // ---------- Native tools and sessions ----------

  /** The native tools on offer, in order. */
  function Natives(entries: seq<Entry>): seq<string> {
    if entries == [] then []
    else
      var last := entries[|entries| - 1];
      Natives(entries[..|entries| - 1]) + if last.NativeTool? then [last.kind] else []
  }

  /** The native tools that the servers define, in order. */
  function Defined(ids: seq<string>, servers: map<string, Server>): seq<string>
    requires forall i :: 0 <= i < |ids| ==> ids[i] in servers
  {
    if ids == [] then []
    else
      var server := servers[ids[|ids| - 1]];
      Defined(ids[..|ids| - 1], servers)
      + if server.Native? && server.definition.Some? then [server.definition.value] else []
  }

  lemma NativesGrow(entries: seq<Entry>, e: Entry)
    ensures Natives(entries + [e]) == Natives(entries) + if e.NativeTool? then [e.kind] else []
  {
    assert (entries + [e])[..|entries|] == entries;
  }

  lemma {:induction false} NativesAreKept(prefix: string, entries: seq<Entry>)
    ensures Natives(KeptEntries(prefix, entries)) == Natives(entries)
  {
    hide HasPrefix;
    if entries != [] {
      var init, last := entries[..|entries| - 1], entries[|entries| - 1];
      NativesAreKept(prefix, init);
      NativesGrow(KeptEntries(prefix, init), last);
    }
  }

  lemma {:induction false} ListingAddsNoNatives(c: Contents, id: string, listing: seq<Listed>)
    ensures Natives(Added(c, id, listing).0.entries) == Natives(c.entries)
  {
    hide Key;
    if listing != [] {
      var init, item := listing[..|listing| - 1], listing[|listing| - 1];
      ListingAddsNoNatives(c, id, init);
      if item.Listed? {
        NativesGrow(Added(c, id, init).0.entries, FunctionTool(Key(id, item.name)));
      }
    }
  }

  /** Whatever the other servers do, the native tools on offer are those the servers define, each once and in
      the order of the servers. */
  lemma {:induction false} NativesAreOffered(ids: seq<string>, servers: map<string, Server>)
    requires forall i :: 0 <= i < |ids| ==> ids[i] in servers
    ensures Natives(ConnectedAll(ids, servers).entries) == Defined(ids, servers)
  {
    hide Added, KeptEntries, Natives;
    if ids == [] {
      assert Natives([]) == [] by { NoNatives(); }
    } else {
      var init, id := ids[..|ids| - 1], ids[|ids| - 1];
      NativesAreOffered(init, servers);
      var before, server := ConnectedAll(init, servers), servers[id];
      match server {
        case Native(definition) =>
          if definition.Some? {
            NativesGrow(before.entries, NativeTool(definition.value));
          }
        case Unreachable =>
        case Dialed(_, listing) =>
          var dialed := before.(sessions := before.sessions + {id});
          ListingAddsNoNatives(dialed, id, listing);
          NativesAreKept(KeyPrefix(id), Added(dialed, id, listing).0.entries);
      }
    }
  }

  lemma NoNatives()
    ensures Natives([]) == []
  {}

  /** A server's session is open exactly when it was reached, its filter compiles, and its listing did not
      fail. */
  lemma {:induction false} SessionsAreExactly(ids: seq<string>, servers: map<string, Server>, id: string)
    requires Distinct(ids) && forall i :: 0 <= i < |ids| ==> ids[i] in servers
    ensures id in ConnectedAll(ids, servers).sessions
       <==> && id in ids && servers[id].Dialed? && servers[id].filterCompiles
            && forall i :: 0 <= i < |servers[id].listing| ==> !Fails(servers[id].listing[i])
  {
    hide Added, KeptEntries, Fails;
    if ids != [] {
      var init, last := ids[..|ids| - 1], ids[|ids| - 1];
      assert ids == init + [last];
      SessionsAreExactly(init, servers, id);
      SessionsAreExactly(init, servers, last);
      OneSession(ConnectedAll(init, servers), last, servers[last]);
    }
  }

  lemma OneSession(c: Contents, id: string, server: Server)
    requires id !in c.sessions
    ensures Connected(c, id, server).sessions
         == c.sessions + (if server.Dialed? && server.filterCompiles
                             && forall i :: 0 <= i < |server.listing| ==> !Fails(server.listing[i])
                          then {id} else {})
  {
    hide Added, KeptEntries, Fails;
    if server.Dialed? && server.filterCompiles {
      var dialed := c.(sessions := c.sessions + {id});
      AddedTools(dialed, id, server.listing, "");
      ListingKeepsSessions(dialed, id, server.listing);
    }
  }

  lemma {:induction false} ListingKeepsSessions(c: Contents, id: string, listing: seq<Listed>)
    ensures Added(c, id, listing).0.sessions == c.sessions
  {
    hide Key;
    if listing != [] {
      ListingKeepsSessions(c, id, listing[..|listing| - 1]);
    }
  }
}
