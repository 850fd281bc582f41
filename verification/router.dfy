/** The cluster-aware routing state: the endpoint set and the table from peer
    name to proxy target, kept up to date by folding cluster membership events
    into it, and the two operations that write and read the table. A handler
    is represented by its proxy target URL; `None` is Go's nil handler. */
module Router {
  import opened Wrappers
  import Text
  import Endpoints

  /** Membership event kinds the cluster library delivers. */
  datatype EventKind = NodeJoin | NodeLeave | NodeUpdate

  /** One membership event: its kind, the node's name and its address. */
  datatype NodeEvent = NodeEvent(kind: EventKind, name: string, addr: string)

  /** The table from peer name to proxy target. */
  type Routes = map<string, Option<string>>

  datatype RouterState = RouterState(endpoints: Endpoints.EndpointSet, urls: Routes)

  /** The path a peer's own front door serves its local API under. */
  const PeerPath: string := "/dockerapi/local"

  /** The port part of the listen address: the text between its first and
      second ':' (`strings.Split(addr, ":")[1]`). There is none, and the
      index panics, when the address has no ':'. */
  function ListenPort(listen: string): (r: Option<string>)
    ensures r.None? <==> ':' !in listen
    ensures r.Some? ==>
      var i := Text.IndexOf(listen, ':').value;
      && ':' !in r.value
      && r.value <= listen[i + 1..]
      && (i + 1 + |r.value| == |listen| || listen[i + 1 + |r.value|] == ':')
  {
    var fields := Text.Split(listen, ':');
    if |fields| >= 2 then
      var i := Text.IndexOf(listen, ':').value;
      assert fields == [listen[..i]] + Text.Split(listen[i + 1..], ':');
      Some(fields[1])
    else None
  }

  /** The default listen address ":9000" has port "9000". */
  lemma DefaultListenPort()
    ensures ListenPort(":9000") == Some("9000")
  {
  }

  /** The proxy target installed for a peer that joined from `addr`. */
  function PeerTarget(addr: string, port: string): string
  {
    "http://" + addr + ":" + port + PeerPath
  }

  /** Only the table entry of `name` and the membership of `addr` may differ
      between `st` and `st'`; the entry of `name` exists in `st'`. */
  ghost predicate OnlyTouches(st: RouterState, st': RouterState, name: string, addr: string)
  {
    && name in st'.urls
    && (forall n :: n != name ==> (n in st'.urls <==> n in st.urls))
    && (forall n :: n != name && n in st.urls ==> st'.urls[n] == st.urls[n])
    && (forall a :: a != addr ==> (a in st'.endpoints <==> a in st.endpoints))
  }

  /** Applies one membership event. A join adds the address and installs a
      proxy target for the name, overwriting any earlier one; it cannot be
      built, and the process dies, when the listen address has no ':'. Every
      other kind, updates included, is handled as a leave: the address is
      removed, even if another name joined with it, and the name's entry
      becomes nil. */
  function Step(listen: string, st: RouterState, e: NodeEvent): (r: Option<RouterState>)
    ensures r.None? <==> e.kind == NodeJoin && ':' !in listen
    ensures r.Some? ==> OnlyTouches(st, r.value, e.name, e.addr)
    ensures r.Some? && e.kind == NodeJoin ==>
      && e.addr in r.value.endpoints
      && r.value.urls[e.name] == Some(PeerTarget(e.addr, ListenPort(listen).value))
    ensures r.Some? && e.kind != NodeJoin ==>
      e.addr !in r.value.endpoints && r.value.urls[e.name] == None
  {
    if e.kind == NodeJoin then
      match ListenPort(listen)
      case None => None
      case Some(port) =>
        Some(RouterState(Endpoints.Add(st.endpoints, e.addr),
                         st.urls[e.name := Some(PeerTarget(e.addr, port))]))
    else
      Some(RouterState(Endpoints.Remove(st.endpoints, e.addr), st.urls[e.name := None]))
  }

  /** The names the events are about. */
  function Names(events: seq<NodeEvent>): set<string>
  {
    if events == [] then {} else Names(events[..|events| - 1]) + {events[|events| - 1].name}
  }

  /** The event loop: the state after the events, in order; `None` once one
      of them kills the process. The table never loses a name: its names are
      those it started with and those of the events. */
  function Run(listen: string, st: RouterState, events: seq<NodeEvent>): (r: Option<RouterState>)
    ensures r.Some? ==> r.value.urls.Keys == st.urls.Keys + Names(events)
    decreases |events|
  {
    if events == [] then Some(st)
    else
      match Run(listen, st, events[..|events| - 1])
      case None => None
      case Some(s) => Step(listen, s, events[|events| - 1])
  }

  /** The state when the event loop starts: the endpoint set seeded from the
      comma-separated node list, and an empty table. */
  function Initial(nodes: string): (r: RouterState)
    ensures forall a :: a in r.endpoints <==> a in Text.Split(nodes, ',')
    ensures r.urls == map[]
  {
    RouterState(Endpoints.Seed(nodes), map[])
  }

  /** `Destroy`: the name's entry becomes nil; no other entry changes. */
  function Destroy(urls: Routes, name: string): (r: Routes)
    ensures name in r && r[name] == None
    ensures forall n :: n != name ==> (n in r <==> n in urls)
    ensures forall n :: n != name && n in urls ==> r[n] == urls[n]
  {
    urls[name := None]
  }

  /** `ProxyCall`: the target a request for `name` is forwarded to, or `None`
      when the entry is nil or missing and nothing is invoked. */
  function ProxyCall(urls: Routes, name: string): (r: Option<string>)
    ensures r.Some? <==> name in urls && urls[name].Some?
    ensures r.Some? ==> urls[name] == r
  {
    if name in urls then urls[name] else None
  }

  /** A request for a destroyed name invokes nothing. */
  lemma DestroyThenProxyCall(urls: Routes, name: string)
    ensures ProxyCall(Destroy(urls, name), name) == None
  {
  }

  /** What an event can be about: a node name or an address. */
  datatype Subject = Name(name: string) | Addr(addr: string)

  /** Event `e` is about `subject`. */
  predicate About(e: NodeEvent, subject: Subject)
  {
    match subject
    case Name(n) => e.name == n
    case Addr(a) => e.addr == a
  }

  /** The last event in `events` about `subject`, the reference against which
      the fold is described. */
  function LastAbout(events: seq<NodeEvent>, subject: Subject): (r: Option<NodeEvent>)
    ensures r.None? <==> forall i :: 0 <= i < |events| ==> !About(events[i], subject)
    ensures r.Some? ==> About(r.value, subject) && r.value in events
    decreases |events|
  {
    if events == [] then None
    else if About(events[|events| - 1], subject) then Some(events[|events| - 1])
    else
      var r := LastAbout(events[..|events| - 1], subject);
      assert forall i :: 0 <= i < |events| - 1 ==> events[..|events| - 1][i] == events[i];
      r
  }

  /** The event loop dies exactly when the listen address has no ':' and some
      event is a join. */
  lemma {:induction false} RunFailsIff(listen: string, st: RouterState, events: seq<NodeEvent>)
    ensures Run(listen, st, events).None? <==>
      ':' !in listen && exists i :: 0 <= i < |events| && events[i].kind == NodeJoin
  {
    if events != [] {
      var init := events[..|events| - 1];
      RunFailsIff(listen, st, init);
      assert forall i :: 0 <= i < |init| ==> init[i] == events[i];
      if ':' !in listen && events[|events| - 1].kind == NodeJoin {
        assert events[|events| - 1].kind == NodeJoin;
      }
    }
  }

  /** After a run, a request for `name` goes where the last event about
      `name` sent it: to the target built from that event's address when it
      was a join, nowhere when it was anything else, and where it went at the
      start when no event was about `name`. */
  lemma {:induction false} RunRoutesByLastEvent(listen: string, st: RouterState, events: seq<NodeEvent>, name: string)
    requires ':' in listen || forall i :: 0 <= i < |events| ==> events[i].kind != NodeJoin
    ensures Run(listen, st, events).Some?
    ensures ProxyCall(Run(listen, st, events).value.urls, name) ==
      match LastAbout(events, Name(name))
      case None => ProxyCall(st.urls, name)
      case Some(e) => if e.kind == NodeJoin then Some(PeerTarget(e.addr, ListenPort(listen).value)) else None
  {
    RunFailsIff(listen, st, events);
    if events != [] {
      RunRoutesByLastEvent(listen, st, events[..|events| - 1], name);
    }
  }

  /** After a run, an address is in the endpoint set exactly when the last
      event about it was a join, or, when no event was about it, when it was
      there at the start. */
  lemma {:induction false} RunEndpointsByLastEvent(listen: string, st: RouterState, events: seq<NodeEvent>, addr: string)
    requires ':' in listen || forall i :: 0 <= i < |events| ==> events[i].kind != NodeJoin
    ensures Run(listen, st, events).Some?
    ensures addr in Run(listen, st, events).value.endpoints <==>
      match LastAbout(events, Addr(addr))
      case None => addr in st.endpoints
      case Some(e) => e.kind == NodeJoin
  {
    RunFailsIff(listen, st, events);
    if events != [] {
      RunEndpointsByLastEvent(listen, st, events[..|events| - 1], addr);
    }
  }

  /** `t` begins with "http://" and ends with the peer path. */
  predicate IsPeerTarget(t: string)
  {
    |t| >= |"http://"| + |PeerPath| && t[..|"http://"|] == "http://" && t[|t| - |PeerPath|..] == PeerPath
  }

  /** Every target a join installs has the shape of a peer target. */
  lemma PeerTargetShape(addr: string, port: string)
    ensures IsPeerTarget(PeerTarget(addr, port))
  {
  }

  /** Every non-nil entry of the table has the shape of a peer target. */
  ghost predicate TargetsWellFormed(urls: Routes)
  {
    forall n :: n in urls && urls[n].Some? ==> IsPeerTarget(urls[n].value)
  }

  /** Starting from the empty table, the table only ever holds http targets
      ending in the peer path. */
  lemma {:induction false} RunKeepsTargetsWellFormed(listen: string, nodes: string, events: seq<NodeEvent>)
    requires ':' in listen || forall i :: 0 <= i < |events| ==> events[i].kind != NodeJoin
    ensures Run(listen, Initial(nodes), events).Some?
    ensures TargetsWellFormed(Run(listen, Initial(nodes), events).value.urls)
  {
    RunFailsIff(listen, Initial(nodes), events);
    if events != [] {
      var init := events[..|events| - 1];
      RunKeepsTargetsWellFormed(listen, nodes, init);
      var e := events[|events| - 1];
      if e.kind == NodeJoin {
        PeerTargetShape(e.addr, ListenPort(listen).value);
      }
    }
  }

  /** A join followed by a leave of the same peer: the route exists after the
      join and is gone after the leave. */
  lemma JoinThenLeave(listen: string, st: RouterState, name: string, addr: string)
    requires ':' in listen
    ensures var s1 := Run(listen, st, [NodeEvent(NodeJoin, name, addr)]);
      s1.Some? && ProxyCall(s1.value.urls, name) == Some(PeerTarget(addr, ListenPort(listen).value))
    ensures var s2 := Run(listen, st, [NodeEvent(NodeJoin, name, addr), NodeEvent(NodeLeave, name, addr)]);
      s2.Some? && ProxyCall(s2.value.urls, name) == None && addr !in s2.value.endpoints
  {
  }

  /** Two peers share an address and one leaves: the address is gone from the
      endpoint set though the other peer's route remains. */
  lemma SharedAddressLeave(listen: string, st: RouterState, a: string, b: string, addr: string)
    requires ':' in listen && a != b
    ensures var s := Run(listen, st, [NodeEvent(NodeJoin, a, addr), NodeEvent(NodeJoin, b, addr), NodeEvent(NodeLeave, a, addr)]);
      s.Some? && addr !in s.value.endpoints && ProxyCall(s.value.urls, b) == Some(PeerTarget(addr, ListenPort(listen).value))
  {
    var events := [NodeEvent(NodeJoin, a, addr), NodeEvent(NodeJoin, b, addr), NodeEvent(NodeLeave, a, addr)];
    RunRoutesByLastEvent(listen, st, events, b);
    RunEndpointsByLastEvent(listen, st, events, addr);
  }

  /** A second join under the same name replaces the first target. */
  lemma RepeatedJoinOverwrites(listen: string, st: RouterState, name: string, addr1: string, addr2: string)
    requires ':' in listen
    ensures var s := Run(listen, st, [NodeEvent(NodeJoin, name, addr1), NodeEvent(NodeJoin, name, addr2)]);
      s.Some? && ProxyCall(s.value.urls, name) == Some(PeerTarget(addr2, ListenPort(listen).value))
  {
    RunRoutesByLastEvent(listen, st, [NodeEvent(NodeJoin, name, addr1), NodeEvent(NodeJoin, name, addr2)], name);
  }

  /** An update event is handled like a leave: it removes a live peer's route. */
  lemma UpdateDropsRoute(listen: string, st: RouterState, name: string, addr: string)
    requires ':' in listen
    ensures var s := Run(listen, st, [NodeEvent(NodeJoin, name, addr), NodeEvent(NodeUpdate, name, addr)]);
      s.Some? && ProxyCall(s.value.urls, name) == None && addr !in s.value.endpoints
  {
    RunRoutesByLastEvent(listen, st, [NodeEvent(NodeJoin, name, addr), NodeEvent(NodeUpdate, name, addr)], name);
    RunEndpointsByLastEvent(listen, st, [NodeEvent(NodeJoin, name, addr), NodeEvent(NodeUpdate, name, addr)], addr);
  }
}
