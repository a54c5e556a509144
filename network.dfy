/**
 * The network topology and announcement propagation (model/network.py).
 *
 * The topology is an undirected graph whose neighbour lists keep insertion
 * order and hold each neighbour once; routers are registered as internal
 * (with route maps) or external (peers) and are known by id and by name.
 *
 * `PropagateAnnouncement` walks the graph with an explicit stack, starting at
 * the internal router the origin is attached to. Every stack entry carries the
 * same announcement object, so the route maps met on the way all narrow that
 * one object. The walk is specified on values by `Run`; a fuel bound makes it
 * terminate.
 */
module Network {
  import opened Encoding
  import opened Announcement
  import opened Router

  datatype Result<T, E> = Ok(value: T) | Err(error: E)

  /** Where propagation stops without a result. */
  datatype Failure =
    | UnknownNode  // the origin is not a node of the graph
    | NoIngress    // the origin has no neighbour
    | NotInternal  // a popped router is not an internal router
    | OutOfFuel    // the fuel bound ran out before the stack emptied

  /** What a peer receives: the announcement itself, or the list an export map returned. */
  datatype Export = Single(announcement: RouteAnnouncement) | Many(announcements: seq<RouteAnnouncement>)

  // ---------------------------------------------------------------------
  // The graph

  type Graph = map<RouterId, seq<RouterId>>

  predicate NoDuplicates(s: seq<RouterId>)
  {
    forall i, j :: 0 <= i < j < |s| ==> s[i] != s[j]
  }

  /** Every neighbour is a node that lists the node back, and no list repeats a neighbour. */
  predicate Undirected(adj: Graph)
  {
    && (forall u :: u in adj ==> NoDuplicates(adj[u]))
    && (forall u, v :: u in adj && v in adj[u] ==> v in adj && u in adj[v])
  }

  /** A name is translated to its router id; anything else is taken as an id. */
  function Resolve(nameToId: map<string, RouterId>, r: string): RouterId
  {
    if r in nameToId then nameToId[r] else r
  }

  /** networkx's add_node: an existing node keeps its neighbours. */
  function AddNode(adj: Graph, u: RouterId): (r: Graph)
    ensures r.Keys == adj.Keys + {u} && u in r
    ensures forall w :: w in adj ==> r[w] == adj[w]
    ensures Undirected(adj) ==> Undirected(r)
  {
    if u in adj then adj else adj[u := []]
  }

  /** Records `v` as a neighbour of `u`, at the end, unless it is one already. */
  function Link(adj: Graph, u: RouterId, v: RouterId): (r: Graph)
    requires u in adj
    ensures r.Keys == adj.Keys && adj[u] <= r[u]
    ensures forall w, x :: w in adj ==> (x in r[w] <==> x in adj[w] || (w == u && x == v))
    ensures forall w :: w in adj && w != u ==> r[w] == adj[w]
    ensures |r[u]| <= |adj[u]| + 1
    ensures NoDuplicates(adj[u]) ==> NoDuplicates(r[u])
  {
    if v in adj[u] then adj else adj[u := adj[u] + [v]]
  }

  /**
   * networkx's add_edge on an undirected graph: each end gains the other
   * at the end of its list, if missing, and nothing else changes.
   */
  function AddEdge(adj: Graph, u: RouterId, v: RouterId): (r: Graph)
    requires u in adj && v in adj
    ensures r.Keys == adj.Keys && v in r[u] && u in r[v]
    ensures forall w :: w in adj ==> adj[w] <= r[w] && |r[w]| <= |adj[w]| + 1
    ensures forall w, x :: w in adj ==>
      (x in r[w] <==> x in adj[w] || (w == u && x == v) || (w == v && x == u))
    ensures forall w :: w in adj && w != u && w != v ==> r[w] == adj[w]
    ensures forall w :: w in adj && NoDuplicates(adj[w]) ==> NoDuplicates(r[w])
  {
    Link(Link(adj, u, v), v, u)
  }

  /** Adding an edge keeps the graph undirected and duplicate-free. */
  lemma AddEdgeUndirected(adj: Graph, u: RouterId, v: RouterId)
    requires Undirected(adj) && u in adj && v in adj
    ensures Undirected(AddEdge(adj, u, v))
  {
    var a := Link(adj, u, v);
    var r := Link(a, v, u);
    forall w | w in r
      ensures NoDuplicates(r[w])
    {
      assert NoDuplicates(adj[w]);
    }
  }

  /** The order of the endpoints does not matter. */
  lemma AddEdgeSymmetric(adj: Graph, u: RouterId, v: RouterId)
    requires u in adj && v in adj
    ensures AddEdge(adj, u, v) == AddEdge(adj, v, u)
  {
    if u != v {
      var a, b := AddEdge(adj, u, v), AddEdge(adj, v, u);
      assert a[u] == b[u] && a[v] == b[v];
      assert forall w :: w in a ==> a[w] == b[w];
    }
  }

  /** Adding an edge that is already there changes nothing. */
  lemma AddEdgeIdempotent(adj: Graph, u: RouterId, v: RouterId)
    requires u in adj && v in adj
    ensures AddEdge(AddEdge(adj, u, v), u, v) == AddEdge(adj, u, v)
  {
  }

  // ---------------------------------------------------------------------
  // Propagation on values

  /** What propagation reads of the network: the graph, each internal router's route-map effects, the peers and the names. */
  datatype Topology = Topology(
    adj: Graph,
    maps: map<RouterId, map<(Direction, RouterId), MapView>>,
    peers: set<RouterId>,
    idToName: map<RouterId, string>,
    nameToId: map<string, RouterId>)

  /** The two symbolic fields of the announcement being propagated. */
  datatype Bits = Bits(ip: seq<bool>, nh: seq<bool>)

  /** What a peer was handed: the announcement, or a list of `count` references to it. */
  datatype Delivery = Direct | Listed(count: nat)

  /** The announcement's fields, the deliveries so far by peer name, and the stack of (sender, receiver) edges. */
  datatype State = State(bits: Bits, results: map<string, Delivery>, stack: seq<(RouterId, RouterId)>)

  predicate Sized(b: Bits)
  {
    |b.ip| == 64 && |b.nh| == 64
  }

  predicate ViewFits(mv: MapView)
  {
    Fits(mv.filters, IpPrefix, 64) && Fits(mv.filters, NextHop, 64)
  }

  /** Internal routers are nodes, peers have names, and every route map's patterns are 64 bits wide. */
  predicate WellFormed(t: Topology)
  {
    && t.maps.Keys <= t.adj.Keys
    && t.peers <= t.idToName.Keys
    && forall r, k :: r in t.maps && k in t.maps[r] ==> ViewFits(t.maps[r][k])
  }

  /** The fields after a route map is applied to them. */
  function Filtered(b: Bits, mv: MapView): (r: Bits)
    requires Sized(b) && ViewFits(mv)
    ensures Sized(r)
  {
    Bits(Narrow(b.ip, IpPrefix, mv.filters), Narrow(b.nh, NextHop, mv.filters))
  }

  /** Sending from `curr` to neighbour `n`, except back to `prev`, through the export map if there is one. */
  function Deliver(t: Topology, prev: RouterId, curr: RouterId, n: RouterId, st: State): (r: State)
    requires WellFormed(t) && curr in t.maps && Sized(st.bits)
    ensures Sized(r.bits)
  {
    if n == prev then st
    else
      var rm := t.maps[curr];
      var b := if (Out, n) in rm then Filtered(st.bits, rm[(Out, n)]) else st.bits;
      var d := if (Out, n) in rm then Listed(rm[(Out, n)].count) else Direct;
      if n in t.peers then State(b, st.results[t.idToName[n] := d], st.stack)
      else State(b, st.results, st.stack + [(curr, n)])
  }

  /** One pass over the neighbours `ns` of `curr`, in order. */
  function ExportAll(t: Topology, prev: RouterId, curr: RouterId, ns: seq<RouterId>, st: State): (r: State)
    requires WellFormed(t) && curr in t.maps && Sized(st.bits)
    ensures Sized(r.bits)
    decreases |ns|
  {
    if ns == [] then st else ExportAll(t, prev, curr, ns[1..], Deliver(t, prev, curr, ns[0], st))
  }

  /** One pass over all neighbours for each of the `k` local announcements. */
  function Repeat(t: Topology, prev: RouterId, curr: RouterId, k: nat, st: State): (r: State)
    requires WellFormed(t) && curr in t.maps && Sized(st.bits)
    ensures Sized(r.bits)
  {
    if k == 0 then st else ExportAll(t, prev, curr, t.adj[curr], Repeat(t, prev, curr, k - 1, st))
  }

  /** Handling an edge popped off the stack: the import map, then the exports. */
  function Receive(t: Topology, prev: RouterId, curr: RouterId, st: State): (r: State)
    requires WellFormed(t) && curr in t.maps && Sized(st.bits)
    ensures Sized(r.bits)
  {
    var rm := t.maps[curr];
    if (In, prev) in rm then Repeat(t, prev, curr, rm[(In, prev)].count, st.(bits := Filtered(st.bits, rm[(In, prev)])))
    else Repeat(t, prev, curr, 1, st)
  }

  /** The traversal: pops the most recently pushed edge until the stack is empty, for at most `fuel` pops. */
  function Run(t: Topology, fuel: nat, st: State): (r: Result<State, Failure>)
    requires WellFormed(t) && Sized(st.bits)
    ensures r.Ok? ==> Sized(r.value.bits) && r.value.stack == []
    ensures r.Err? ==> r.error == OutOfFuel || r.error == NotInternal
  {
    if st.stack == [] then Ok(st)
    else if fuel == 0 then Err(OutOfFuel)
    else
      var (prev, curr) := st.stack[|st.stack| - 1];
      if curr !in t.maps then Err(NotInternal)
      else Run(t, fuel - 1, Receive(t, prev, curr, st.(stack := st.stack[..|st.stack| - 1])))
  }

  /**
   * The first edge: from the origin to its first neighbour. An origin that
   * is not a node fails as unknown, one without neighbours for want of an
   * ingress.
   */
  function Start(t: Topology, neighbor: string, bits: Bits): (r: Result<State, Failure>)
    ensures r == Err(UnknownNode) <==> Resolve(t.nameToId, neighbor) !in t.adj
    ensures r == Err(NoIngress) <==>
      Resolve(t.nameToId, neighbor) in t.adj && t.adj[Resolve(t.nameToId, neighbor)] == []
    ensures r.Ok? ==> var origin := Resolve(t.nameToId, neighbor);
      && origin in t.adj && t.adj[origin] != []
      && r.value.bits == bits && r.value.results == map[]
      && r.value.stack == [(origin, t.adj[origin][0])]
  {
    var origin := Resolve(t.nameToId, neighbor);
    if origin !in t.adj then Err(UnknownNode)
    else if t.adj[origin] == [] then Err(NoIngress)
    else Ok(State(bits, map[], [(origin, t.adj[origin][0])]))
  }

  /**
   * `propagate_announcement`: the first edge, then the traversal. It fails
   * as unknown exactly when the origin is not a node, for want of an
   * ingress exactly when the origin is a node without neighbours, and
   * otherwise ends with an empty stack or on a popped router that is not
   * internal or out of fuel.
   */
  function Propagate(t: Topology, neighbor: string, bits: Bits, fuel: nat): (r: Result<State, Failure>)
    requires WellFormed(t) && Sized(bits)
    ensures r == Err(UnknownNode) <==> Resolve(t.nameToId, neighbor) !in t.adj
    ensures r == Err(NoIngress) <==>
      Resolve(t.nameToId, neighbor) in t.adj && t.adj[Resolve(t.nameToId, neighbor)] == []
    ensures r.Ok? ==> r.value.stack == []
  {
    match Start(t, neighbor, bits)
    case Err(e) => Err(e)
    case Ok(st) => Run(t, fuel, st)
  }

  // ---------------------------------------------------------------------
  // Properties of the traversal

  /** Names of external routers. */
  function PeerNames(t: Topology): set<string>
    requires t.peers <= t.idToName.Keys
  {
    set p | p in t.peers :: t.idToName[p]
  }

  /** The edges one pass over `ns` pushes: to every non-peer neighbour except the sender. */
  function Pushed(t: Topology, prev: RouterId, curr: RouterId, ns: seq<RouterId>): (es: seq<(RouterId, RouterId)>)
    ensures forall i :: 0 <= i < |es| ==> es[i].0 == curr && es[i].1 != prev && es[i].1 in ns && es[i].1 !in t.peers
  {
    if ns == [] then []
    else (if ns[0] != prev && ns[0] !in t.peers then [(curr, ns[0])] else []) + Pushed(t, prev, curr, ns[1..])
  }

  /** The peers one pass over `ns` delivers to: every peer neighbour except the sender. */
  function Reached(t: Topology, prev: RouterId, ns: seq<RouterId>): set<string>
    requires t.peers <= t.idToName.Keys
  {
    set n | n in ns && n != prev && n in t.peers :: t.idToName[n]
  }

  lemma AppendAssociates<T>(a: seq<T>, b: seq<T>, c: seq<T>)
    ensures a + b + c == a + (b + c)
  {
  }

  /** One pass over the neighbours pushes exactly the edges to the non-peer neighbours other than the sender, in order. */
  lemma {:induction false} ExportAllPushes(t: Topology, prev: RouterId, curr: RouterId, ns: seq<RouterId>, st: State)
    requires WellFormed(t) && curr in t.maps && Sized(st.bits)
    ensures ExportAll(t, prev, curr, ns, st).stack == st.stack + Pushed(t, prev, curr, ns)
    decreases |ns|
  {
    if ns != [] {
      var next := Deliver(t, prev, curr, ns[0], st);
      var pushed := if ns[0] != prev && ns[0] !in t.peers then [(curr, ns[0])] else [];
      ExportAllPushes(t, prev, curr, ns[1..], next);
      assert next.stack == st.stack + pushed;
      assert Pushed(t, prev, curr, ns) == pushed + Pushed(t, prev, curr, ns[1..]);
      AppendAssociates(st.stack, pushed, Pushed(t, prev, curr, ns[1..]));
    }
  }

  lemma ReachedCons(t: Topology, prev: RouterId, ns: seq<RouterId>)
    requires t.peers <= t.idToName.Keys && ns != []
    ensures Reached(t, prev, ns) == Reached(t, prev, [ns[0]]) + Reached(t, prev, ns[1..])
  {
    assert forall n :: n in ns <==> n == ns[0] || n in ns[1..];
  }

  /** One pass over the neighbours delivers to exactly the peers other than the sender: nothing goes back where it came from. */
  lemma {:induction false} ExportAllReaches(t: Topology, prev: RouterId, curr: RouterId, ns: seq<RouterId>, st: State)
    requires WellFormed(t) && curr in t.maps && Sized(st.bits)
    ensures ExportAll(t, prev, curr, ns, st).results.Keys == st.results.Keys + Reached(t, prev, ns)
    decreases |ns|
  {
    if ns != [] {
      var next := Deliver(t, prev, curr, ns[0], st);
      ExportAllReaches(t, prev, curr, ns[1..], next);
      ReachedCons(t, prev, ns);
      assert next.results.Keys == st.results.Keys + Reached(t, prev, [ns[0]]);
    }
  }

  /** `later` is reachable from `earlier`: only peer names were added and both fields only lost bits. */
  predicate Descends(t: Topology, earlier: State, later: State)
    requires t.peers <= t.idToName.Keys
  {
    && later.results.Keys <= earlier.results.Keys + PeerNames(t)
    && Below(later.bits.ip, earlier.bits.ip) && Below(later.bits.nh, earlier.bits.nh)
  }

  lemma DescendsTransitive(t: Topology, a: State, b: State, c: State)
    requires t.peers <= t.idToName.Keys && Descends(t, a, b) && Descends(t, b, c)
    ensures Descends(t, a, c)
  {
  }

  lemma FilteredBelow(b: Bits, mv: MapView)
    requires Sized(b) && ViewFits(mv)
    ensures Below(Filtered(b, mv).ip, b.ip) && Below(Filtered(b, mv).nh, b.nh)
  {
    NarrowBelow(b.ip, IpPrefix, mv.filters);
    NarrowBelow(b.nh, NextHop, mv.filters);
  }

  lemma DeliverDescends(t: Topology, prev: RouterId, curr: RouterId, n: RouterId, st: State)
    requires WellFormed(t) && curr in t.maps && Sized(st.bits)
    ensures Descends(t, st, Deliver(t, prev, curr, n, st))
  {
    var rm := t.maps[curr];
    if n != prev && (Out, n) in rm {
      FilteredBelow(st.bits, rm[(Out, n)]);
    }
  }

  lemma {:induction false} ExportAllDescends(t: Topology, prev: RouterId, curr: RouterId, ns: seq<RouterId>, st: State)
    requires WellFormed(t) && curr in t.maps && Sized(st.bits)
    ensures Descends(t, st, ExportAll(t, prev, curr, ns, st))
    decreases |ns|
  {
    if ns != [] {
      var next := Deliver(t, prev, curr, ns[0], st);
      DeliverDescends(t, prev, curr, ns[0], st);
      ExportAllDescends(t, prev, curr, ns[1..], next);
      DescendsTransitive(t, st, next, ExportAll(t, prev, curr, ns, st));
    }
  }

  lemma {:induction false} RepeatDescends(t: Topology, prev: RouterId, curr: RouterId, k: nat, st: State)
    requires WellFormed(t) && curr in t.maps && Sized(st.bits)
    ensures Descends(t, st, Repeat(t, prev, curr, k, st))
  {
    if k > 0 {
      var before := Repeat(t, prev, curr, k - 1, st);
      RepeatDescends(t, prev, curr, k - 1, st);
      ExportAllDescends(t, prev, curr, t.adj[curr], before);
      DescendsTransitive(t, st, before, Repeat(t, prev, curr, k, st));
    }
  }

  lemma ReceiveDescends(t: Topology, prev: RouterId, curr: RouterId, st: State)
    requires WellFormed(t) && curr in t.maps && Sized(st.bits)
    ensures Descends(t, st, Receive(t, prev, curr, st))
  {
    var rm := t.maps[curr];
    if (In, prev) in rm {
      var entry := st.(bits := Filtered(st.bits, rm[(In, prev)]));
      FilteredBelow(st.bits, rm[(In, prev)]);
      RepeatDescends(t, prev, curr, rm[(In, prev)].count, entry);
      DescendsTransitive(t, st, entry, Receive(t, prev, curr, st));
    } else {
      RepeatDescends(t, prev, curr, 1, st);
    }
  }

  /** A completed traversal only adds deliveries to peers and only narrows the announcement. */
  lemma {:induction false} RunDescends(t: Topology, fuel: nat, st: State)
    requires WellFormed(t) && Sized(st.bits)
    ensures Run(t, fuel, st).Ok? ==> Descends(t, st, Run(t, fuel, st).value)
  {
    if st.stack != [] && fuel > 0 {
      var (prev, curr) := st.stack[|st.stack| - 1];
      if curr in t.maps {
        var popped := st.(stack := st.stack[..|st.stack| - 1]);
        var next := Receive(t, prev, curr, popped);
        ReceiveDescends(t, prev, curr, popped);
        RunDescends(t, fuel - 1, next);
        if Run(t, fuel, st).Ok? {
          DescendsTransitive(t, st, next, Run(t, fuel, st).value);
        }
      }
    }
  }

  /** Every result of a propagation is keyed by the name of an external router, and the fields were only narrowed. */
  lemma PropagateResults(t: Topology, neighbor: string, bits: Bits, fuel: nat)
    requires WellFormed(t) && Sized(bits)
    ensures var r := Propagate(t, neighbor, bits, fuel);
      r.Ok? ==> r.value.results.Keys <= PeerNames(t) && Below(r.value.bits.ip, bits.ip) && Below(r.value.bits.nh, bits.nh)
  {
    var s := Start(t, neighbor, bits);
    if s.Ok? {
      RunDescends(t, fuel, s.value);
    }
  }

  /** One turn of the traversal loop. */
  lemma RunPop(t: Topology, fuel: nat, fuel': nat, st: State, prev: RouterId, curr: RouterId, next: State)
    requires WellFormed(t) && Sized(st.bits) && fuel == fuel' + 1 && st.stack != []
    requires st.stack[|st.stack| - 1] == (prev, curr) && curr in t.maps
    requires next == Receive(t, prev, curr, st.(stack := st.stack[..|st.stack| - 1]))
    ensures Run(t, fuel, st) == Run(t, fuel', next)
  {
  }

  /** The stack is last in, first out: the edge pushed last is handled first. */
  lemma RunPopsLast(t: Topology, fuel: nat, b: Bits, results: map<string, Delivery>,
                    stack: seq<(RouterId, RouterId)>, prev: RouterId, curr: RouterId)
    requires WellFormed(t) && Sized(b) && curr in t.maps
    ensures Run(t, fuel + 1, State(b, results, stack + [(prev, curr)]))
      == Run(t, fuel, Receive(t, prev, curr, State(b, results, stack)))
  {
    assert (stack + [(prev, curr)])[..|stack|] == stack;
  }

  // ---------------------------------------------------------------------
  // The announcement object behind a value-level state

  function RealizeDelivery(d: Delivery, a: RouteAnnouncement): Export
  {
    match d
    case Direct => Single(a)
    case Listed(c) => Many(seq(c, _ => a))
  }

  function RealizeResults(results: map<string, Delivery>, a: RouteAnnouncement): map<string, Export>
  {
    map name | name in results :: RealizeDelivery(results[name], a)
  }

  function RealizeStack(stack: seq<(RouterId, RouterId)>, a: RouteAnnouncement): seq<(RouterId, RouterId, RouteAnnouncement)>
  {
    seq(|stack|, i requires 0 <= i < |stack| => (stack[i].0, stack[i].1, a))
  }

  lemma RealizeResultsUpdate(results: map<string, Delivery>, a: RouteAnnouncement, name: string, d: Delivery)
    ensures RealizeResults(results[name := d], a) == RealizeResults(results, a)[name := RealizeDelivery(d, a)]
  {
  }

  lemma RealizeStackPush(stack: seq<(RouterId, RouterId)>, a: RouteAnnouncement, e: (RouterId, RouterId))
    ensures RealizeStack(stack + [e], a) == RealizeStack(stack, a) + [(e.0, e.1, a)]
  {
  }

  lemma RealizeStackPop(stack: seq<(RouterId, RouterId)>, a: RouteAnnouncement)
    requires stack != []
    ensures RealizeStack(stack[..|stack| - 1], a) == RealizeStack(stack, a)[..|stack| - 1]
    ensures RealizeStack(stack, a)[|stack| - 1] == (stack[|stack| - 1].0, stack[|stack| - 1].1, a)
  {
  }

  /** The method's result is the value-level outcome, realized with the announcement object `a`. */
  ghost predicate Outcome(result: Result<map<string, Export>, Failure>, r: Result<State, Failure>, a: RouteAnnouncement)
    reads a.ipPrefix.bitarray, a.nextHop.bitarray
  {
    && (result.Ok? <==> r.Ok?)
    && (r.Err? ==> result.error == r.error)
    && (r.Ok? ==> result.value == RealizeResults(r.value.results, a)
                  && r.value.bits == Bits(a.ipPrefix.bitarray[..], a.nextHop.bitarray[..]))
  }

  /** The traversal's loop invariant: the route maps are ready and the concrete state realizes `st`. */
  ghost predicate Walking(fr: Frame, a: RouteAnnouncement, st: State,
                          stack: seq<(RouterId, RouterId, RouteAnnouncement)>, results: map<string, Export>)
    reads fr.maps, fr.items, fr.patterns, a.ipPrefix.bitarray, a.nextHop.bitarray
  {
    Prepared(fr, a) && Realizes(st, a, stack, results) && Sized(st.bits)
  }

  /** The concrete stack, results and announcement fields are the value-level state. */
  ghost predicate Realizes(st: State, a: RouteAnnouncement,
                           remaining: seq<(RouterId, RouterId, RouteAnnouncement)>, results: map<string, Export>)
    reads a.ipPrefix.bitarray, a.nextHop.bitarray
  {
    && st.bits == Bits(a.ipPrefix.bitarray[..], a.nextHop.bitarray[..])
    && remaining == RealizeStack(st.stack, a)
    && results == RealizeResults(st.results, a)
  }

  // ---------------------------------------------------------------------

  /** The objects the traversal reads and writes, fixed when it starts, and the effect of every route map. */
  datatype Frame = Frame(maps: set<RouteMap>, items: set<RouteMapItems>, patterns: set<array<bool>>,
                         views: map<RouteMap, MapView>)

  /** Every route map of the frame is valid, can be applied and has the recorded effect. */
  ghost predicate Ready(fr: Frame)
    reads fr.maps, fr.items, fr.patterns
  {
    forall m :: m in fr.maps ==>
      && m.items.Values <= fr.items && m.PatternArrays() <= fr.patterns
      && m in fr.views && m.Valid() && m.Applicable() && m.View() == fr.views[m]
  }

  /** The frame is ready and no pattern array is a field of `a`. */
  ghost predicate Prepared(fr: Frame, a: RouteAnnouncement)
    reads fr.maps, fr.items, fr.patterns
  {
    Ready(fr) && a.ipPrefix.bitarray !in fr.patterns && a.nextHop.bitarray !in fr.patterns
  }

  /** `routeMaps` are the route maps of internal router `curr` with the effects `t` records, and its export maps face peers. */
  ghost predicate MapsAt(t: Topology, fr: Frame, curr: RouterId, routeMaps: map<(Direction, RouterId), RouteMap>)
  {
    && curr in t.maps && routeMaps.Keys == t.maps[curr].Keys
    && (forall k :: k in routeMaps ==> routeMaps[k] in fr.maps && routeMaps[k] in fr.views && t.maps[curr][k] == fr.views[routeMaps[k]])
    && (forall n :: (Out, n) in routeMaps && n in t.adj ==> n in t.peers)
  }

  /** `in_map.apply` / `out_map.apply` inside the traversal: the other maps keep their effect. */
  method ApplyRouteMap(m: RouteMap, a: RouteAnnouncement, ghost fr: Frame) returns (processed: seq<RouteAnnouncement>)
    requires m in fr.maps && Prepared(fr, a) && a.Valid()
    modifies m`sequence, a.ipPrefix.bitarray, a.nextHop.bitarray
    ensures Prepared(fr, a) && ViewFits(fr.views[m])
    ensures processed == seq(fr.views[m].count, _ => a)
    ensures a.ipPrefix.bitarray[..] == Narrow(old(a.ipPrefix.bitarray[..]), IpPrefix, fr.views[m].filters)
    ensures a.nextHop.bitarray[..] == Narrow(old(a.nextHop.bitarray[..]), NextHop, fr.views[m].filters)
  {
    processed := m.Apply(a);
    m.ViewPatternsFit();
    forall m' | m' in fr.maps
      ensures m'.items.Values <= fr.items && m'.PatternArrays() <= fr.patterns
      ensures m' in fr.views && m'.Valid() && m'.Applicable() && m'.View() == fr.views[m']
    {
      if m' != m {
        assert old(m'.View()) == fr.views[m'];
      }
    }
  }

  /** The import step: the IN map for the sender if there is one, otherwise the announcement alone. */
  method Import(prevId: RouterId, currId: RouterId, routeMaps: map<(Direction, RouterId), RouteMap>,
                a: RouteAnnouncement, ghost fr: Frame, ghost t: Topology, ghost st: State)
    returns (locals: seq<RouteAnnouncement>, ghost entry: State)
    requires WellFormed(t) && MapsAt(t, fr, currId, routeMaps)
    requires Prepared(fr, a) && a.Valid() && st.bits == Bits(a.ipPrefix.bitarray[..], a.nextHop.bitarray[..]) && Sized(st.bits)
    modifies fr.maps`sequence, a.ipPrefix.bitarray, a.nextHop.bitarray
    ensures Prepared(fr, a) && entry.bits == Bits(a.ipPrefix.bitarray[..], a.nextHop.bitarray[..])
    ensures Sized(entry.bits) && entry.results == st.results && entry.stack == st.stack
    ensures forall i :: 0 <= i < |locals| ==> locals[i] == a
    ensures var rm := t.maps[currId];
      if (In, prevId) in rm then entry == st.(bits := Filtered(st.bits, rm[(In, prevId)])) && |locals| == rm[(In, prevId)].count
      else entry == st && |locals| == 1
  {
    if (In, prevId) in routeMaps {
      var inMap := routeMaps[(In, prevId)];
      ghost var mv := fr.views[inMap];
      assert t.maps[currId][(In, prevId)] == mv;
      locals := ApplyRouteMap(inMap, a, fr);
      entry := st.(bits := Filtered(st.bits, mv));
      assert entry.bits == Bits(a.ipPrefix.bitarray[..], a.nextHop.bitarray[..]);
    } else {
      locals := [a];
      entry := st;
    }
  }

  class NetworkTopology {
    var adj: Graph
    var routers: map<RouterId, InternalRouter>
    var peers: map<RouterId, ExternalRouter>
    var nameToId: map<string, RouterId>
    var idToName: map<RouterId, string>

    /** The nodes are exactly the registered routers, each with a name, and the graph is undirected. */
    ghost predicate Valid()
      reads this
    {
      && Undirected(adj)
      && adj.Keys == routers.Keys + peers.Keys
      && idToName.Keys == adj.Keys
    }

    constructor ()
      ensures Valid()
      ensures adj == map[] && routers == map[] && peers == map[]
      ensures nameToId == map[] && idToName == map[]
    {
      adj := map[];
      routers := map[];
      peers := map[];
      nameToId := map[];
      idToName := map[];
    }

    /** Adds the node (keeping its edges if it exists), registers an internal router and both name maps. */
    method AddInternalRouter(name: string, routerId: RouterId, asNumber: int) returns (r: InternalRouter)
      requires Valid()
      modifies this
      ensures Valid()
      ensures adj == AddNode(old(adj), routerId)
      ensures fresh(r) && r.id == routerId && r.name == name && r.asNumber == asNumber && r.routeMaps == map[]
      ensures routers == old(routers)[routerId := r] && peers == old(peers)
      ensures nameToId == old(nameToId)[name := routerId] && idToName == old(idToName)[routerId := name]
    {
      r := new InternalRouter(routerId, name, asNumber);
      var graph, internal, names := AddNode(adj, routerId), routers[routerId := r], idToName[routerId := name];
      assert Undirected(graph) && graph.Keys == internal.Keys + peers.Keys && names.Keys == graph.Keys;
      adj, routers, idToName := graph, internal, names;
      nameToId := nameToId[name := routerId];
    }

    /** Adds the node, registers an external peer and both name maps. */
    method AddExternalRouter(name: string, routerId: RouterId, asNumber: int)
      requires Valid()
      modifies this
      ensures Valid()
      ensures adj == AddNode(old(adj), routerId)
      ensures peers == old(peers)[routerId := ExternalRouter(routerId, name, asNumber)]
      ensures routers == old(routers)
      ensures nameToId == old(nameToId)[name := routerId] && idToName == old(idToName)[routerId := name]
    {
      var graph, external, names := AddNode(adj, routerId), peers[routerId := ExternalRouter(routerId, name, asNumber)], idToName[routerId := name];
      assert Undirected(graph) && graph.Keys == routers.Keys + external.Keys && names.Keys == graph.Keys;
      adj, peers, idToName := graph, external, names;
      nameToId := nameToId[name := routerId];
    }

    /** Resolves both names and adds the edge when both ends are nodes; otherwise nothing changes. */
    method AddPeering(r1: string, r2: string)
      requires Valid()
      modifies this
      ensures Valid()
      ensures var u, v := Resolve(old(nameToId), r1), Resolve(old(nameToId), r2);
        adj == if u in old(adj) && v in old(adj) then AddEdge(old(adj), u, v) else old(adj)
      ensures routers == old(routers) && peers == old(peers)
      ensures nameToId == old(nameToId) && idToName == old(idToName)
    {
      var u := r1;
      if r1 in nameToId {
        u := nameToId[r1];
      }
      var v := r2;
      if r2 in nameToId {
        v := nameToId[r2];
      }
      assert u == Resolve(nameToId, r1) && v == Resolve(nameToId, r2);
      if u in adj && v in adj {
        var graph := AddEdge(adj, u, v);
        AddEdgeUndirected(adj, u, v);
        adj := graph;
      }
    }

    // -------------------------------------------------------------------
    // The route maps reachable from the routers

    /** Every route map of every router is among `maps`. */
    ghost predicate Covers(maps: set<RouteMap>)
      reads this, routers.Values
    {
      forall r, k :: r in routers && k in routers[r].routeMaps ==> routers[r].routeMaps[k] in maps
    }

    ghost function AllMaps(): set<RouteMap>
      reads this, routers.Values
    {
      set r, k | r in routers && k in routers[r].routeMaps :: routers[r].routeMaps[k]
    }

    lemma AllMapsCover()
      ensures Covers(AllMaps())
    {
      forall r, k | r in routers && k in routers[r].routeMaps
        ensures routers[r].routeMaps[k] in AllMaps()
      {
      }
    }

    ghost function AllItems(): set<RouteMapItems>
      reads this, routers.Values, AllMaps()
    {
      set m, it | m in AllMaps() && it in m.items.Values :: it
    }

    ghost function AllPatterns(): set<array<bool>>
      reads this, routers.Values, AllMaps(), AllItems()
    {
      set m, arr | m in AllMaps() && arr in m.PatternArrays() :: arr
    }

    lemma MapFrame(m: RouteMap)
      requires m in AllMaps()
      ensures m.items.Values <= AllItems() && m.PatternArrays() <= AllPatterns()
    {
      forall it | it in m.items.Values
        ensures it in AllItems()
      {
        assert m in AllMaps() && it in m.items.Values;
      }
      forall arr | arr in m.PatternArrays()
        ensures arr in AllPatterns()
      {
        assert m in AllMaps() && arr in m.PatternArrays();
      }
    }

    ghost predicate MapsValid()
      reads this, routers.Values, AllMaps()
    {
      forall m :: m in AllMaps() ==> m.Valid()
    }

    /** The effect of every route map now. */
    ghost function ViewsNow(): (v: map<RouteMap, MapView>)
      requires MapsValid()
      reads this, routers.Values, AllMaps(), AllItems(), AllPatterns()
      ensures v.Keys == AllMaps()
    {
      map m | m in AllMaps() :: (MapFrame(m); m.View())
    }

    /** The network as propagation sees it, given the effect of every route map. */
    ghost function TopologyFrom(views: map<RouteMap, MapView>): Topology
      requires Covers(views.Keys)
      reads this, routers.Values
    {
      Topology(
        adj,
        map r | r in routers :: map k | k in routers[r].routeMaps :: views[routers[r].routeMaps[k]],
        peers.Keys, idToName, nameToId)
    }

    /** Export route maps are attached only toward external peers (or toward ids that are not nodes). */
    ghost predicate OutMapsTowardPeers()
      reads this, routers.Values
    {
      forall r, n :: r in routers && (Out, n) in routers[r].routeMaps && n in adj ==> n in peers
    }

    /** `t` has this network's graph, peers and names. */
    ghost predicate Sees(t: Topology)
      reads this
    {
      t.adj == adj && t.peers == peers.Keys && t.idToName == idToName
    }

    /** What the traversal relies on: `t` is the network as it sees it, and the frame holds every router's route maps. */
    ghost predicate Tied(fr: Frame, t: Topology)
      reads this, routers.Values
    {
      && Sees(t) && WellFormed(t) && t.maps.Keys <= routers.Keys
      && (forall u, v :: u in adj && v in adj[u] ==> v in adj)
      && (forall r :: r in routers ==> MapsAt(t, fr, r, routers[r].routeMaps))
    }

    lemma TiedTopology(fr: Frame)
      requires Valid() && OutMapsTowardPeers() && Covers(fr.maps) && Covers(fr.views.Keys) && Ready(fr)
      ensures Tied(fr, TopologyFrom(fr.views))
    {
      var t := TopologyFrom(fr.views);
      forall r, k | r in t.maps && k in t.maps[r]
        ensures ViewFits(t.maps[r][k])
      {
        routers[r].routeMaps[k].ViewPatternsFit();
      }
    }

    /** The network as propagation sees it now. */
    ghost function Snapshot(): Topology
      requires MapsValid()
      reads this, routers.Values, AllMaps(), AllItems(), AllPatterns()
    {
      AllMapsCover();
      TopologyFrom(ViewsNow())
    }

    /** The fields propagation starts from: the given announcement's, or those of a fresh, all-wildcard one. */
    ghost function InitialBits(announcement: Option<RouteAnnouncement>): Bits
      reads if announcement.Some? then {announcement.value.ipPrefix.bitarray, announcement.value.nextHop.bitarray} else {}
    {
      match announcement
      case None => Bits(Ones(64), Ones(64))
      case Some(a) => Bits(a.ipPrefix.bitarray[..], a.nextHop.bitarray[..])
    }

    /** Sends the local announcement from `currId` to neighbour `n`, unless `n` is the sender. */
    method ExportTo(prevId: RouterId, currId: RouterId, routeMaps: map<(Direction, RouterId), RouteMap>, n: RouterId,
                    a: RouteAnnouncement, remaining: seq<(RouterId, RouterId, RouteAnnouncement)>, results: map<string, Export>,
                    ghost fr: Frame, ghost t: Topology, ghost st: State)
      returns (remaining': seq<(RouterId, RouterId, RouteAnnouncement)>, results': map<string, Export>, ghost st': State)
      requires Sees(t) && WellFormed(t) && MapsAt(t, fr, currId, routeMaps) && n in adj
      requires Prepared(fr, a) && a.Valid() && Realizes(st, a, remaining, results) && Sized(st.bits)
      modifies fr.maps`sequence, a.ipPrefix.bitarray, a.nextHop.bitarray
      ensures Prepared(fr, a) && Realizes(st', a, remaining', results')
      ensures st' == Deliver(t, prevId, currId, n, st)
    {
      remaining', results', st' := remaining, results, st;
      if n != prevId {
        var exported: Export;
        if (Out, n) in routeMaps {
          var outMap := routeMaps[(Out, n)];
          var processed := ApplyRouteMap(outMap, a, fr);
          exported := Many(processed);
        } else {
          exported := Single(a);
        }
        st' := Deliver(t, prevId, currId, n, st);
        if n in peers {
          assert exported == RealizeDelivery(st'.results[idToName[n]], a);
          RealizeResultsUpdate(st.results, a, idToName[n], st'.results[idToName[n]]);
          results' := results'[idToName[n] := exported];
        } else {
          match exported {
            case Single(x) =>
              RealizeStackPush(st.stack, a, (currId, n));
              remaining' := remaining' + [(currId, n, x)];
            case Many(_) =>
              assert false;
          }
        }
      }
    }

    /** The inner loop: one pass over the neighbours of `currId`, in the graph's order. */
    method ExportFrom(prevId: RouterId, currId: RouterId, routeMaps: map<(Direction, RouterId), RouteMap>,
                      a: RouteAnnouncement, remaining: seq<(RouterId, RouterId, RouteAnnouncement)>, results: map<string, Export>,
                      ghost fr: Frame, ghost t: Topology, ghost st: State)
      returns (remaining': seq<(RouterId, RouterId, RouteAnnouncement)>, results': map<string, Export>, ghost st': State)
      requires Sees(t) && WellFormed(t) && MapsAt(t, fr, currId, routeMaps)
      requires currId in adj && forall n :: n in adj[currId] ==> n in adj
      requires Prepared(fr, a) && a.Valid() && Realizes(st, a, remaining, results) && Sized(st.bits)
      modifies fr.maps`sequence, a.ipPrefix.bitarray, a.nextHop.bitarray
      ensures Prepared(fr, a) && Realizes(st', a, remaining', results')
      ensures st' == ExportAll(t, prevId, currId, t.adj[currId], st)
    {
      var neighbors := adj[currId];
      remaining', results', st' := remaining, results, st;
      for j := 0 to |neighbors|
        invariant Prepared(fr, a) && Realizes(st', a, remaining', results') && Sized(st'.bits)
        invariant ExportAll(t, prevId, currId, neighbors[j..], st') == ExportAll(t, prevId, currId, neighbors, st)
      {
        assert neighbors[j..][1..] == neighbors[j + 1..];
        remaining', results', st' := ExportTo(prevId, currId, routeMaps, neighbors[j], a, remaining', results', fr, t, st');
      }
    }

    /** Handles one popped edge: the import map for the sender, then one export pass per resulting announcement. */
    method ReceiveAt(prevId: RouterId, currId: RouterId, routeMaps: map<(Direction, RouterId), RouteMap>,
                     a: RouteAnnouncement, remaining: seq<(RouterId, RouterId, RouteAnnouncement)>, results: map<string, Export>,
                     ghost fr: Frame, ghost t: Topology, ghost st: State)
      returns (remaining': seq<(RouterId, RouterId, RouteAnnouncement)>, results': map<string, Export>, ghost st': State)
      requires Sees(t) && WellFormed(t) && MapsAt(t, fr, currId, routeMaps)
      requires currId in adj && forall n :: n in adj[currId] ==> n in adj
      requires Prepared(fr, a) && a.Valid() && Realizes(st, a, remaining, results) && Sized(st.bits)
      modifies fr.maps`sequence, a.ipPrefix.bitarray, a.nextHop.bitarray
      ensures Prepared(fr, a) && Realizes(st', a, remaining', results')
      ensures st' == Receive(t, prevId, currId, st)
    {
      var locals: seq<RouteAnnouncement>;
      ghost var entry: State;
      locals, entry := Import(prevId, currId, routeMaps, a, fr, t, st);
      remaining', results', st' := ExportEach(prevId, currId, routeMaps, locals, a, remaining, results, fr, t, entry);
    }

    /** The export passes, one for each local announcement the import step produced. */
    method ExportEach(prevId: RouterId, currId: RouterId, routeMaps: map<(Direction, RouterId), RouteMap>,
                      locals: seq<RouteAnnouncement>, a: RouteAnnouncement,
                      remaining: seq<(RouterId, RouterId, RouteAnnouncement)>, results: map<string, Export>,
                      ghost fr: Frame, ghost t: Topology, ghost st: State)
      returns (remaining': seq<(RouterId, RouterId, RouteAnnouncement)>, results': map<string, Export>, ghost st': State)
      requires Sees(t) && WellFormed(t) && MapsAt(t, fr, currId, routeMaps)
      requires currId in adj && forall n :: n in adj[currId] ==> n in adj
      requires forall i :: 0 <= i < |locals| ==> locals[i] == a
      requires Prepared(fr, a) && a.Valid() && Realizes(st, a, remaining, results) && Sized(st.bits)
      modifies fr.maps`sequence, a.ipPrefix.bitarray, a.nextHop.bitarray
      ensures Prepared(fr, a) && Realizes(st', a, remaining', results')
      ensures st' == Repeat(t, prevId, currId, |locals|, st)
    {
      remaining', results', st' := remaining, results, st;
      for i := 0 to |locals|
        invariant Prepared(fr, a) && Realizes(st', a, remaining', results') && Sized(st'.bits)
        invariant st' == Repeat(t, prevId, currId, i, st)
      {
        remaining', results', st' := ExportFrom(prevId, currId, routeMaps, locals[i], remaining', results', fr, t, st');
      }
    }

    /** At the start of a traversal the frame holds every route map, each ready to be applied. */
    lemma Establish(fr: Frame)
      requires Valid() && OutMapsTowardPeers() && MapsValid()
      requires forall m :: m in AllMaps() ==> m.Applicable()
      requires fr == Frame(AllMaps(), AllItems(), AllPatterns(), ViewsNow())
      ensures Ready(fr) && Tied(fr, TopologyFrom(fr.views))
    {
      forall m | m in fr.maps
        ensures m.items.Values <= fr.items && m.PatternArrays() <= fr.patterns
      {
        MapFrame(m);
      }
      AllMapsCover();
      TiedTopology(fr);
    }

    /**
     * Propagates an announcement that arrives from `neighbor` (a name or an
     * id) into the network and returns, by peer name, what each external
     * router is handed last. All stack entries share the one announcement, so
     * every route map met narrows it in place.
     */
    method PropagateAnnouncement(neighbor: string, announcement: Option<RouteAnnouncement>, fuel: nat)
      returns (result: Result<map<string, Export>, Failure>, ghost used: RouteAnnouncement)
      requires Valid() && OutMapsTowardPeers() && MapsValid()
      requires forall m :: m in AllMaps() ==> m.Applicable()
      requires announcement.Some? ==> announcement.value.Valid()
      requires announcement.Some? ==> forall m :: m in AllMaps() ==>
        announcement.value.ipPrefix.bitarray !in m.PatternArrays() && announcement.value.nextHop.bitarray !in m.PatternArrays()
      modifies AllMaps()`sequence
      modifies if announcement.Some? then {announcement.value.ipPrefix.bitarray, announcement.value.nextHop.bitarray} else {}
      ensures announcement.Some? ==> used == announcement.value
      ensures announcement.None? ==> fresh(used)
      ensures WellFormed(old(Snapshot()))
      ensures Outcome(result, Propagate(old(Snapshot()), neighbor, old(InitialBits(announcement)), fuel), used)
      ensures forall m :: m in old(AllMaps()) ==> m.Valid() && m.View() == old(m.View())
    {
      ghost var fr := Frame(AllMaps(), AllItems(), AllPatterns(), ViewsNow());
      ghost var t := TopologyFrom(fr.views);
      assert t == Snapshot();
      Establish(fr);
      ghost var bits0 := InitialBits(announcement);
      var a: RouteAnnouncement;
      if announcement.None? {
        a := new RouteAnnouncement(None, None, None, None, None, None);
      } else {
        a := announcement.value;
        forall arr | arr in fr.patterns
          ensures arr != a.ipPrefix.bitarray && arr != a.nextHop.bitarray
        {
          var m :| m in AllMaps() && arr in m.PatternArrays();
        }
      }
      used := a;
      result := Launch(neighbor, a, fr, t, bits0, fuel);
      forall m | m in old(AllMaps())
        ensures m.Valid() && m.View() == old(m.View())
      {
        assert fr.views[m] == old(m.View());
      }
    }

    /** Resolves the origin, takes its first neighbour as the ingress and runs the traversal. */
    method Launch(neighbor: string, a: RouteAnnouncement, ghost fr: Frame, ghost t: Topology, ghost bits0: Bits, fuel: nat)
      returns (result: Result<map<string, Export>, Failure>)
      requires Tied(fr, t) && t.nameToId == nameToId && a.Valid() && Prepared(fr, a)
      requires bits0 == Bits(a.ipPrefix.bitarray[..], a.nextHop.bitarray[..]) && Sized(bits0)
      modifies fr.maps`sequence, a.ipPrefix.bitarray, a.nextHop.bitarray
      ensures Prepared(fr, a)
      ensures Outcome(result, Propagate(t, neighbor, bits0, fuel), a)
    {
      var neighborId := neighbor;
      if neighbor in nameToId {
        neighborId := nameToId[neighbor];
      }
      if neighborId !in adj {
        return Err(UnknownNode);
      }
      var ingressRouters := adj[neighborId];
      if |ingressRouters| == 0 {
        return Err(NoIngress);
      }
      var ingressRouter := ingressRouters[0];
      ghost var st := State(bits0, map[], [(neighborId, ingressRouter)]);
      assert Start(t, neighbor, bits0) == Ok(st);
      result := Traverse(a, [(neighborId, ingressRouter, a)], fr, t, st, fuel);
    }

    /** The `while` loop of the traversal: pops the last edge until none is left or the fuel runs out. */
    method Traverse(a: RouteAnnouncement, remaining: seq<(RouterId, RouterId, RouteAnnouncement)>,
                    ghost fr: Frame, ghost t: Topology, ghost st: State, fuel: nat)
      returns (result: Result<map<string, Export>, Failure>)
      requires Tied(fr, t) && a.Valid() && Walking(fr, a, st, remaining, map[])
      modifies fr.maps`sequence, a.ipPrefix.bitarray, a.nextHop.bitarray
      ensures Prepared(fr, a)
      ensures Outcome(result, Run(t, fuel, st), a)
    {
      var stack := remaining;
      var externalRouters: map<string, Export> := map[];
      ghost var current := st;
      var fuelLeft := fuel;
      while stack != []
        invariant Walking(fr, a, current, stack, externalRouters)
        invariant Run(t, fuelLeft, current) == Run(t, fuel, st)
        decreases fuelLeft
      {
        var failure: Option<Failure>;
        stack, externalRouters, current, fuelLeft, failure := Step(a, stack, externalRouters, fr, t, current, fuelLeft);
        if failure.Some? {
          return Err(failure.value);
        }
      }
      result := Ok(externalRouters);
    }

    /** One turn of the loop: pops the last edge and handles it at its receiving router, if fuel is left and it is one. */
    method Step(a: RouteAnnouncement, stack: seq<(RouterId, RouterId, RouteAnnouncement)>, results: map<string, Export>,
                ghost fr: Frame, ghost t: Topology, ghost st: State, fuel: nat)
      returns (stack': seq<(RouterId, RouterId, RouteAnnouncement)>, results': map<string, Export>, ghost st': State,
               fuel': nat, failure: Option<Failure>)
      requires Tied(fr, t) && a.Valid() && Walking(fr, a, st, stack, results) && stack != []
      modifies fr.maps`sequence, a.ipPrefix.bitarray, a.nextHop.bitarray
      ensures Prepared(fr, a)
      ensures failure.Some? ==> Run(t, fuel, st) == Err(failure.value)
      ensures failure.None? ==> fuel' < fuel && Walking(fr, a, st', stack', results') && Run(t, fuel, st) == Run(t, fuel', st')
    {
      stack', results', st', fuel' := stack, results, st, fuel;
      if fuel == 0 {
        return stack', results', st', fuel', Some(OutOfFuel);
      }
      var (prevId, currId, announcement) := stack[|stack| - 1];
      RealizeStackPop(st.stack, a);
      if currId !in routers {
        return stack', results', st', fuel', Some(NotInternal);
      }
      fuel' := fuel - 1;
      stack' := stack[..|stack| - 1];
      var routeMaps := routers[currId].routeMaps;
      ghost var popped := st.(stack := st.stack[..|st.stack| - 1]);
      stack', results', st' := ReceiveAt(prevId, currId, routeMaps, announcement, stack', results, fr, t, popped);
      RunPop(t, fuel, fuel', st, prevId, currId, st');
      failure := None;
    }
  }
}
