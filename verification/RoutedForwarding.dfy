/** Per-hop forwarding of one routed packet over the path tables (internal/discovery/routed.go).
    The first byte of the payload is the hop limit, which each forwarder decrements in place;
    a dedup set per node remembers packet ids. */
module RoutedForwarding {
  import opened Basics
  import opened PathModel
  import PathObjects
  import Paths = PathProtocol

  type PacketId = nat
  type Seen = map<PacketId, int>

  const DEFAULT_HOP_LIMIT: nat := 16

  /** The hop limit of a routed payload; 0 if malformed. */
  function HopLimit(payload: seq<int>): int { if payload == [] then 0 else payload[0] }

  function Inner(payload: seq<int>): seq<int> { if payload == [] then [] else payload[1..] }

  datatype Action = Drop | HandOver(inner: seq<int>) | Forward(payload: seq<int>)

  /** What a node does with a routed packet it has not seen recently. */
  function Handle(self: Node, transport: bool, dest: Node, payload: seq<int>): Action {
    if dest == self then HandOver(Inner(payload))
    else if !transport || HopLimit(payload) <= 1 then Drop
    else Forward([payload[0] - 1] + payload[1..])
  }

  /** A node's forwarding state. */
  class RoutedNode {
    const self: Node
    const transport: bool
    const routedSeen: PathObjects.DedupSet<PacketId>
    const paths: PathObjects.PathTable

    constructor (self: Node, transport: bool, ttl: int, paths: PathObjects.PathTable)
      ensures this.self == self && this.transport == transport && this.paths == paths
      ensures fresh(routedSeen) && routedSeen.ttl == ttl && routedSeen.seen == map[]
    {
      this.self, this.transport, this.paths := self, transport, paths;
      routedSeen := new PathObjects.DedupSet<PacketId>(ttl);
    }

    /** Next hop towards dest, if the path table has one. */
    method RouteToward(dest: Node) returns (next: Option<Node>)
      ensures next == if dest in paths.entries then Some(paths.entries[dest].nextHop) else None
    {
      if dest !in paths.entries { return None; }
      return Some(paths.entries[dest].nextHop);
    }

    /** Delivers the packet here or rewrites its hop limit in place and names the next hop. */
    method HandleRouted(id: PacketId, dest: Node, payload: array<int>, now: int)
      returns (handed: Option<seq<int>>, next: Option<Node>)
      modifies payload, routedSeen
      ensures routedSeen.seen == Observed(old(routedSeen.seen), id, now, routedSeen.ttl)
      ensures var action := if Recent(old(routedSeen.seen), id, now, routedSeen.ttl) then Drop
                            else Handle(self, transport, dest, old(payload[..]));
        && handed == (if action.HandOver? then Some(action.inner) else None)
        && (action.Forward? ==> payload[..] == action.payload)
        && (!action.Forward? ==> payload[..] == old(payload[..]) && next == None)
        && (action.Forward? ==>
              next == if dest in old(paths.entries) then Some(old(paths.entries[dest].nextHop)) else None)
    {
      var repeated := routedSeen.Observe(id, now);
      if repeated { return None, None; }
      if dest == self {
        if payload.Length == 0 { return Some([]), None; }
        return Some(payload[1..]), None;
      }
      if !transport { return None, None; }
      if payload.Length == 0 || payload[0] <= 1 { return None, None; }
      ghost var was := payload[..];
      payload[0] := payload[0] - 1;
      assert payload[..] == [was[0] - 1] + was[1..];
      var hop := RouteToward(dest);
      return None, hop;
    }
  }

  // ---- one packet in the network --------------------------------------------------------

  datatype Packet = Packet(id: PacketId, origin: Node, dest: Node, limit: nat, inner: seq<int>)
  {
    /** The limit SendRouted uses: 0 stands for the default. */
    function Limit(): nat { if limit == 0 then DEFAULT_HOP_LIMIT else limit }
  }

  /** A copy of the packet on its way to a node. */
  datatype Copy = Copy(to: Node, payload: seq<int>)

  datatype World = World(air: multiset<Copy>, seen: map<Node, Seen>, sent: nat, handed: seq<seq<int>>)
  {
    function SeenBy(u: Node): Seen { if u in seen then seen[u] else map[] }
  }

  datatype Event =
    | Deliver(c: Copy, now: int, next: Option<Node>) // next: what the receiver's path table says at that moment
    | Lose(c: Copy)
    | Duplicate(c: Copy)
    | Foreign(u: Node, id: PacketId, now: int)       // another packet passes through node u

  ghost predicate Init(p: Packet, first: Node, w: World) {
    && w.air == multiset{Copy(first, [p.Limit()] + p.inner)} && w.sent == 1 && w.handed == []
    && forall u :: p.id !in w.SeenBy(u)
  }

  function Delivered(p: Packet, ttl: int, transports: set<Node>, w: World, c: Copy, now: int,
                     next: Option<Node>): World {
    var seen := w.SeenBy(c.to);
    var action := if Recent(seen, p.id, now, ttl) then Drop else Handle(c.to, c.to in transports, p.dest, c.payload);
    var w' := w.(air := w.air - multiset{c}, seen := w.seen[c.to := Observed(seen, p.id, now, ttl)]);
    match action
    case Drop => w'
    case HandOver(inner) => w'.(handed := w'.handed + [inner])
    case Forward(payload) =>
      if next.None? then w' else w'.(air := w'.air + multiset{Copy(next.value, payload)}, sent := w'.sent + 1)
  }

  ghost predicate Step(p: Packet, ttl: int, transports: set<Node>, w: World, e: Event, w': World) {
    match e
    case Deliver(c, now, next) => c in w.air && w' == Delivered(p, ttl, transports, w, c, now, next)
    case Lose(c) => c in w.air && w' == w.(air := w.air - multiset{c})
    case Duplicate(c) => c in w.air && w' == w.(air := w.air + multiset{c})
    case Foreign(u, id, now) =>
      id != p.id && w' == w.(seen := w.seen[u := Observed(w.SeenBy(u), id, now, ttl)])
  }

  ghost predicate Run(p: Packet, ttl: int, transports: set<Node>, first: Node, ws: seq<World>, es: seq<Event>) {
    && |ws| == |es| + 1 && Init(p, first, ws[0])
    && forall i :: 0 <= i < |es| ==> Step(p, ttl, transports, ws[i], es[i], ws[i + 1])
  }

  /** All clock readings fall in one dedup lifetime starting at t. */
  ghost predicate OneLifetime(ttl: int, t: int, es: seq<Event>) {
    forall i :: 0 <= i < |es| && (es[i].Deliver? || es[i].Foreign?) ==> t <= es[i].now < t + ttl
  }

  // ---- handed over at most once, intact -----------------------------------------------------

  /** Every recorded sighting of the packet is still remembered. */
  ghost predicate Fresh(p: Packet, t: int, w: World) {
    forall u :: p.id in w.SeenBy(u) ==> t <= w.SeenBy(u)[p.id]
  }

  ghost predicate OnceInv(p: Packet, t: int, w: World) {
    && Fresh(p, t, w)
    && (forall c | c in w.air :: |c.payload| > 0 && 1 <= c.payload[0] <= p.Limit() && c.payload[1..] == p.inner)
    && |w.handed| <= 1 && (w.handed != [] ==> w.handed == [p.inner] && p.id in w.SeenBy(p.dest))
  }

  lemma ObserveKeeps(seen: Seen, key: PacketId, id: PacketId, now: int, ttl: int, t: int)
    requires t <= now < t + ttl && (id in seen ==> t <= seen[id])
    ensures id in seen ==> id in Observed(seen, key, now, ttl)
    ensures id in Observed(seen, key, now, ttl) ==> t <= Observed(seen, key, now, ttl)[id]
    ensures id in seen ==> Recent(seen, id, now, ttl)
  {
  }

  /** An observation at node u keeps every sighting of the packet remembered. */
  lemma SightingsKept(p: Packet, ttl: int, t: int, w: World, u: Node, key: PacketId, now: int, w': World)
    requires Fresh(p, t, w) && t <= now < t + ttl
    requires w'.seen == w.seen[u := Observed(w.SeenBy(u), key, now, ttl)]
    ensures Fresh(p, t, w')
    ensures forall x :: p.id in w.SeenBy(x) ==> p.id in w'.SeenBy(x)
  {
    ObserveKeeps(w.SeenBy(u), key, p.id, now, ttl, t);
    assert w'.SeenBy(u) == Observed(w.SeenBy(u), key, now, ttl);
    assert forall x :: x != u ==> w'.SeenBy(x) == w.SeenBy(x);
  }

  lemma DeliverOnce(p: Packet, ttl: int, t: int, transports: set<Node>, w: World, c: Copy, now: int, next: Option<Node>)
    requires OnceInv(p, t, w) && c in w.air && t <= now < t + ttl
    ensures OnceInv(p, t, Delivered(p, ttl, transports, w, c, now, next))
  {
    var w' := Delivered(p, ttl, transports, w, c, now, next);
    SightingsKept(p, ttl, t, w, c.to, p.id, now, w');
    ObserveKeeps(w.SeenBy(c.to), p.id, p.id, now, ttl, t);
  }

  lemma OnceStep(p: Packet, ttl: int, t: int, transports: set<Node>, w: World, e: Event, w': World)
    requires OnceInv(p, t, w) && Step(p, ttl, transports, w, e, w')
    requires e.Deliver? || e.Foreign? ==> t <= e.now < t + ttl
    ensures OnceInv(p, t, w')
  {
    match e {
      case Deliver(c, now, next) => DeliverOnce(p, ttl, t, transports, w, c, now, next);
      case Foreign(u, id, now) => SightingsKept(p, ttl, t, w, u, id, now, w');
      case _ => assert forall u :: w'.SeenBy(u) == w.SeenBy(u);
    }
  }

  /** Whatever the path tables say, and even if the network duplicates copies, the packet is
      handed to its destination at most once and with its sealed bytes intact. */
  lemma {:induction false} HandedAtMostOnce(p: Packet, ttl: int, t: int, transports: set<Node>, first: Node,
                                            ws: seq<World>, es: seq<Event>, i: nat)
    requires Run(p, ttl, transports, first, ws, es) && OneLifetime(ttl, t, es) && i < |ws|
    ensures OnceInv(p, t, ws[i])
  {
    if i > 0 {
      HandedAtMostOnce(p, ttl, t, transports, first, ws, es, i - 1);
      OnceStep(p, ttl, t, transports, ws[i - 1], es[i - 1], ws[i]);
    }
  }

  // ---- at most limit transmissions ------------------------------------------------------------

  /** Without duplication there is one copy at most, and each transmission used up one unit of
      its hop limit. */
  ghost predicate BudgetInv(p: Packet, w: World) {
    && |w.air| <= 1 && w.sent <= p.Limit()
    && (forall c | c in w.air :: |c.payload| > 0 && c.payload[0] >= 1 && w.sent + c.payload[0] == p.Limit() + 1)
  }

  lemma SingleCopy(air: multiset<Copy>, c: Copy)
    requires |air| <= 1 && c in air
    ensures air == multiset{c}
  {
    assert |air - multiset{c}| == |air| - 1;
    assert air - multiset{c} == multiset{};
    assert air == multiset{c} + (air - multiset{c});
  }

  /** With any tables, even cyclic or changing ones, and a network that does not duplicate, a
      packet of hop limit H is transmitted at most H times, and one without a limit at most 16. */
  lemma {:induction false} SentAtMostLimit(p: Packet, ttl: int, transports: set<Node>, first: Node,
                                           ws: seq<World>, es: seq<Event>, i: nat)
    requires Run(p, ttl, transports, first, ws, es) && i < |ws|
    requires forall e | e in es :: !e.Duplicate?
    ensures BudgetInv(p, ws[i]) && ws[i].sent <= if p.limit == 0 then 16 else p.limit
  {
    if i > 0 {
      SentAtMostLimit(p, ttl, transports, first, ws, es, i - 1);
      var w, e := ws[i - 1], es[i - 1];
      assert Step(p, ttl, transports, w, e, ws[i]);
      if e.Deliver? { SingleCopy(w.air, e.c); }
      if e.Lose? { SingleCopy(w.air, e.c); }
    }
  }

  // ---- delivery over loop-free tables ----------------------------------------------------------

  /** The route r carries the packet: every node strictly inside it is a transport, and the
      hop limit covers its transmissions. */
  ghost predicate Carries(transports: set<Node>, r: seq<Node>, limit: nat) {
    |r| - 1 <= limit && forall j :: 0 < j < |r| - 1 ==> r[j] in transports
  }

  /** What the tables of net say at node u. */
  function NextFor(net: Paths.Net, p: Packet, u: Node): Option<Node> {
    if net.Knows(u, p.dest) then Some(net.At(u, p.dest).nextHop) else None
  }

  /** A run over the fixed tables of net in which no copy is lost or duplicated; other packets may
      pass through the nodes. */
  ghost predicate Lossless(p: Packet, net: Paths.Net, es: seq<Event>) {
    forall e | e in es :: !e.Lose? && !e.Duplicate? && (e.Deliver? ==> e.next == NextFor(net, p, e.c.to))
  }

  function Deliveries(es: seq<Event>): nat {
    if es == [] then 0 else Deliveries(es[..|es| - 1]) + if es[|es| - 1].Deliver? then 1 else 0
  }

  /** Where the packet is along its route after n deliveries: on its way to the next node, or at
      the end of its journey. */
  ghost predicate Progress(p: Packet, transports: set<Node>, r: seq<Node>, w: World, n: nat) {
    || (n + 1 < |r| && InFlight(p, transports, r, w, n + 1))
    || (n < |r| && Ended(p, transports, r, w, n))
  }

  ghost predicate Ended(p: Packet, transports: set<Node>, r: seq<Node>, w: World, n: nat) {
    && w.air == multiset{} && (w.handed == [p.inner] <==> Carries(transports, r, p.Limit()))
    && (Carries(transports, r, p.Limit()) ==> n == |r| - 1)
  }

  ghost predicate InFlight(p: Packet, transports: set<Node>, r: seq<Node>, w: World, k: int)
    requires 0 < k < |r|
  {
    && w.air == multiset{Copy(r[k], [p.Limit() - k + 1] + p.inner)} && w.handed == [] && k <= p.Limit()
    && (forall j :: 0 < j < k ==> r[j] in transports)
    && (forall j :: k <= j < |r| ==> p.id !in w.SeenBy(r[j]))
  }

  ghost predicate IsRoute(net: Paths.Net, p: Packet, r: seq<Node>) {
    && 1 < |r| && r[0] == p.origin && r[|r| - 1] == p.dest && Paths.Distinct(r)
    && forall k :: 0 <= k < |r| - 1 ==> Paths.IsHop(net, p.dest, r[k], r[k + 1])
  }

  lemma ProgressStep(p: Packet, ttl: int, transports: set<Node>, net: Paths.Net, r: seq<Node>, w: World, n: nat,
                     e: Event, w': World)
    requires IsRoute(net, p, r) && Progress(p, transports, r, w, n) && Step(p, ttl, transports, w, e, w')
    requires e.Deliver? && e.next == NextFor(net, p, e.c.to)
    ensures Progress(p, transports, r, w', n + 1)
  {
    var k := n + 1;
    assert e.c == Copy(r[k], [p.Limit() - k + 1] + p.inner);
    assert w.air - multiset{e.c} == multiset{};
    if k < |r| - 1 {
      assert Paths.IsHop(net, p.dest, r[k], r[k + 1]) && r[k] != r[|r| - 1];
      if r[k] in transports && k < p.Limit() { HopMade(p, ttl, transports, r, w, k, e, w'); }
    }
  }

  lemma HopMade(p: Packet, ttl: int, transports: set<Node>, r: seq<Node>, w: World, k: nat, e: Event, w': World)
    requires Paths.Distinct(r) && 0 < k < |r| - 1 && InFlight(p, transports, r, w, k)
    requires e.Deliver? && e == Deliver(Copy(r[k], [p.Limit() - k + 1] + p.inner), e.now, Some(r[k + 1]))
    requires r[k] in transports && k < p.Limit() && r[k] != p.dest
    requires w' == Delivered(p, ttl, transports, w, e.c, e.now, e.next)
    ensures InFlight(p, transports, r, w', k + 1)
  {
    assert w.air - multiset{e.c} == multiset{};
    assert [e.c.payload[0] - 1] + e.c.payload[1..] == [p.Limit() - k] + p.inner;
    forall j | k + 1 <= j < |r|
      ensures p.id !in w'.SeenBy(r[j])
    {
      assert r[j] != r[k];
    }
  }

  /** Another packet passing through changes nothing for this one. */
  lemma PassingThrough(p: Packet, ttl: int, transports: set<Node>, r: seq<Node>, w: World, n: nat, e: Event, w': World)
    requires Progress(p, transports, r, w, n) && Step(p, ttl, transports, w, e, w') && e.Foreign?
    ensures Progress(p, transports, r, w', n)
  {
    assert forall u :: p.id in w'.SeenBy(u) ==> p.id in w.SeenBy(u);
  }

  lemma {:induction false} ProgressAll(p: Packet, ttl: int, transports: set<Node>, net: Paths.Net,
                                       r: seq<Node>, ws: seq<World>, es: seq<Event>, i: nat)
    requires IsRoute(net, p, r) && Run(p, ttl, transports, r[1], ws, es) && i < |ws| && Lossless(p, net, es)
    ensures Progress(p, transports, r, ws[i], Deliveries(es[..i]))
  {
    if i == 0 {
      assert InFlight(p, transports, r, ws[0], 1);
    } else {
      ProgressAll(p, ttl, transports, net, r, ws, es, i - 1);
      var e := es[i - 1];
      assert es[..i][..i - 1] == es[..i - 1];
      assert e in es && Step(p, ttl, transports, ws[i - 1], e, ws[i]);
      if e.Deliver? {
        ProgressStep(p, ttl, transports, net, r, ws[i - 1], Deliveries(es[..i - 1]), e, ws[i]);
      } else {
        PassingThrough(p, ttl, transports, r, ws[i - 1], Deliveries(es[..i - 1]), e, ws[i]);
      }
    }
  }

  /** Over loop-free tables a packet that is not lost ends its journey after at most as many
      deliveries as its route has hops. It is then handed over, exactly once, if and only if
      every intermediate node of its route is a transport and the route takes at most its hop
      limit of transmissions; and in that case the journey has ended exactly when all hops were
      made. */
  lemma {:induction false} DeliveredIffCarried(p: Packet, ttl: int, transports: set<Node>, net: Paths.Net,
                                               r: seq<Node>, ws: seq<World>, es: seq<Event>, i: nat)
    requires IsRoute(net, p, r) && Run(p, ttl, transports, r[1], ws, es) && i < |ws| && Lossless(p, net, es)
    ensures Deliveries(es[..i]) <= |r| - 1 && (Deliveries(es[..i]) == |r| - 1 ==> ws[i].air == multiset{})
    ensures var limit := if p.limit == 0 then 16 else p.limit;
      && ws[i].sent <= limit
      && (ws[i].air == multiset{} ==> (ws[i].handed == [p.inner] <==> Carries(transports, r, limit)))
      && (Carries(transports, r, limit) ==> (ws[i].air == multiset{} <==> Deliveries(es[..i]) == |r| - 1))
  {
    SentAtMostLimit(p, ttl, transports, r[1], ws, es, i);
    ProgressAll(p, ttl, transports, net, r, ws, es, i);
  }

  /** Put together with loop freedom: in any reachable network of at most 256 nodes, a packet
      from a node that knows the destination has a route to be judged by. */
  lemma {:induction false} ReachableRoute(transports: set<Node>, ns: seq<Paths.Net>, ne: seq<Paths.Event>, i: nat,
                                          p: Packet)
    returns (r: seq<Node>)
    requires Paths.Run(transports, ns, ne) && i < |ns| && |ns[0].nodes| <= 256 && ns[i].Knows(p.origin, p.dest)
    ensures IsRoute(ns[i], p, r) && |r| <= |ns[0].nodes|
    ensures |ns[0].nodes| <= p.Limit() + 1 && (forall u | u in ns[0].nodes :: u in transports) ==>
              Carries(transports, r, p.Limit())
  {
    r := Paths.LoopFree(transports, ns, ne, i, p.origin, p.dest);
    Paths.RunInv(transports, ns, ne, i);
    forall j | 0 < j < |r| - 1
      ensures r[j] in ns[0].nodes
    {
      assert Paths.IsHop(ns[i], p.dest, r[j], r[j + 1]);
    }
  }
}
