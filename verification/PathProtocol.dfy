/** Runs of a whole network of nodes that announce themselves, re-flood announces and answer
    path requests. Every announce ever sent may reach any node at any time and any number of
    times. Up to 256 nodes the path tables are loop free in every reachable state: following
    next hops ends at the destination and visits no node twice. */
module PathProtocol {
  import opened Basics
  import opened PathModel

  /** An announce on the air and the node that sent this copy of it. */
  datatype Msg = Msg(from: Node, ann: Announce)

  datatype Net = Net(nodes: map<Node, State>, msgs: set<Msg>)
  {
    predicate Knows(u: Node, d: Node) { u in nodes && d in nodes[u].table }

    function At(u: Node, d: Node): Entry
      requires Knows(u, d)
    {
      nodes[u].table[d]
    }
  }

  datatype Event =
    | SelfAnnounce(d: Node, ts: int, nonce: nat)
    | Receive(u: Node, m: Msg, now: int, forwarded: Option<Announce>)
    | Request(u: Node, d: Node, nonce: nat, own: Announce, now: int)

  predicate Init(w: Net) {
    w.msgs == {} && forall u | u in w.nodes :: w.nodes[u] == State(map[], map[])
  }

  function Sent(u: Node, a: Option<Announce>): set<Msg> { if a.Some? then {Msg(u, a.value)} else {} }

  /** own is an announce node u may build about itself, whatever its clock says. */
  predicate IsOwn(u: Node, own: Announce) { own.dest == u && own.hops == 0 }

  ghost predicate Step(transports: set<Node>, w: Net, e: Event, w': Net) {
    match e
    case SelfAnnounce(d, ts, nonce) =>
      d in w.nodes && w' == w.(msgs := w.msgs + {Msg(d, Announce(d, ts, nonce, 0))})
    case Receive(u, m, now, forwarded) =>
      && u in w.nodes && m in w.msgs && u in w'.nodes
      && HandleAnnounce(u, u in transports, w.nodes[u], m.from, m.ann, now, w'.nodes[u], forwarded)
      && w' == Net(w.nodes[u := w'.nodes[u]], w.msgs + Sent(u, forwarded))
    case Request(u, d, nonce, own, now) =>
      && u in w.nodes && IsOwn(u, own)
      && var (st, answer) := HandleRequest(u, w.nodes[u], d, nonce, own, now);
         w' == Net(w.nodes[u := st], w.msgs + Sent(u, answer))
  }

  ghost predicate Run(transports: set<Node>, ws: seq<Net>, es: seq<Event>) {
    && |ws| == |es| + 1 && Init(ws[0])
    && forall i :: 0 <= i < |es| ==> Step(transports, ws[i], es[i], ws[i + 1])
  }

  // ---- the order on entries --------------------------------------------------------

  /** Generation ts over at most h hops, or a newer generation. */
  predicate AtLeast(e: Entry, ts: int, h: int) { e.originTs > ts || (e.originTs == ts && e.hops <= h) }

  predicate Better(e: Entry, f: Entry) { AtLeast(e, f.originTs, f.hops - 1) }

  /** The nodes whose entry for d is at least generation ts over h hops. */
  function AsGood(w: Net, d: Node, ts: int, h: int): set<Node> {
    set u | u in w.nodes && d in w.nodes[u].table && AtLeast(w.nodes[u].table[d], ts, h)
  }

  /** Hop count h has been earned: every smaller count is matched by enough nodes. */
  ghost predicate Earned(w: Net, d: Node, ts: int, h: int) {
    forall j: int :: 0 <= j <= h ==> |AsGood(w, d, ts, j)| > j
  }

  ghost predicate EntryInv(w: Net, u: Node, d: Node)
    requires w.Knows(u, d)
  {
    var e := w.At(u, d);
    && d != u && d in w.nodes
    && e.ann.dest == d && e.ann.ts == e.originTs
    && (e.nextHop == d || (w.Knows(e.nextHop, d) && Better(w.At(e.nextHop, d), e)))
    && Earned(w, d, e.originTs, e.hops)
  }

  ghost predicate MsgInv(w: Net, m: Msg) {
    var a := m.ann;
    && m.from in w.nodes && a.dest in w.nodes
    && (m.from == a.dest ==> a.hops == 0)
    && (m.from != a.dest ==>
          && w.Knows(m.from, a.dest) && AtLeast(w.At(m.from, a.dest), a.ts, a.hops - 1)
          && a.hops > 0 && Earned(w, a.dest, a.ts, a.hops - 1))
  }

  ghost predicate Inv(w: Net) {
    && (forall u, d | w.Knows(u, d) :: EntryInv(w, u, d))
    && (forall m | m in w.msgs :: MsgInv(w, m))
  }

  /** Tables only improve, and a kept entry keeps its next hop. */
  ghost predicate Grows(w: Net, w': Net) {
    && w'.nodes.Keys == w.nodes.Keys
    && (forall u, d | w.Knows(u, d) :: w'.Knows(u, d) && AtLeast(w'.At(u, d), w.At(u, d).originTs, w.At(u, d).hops))
  }

  lemma EarnedStays(w: Net, w': Net, d: Node, ts: int, h: int)
    requires Grows(w, w') && Earned(w, d, ts, h)
    ensures Earned(w', d, ts, h)
  {
    forall j: int | 0 <= j <= h
      ensures |AsGood(w', d, ts, j)| > j
    {
      forall u | u in AsGood(w, d, ts, j)
        ensures u in AsGood(w', d, ts, j)
      {
        assert w.Knows(u, d);
      }
      SubsetCard(AsGood(w, d, ts, j), AsGood(w', d, ts, j));
    }
  }

  lemma MsgStays(w: Net, w': Net, m: Msg)
    requires Grows(w, w') && MsgInv(w, m)
    ensures MsgInv(w', m)
  {
    if m.from != m.ann.dest { EarnedStays(w, w', m.ann.dest, m.ann.ts, m.ann.hops - 1); }
  }

  /** An entry that keeps its hop count, generation and next hop stays sound. */
  lemma EntryStays(w: Net, w': Net, u: Node, d: Node)
    requires Grows(w, w') && w.Knows(u, d) && EntryInv(w, u, d)
    requires w'.At(u, d) == w.At(u, d).(lastSeen := w'.At(u, d).lastSeen)
    ensures EntryInv(w', u, d)
  {
    EarnedStays(w, w', d, w.At(u, d).originTs, w.At(u, d).hops);
  }

  /** Hop counts stay below the number of nodes, so a byte holds them up to 256 nodes. */
  lemma {:induction false} HopsBound(w: Net, d: Node, ts: int, h: int)
    requires Inv(w) && d in w.nodes && h >= 0 && Earned(w, d, ts, h)
    ensures h + 2 <= |w.nodes|
  {
    var others := w.nodes.Keys - {d};
    forall u | u in AsGood(w, d, ts, h)
      ensures u in others
    {
      assert w.Knows(u, d) && EntryInv(w, u, d);
    }
    SubsetCard(AsGood(w, d, ts, h), others);
    assert |others| + 1 == |w.nodes.Keys| == |w.nodes|;
  }

  /** A node knows at most every other node, so up to 256 nodes no table is ever full. */
  lemma {:induction false} TableBound(w: Net, u: Node)
    requires Inv(w) && u in w.nodes
    ensures w.nodes[u].table.Keys <= w.nodes.Keys - {u}
    ensures |w.nodes[u].table| < |w.nodes|
  {
    forall d | d in w.nodes[u].table
      ensures d in w.nodes.Keys - {u}
    {
      assert w.Knows(u, d) && EntryInv(w, u, d);
    }
    SubsetCard(w.nodes[u].table.Keys, w.nodes.Keys - {u});
    assert |w.nodes.Keys - {u}| + 1 == |w.nodes.Keys|;
  }

  // ---- steps keep the invariant ------------------------------------------------------

  /** A stored announce: the new entry is earned by the sender's count plus the node itself. */
  lemma NewEntryEarned(w: Net, w': Net, u: Node, m: Msg)
    requires Grows(w, w') && MsgInv(w, m) && u in w.nodes && w'.Knows(u, m.ann.dest)
    requires w.Knows(u, m.ann.dest) ==> !AtLeast(w.At(u, m.ann.dest), m.ann.ts, m.ann.hops)
    requires w'.At(u, m.ann.dest).originTs == m.ann.ts && w'.At(u, m.ann.dest).hops == m.ann.hops
    ensures Earned(w', m.ann.dest, m.ann.ts, m.ann.hops)
  {
    var d, ts, h: int := m.ann.dest, m.ann.ts, m.ann.hops;
    if m.from != d { EarnedStays(w, w', d, ts, h - 1); }
    var before := AsGood(w, d, ts, h - 1);
    forall x | x in before
      ensures x in AsGood(w', d, ts, h)
    {
      assert w.Knows(x, d);
    }
    assert u !in before && u in AsGood(w', d, ts, h);
    SubsetCard(before + {u}, AsGood(w', d, ts, h));
    if h > 0 { assert |AsGood(w, d, ts, h - 1)| > h - 1; }
  }

  /** Rebuilds the invariant from what one step did to node u's entry for d. */
  lemma NodeStepInv(w: Net, w': Net, u: Node, d: Node)
    requires Inv(w) && Grows(w, w')
    requires forall x: Node, y: Node | w'.Knows(x, y) && (x, y) != (u, d) :: w.Knows(x, y) && w'.At(x, y) == w.At(x, y)
    requires w'.Knows(u, d) ==> EntryInv(w', u, d)
    requires forall m | m in w'.msgs && m !in w.msgs :: MsgInv(w', m)
    ensures Inv(w')
  {
    forall x: Node, y: Node | w'.Knows(x, y)
      ensures EntryInv(w', x, y)
    {
      if (x, y) != (u, d) { EntryStays(w, w', x, y); }
    }
    forall m | m in w'.msgs
      ensures MsgInv(w', m)
    {
      if m in w.msgs { MsgStays(w, w', m); }
    }
  }

  lemma StoredInv(w: Net, w': Net, u: Node, m: Msg, now: int)
    requires Inv(w) && u in w.nodes && m in w.msgs && u != m.ann.dest
    requires u in w'.nodes && w'.nodes == w.nodes[u := w'.nodes[u]]
    requires Improves(w.nodes[u].table, m.ann.dest, Learned(m.from, m.ann, now))
    requires w'.nodes[u].table == w.nodes[u].table[m.ann.dest := Learned(m.from, m.ann, now)]
    requires w'.msgs == w.msgs || w'.msgs == w.msgs + {Msg(u, m.ann.(hops := m.ann.hops + 1))}
    ensures Inv(w') && Grows(w, w')
  {
    var d := m.ann.dest;
    assert MsgInv(w, m);
    ChangedTable(w, w', u, d, w'.nodes[u].table[d]);
    NewEntryEarned(w, w', u, m);
    assert EntryInv(w', u, d);
    NodeStepInv(w, w', u, d);
  }

  lemma RefusedInv(w: Net, w': Net, u: Node, d: Node)
    requires Inv(w) && u in w.nodes && u in w'.nodes && w'.nodes == w.nodes[u := w'.nodes[u]] && w'.msgs == w.msgs
    requires w'.nodes[u].table == w.nodes[u].table || (d in w.nodes[u].table && exists t ::
               w'.nodes[u].table == w.nodes[u].table[d := w.nodes[u].table[d].(lastSeen := t)])
    ensures Inv(w') && Grows(w, w')
  {
    if w'.nodes[u].table == w.nodes[u].table {
      assert forall x: Node, y: Node :: w'.Knows(x, y) <==> w.Knows(x, y);
      assert forall x: Node, y: Node | w.Knows(x, y) :: w'.At(x, y) == w.At(x, y);
    } else {
      ChangedTable(w, w', u, d, w'.nodes[u].table[d]);
    }
    if w.Knows(u, d) {
      assert EntryInv(w, u, d);
      EntryStays(w, w', u, d);
    }
    NodeStepInv(w, w', u, d);
  }

  lemma ReceiveInv(transports: set<Node>, w: Net, e: Event, w': Net)
    requires Inv(w) && |w.nodes| <= 256 && e.Receive? && Step(transports, w, e, w')
    ensures Inv(w') && Grows(w, w')
  {
    var u, m := e.u, e.m;
    TableBound(w, u);
    if m.ann.dest == u || Recent(w.nodes[u].seen, AnnounceKey(m.ann.dest, m.ann.nonce), e.now, DEDUP_TTL) {
      RefusedInv(w, w', u, m.ann.dest);
    } else if Improves(w.nodes[u].table, m.ann.dest, Learned(m.from, m.ann, e.now)) {
      StoredInv(w, w', u, m, e.now);
    } else {
      RefusedInv(w, w', u, m.ann.dest);
    }
  }

  lemma ChangedTable(w: Net, w': Net, u: Node, d: Node, e: Entry)
    requires u in w.nodes && u in w'.nodes && w'.nodes == w.nodes[u := w'.nodes[u]]
    requires w'.nodes[u].table == w.nodes[u].table[d := e]
    requires w.Knows(u, d) ==> AtLeast(e, w.At(u, d).originTs, w.At(u, d).hops)
    ensures Grows(w, w')
    ensures forall x: Node, y: Node | w'.Knows(x, y) && (x, y) != (u, d) :: w.Knows(x, y) && w'.At(x, y) == w.At(x, y)
  {
  }

  lemma RequestInv(transports: set<Node>, w: Net, e: Event, w': Net)
    requires Inv(w) && |w.nodes| <= 256 && e.Request? && Step(transports, w, e, w')
    ensures Inv(w') && Grows(w, w')
  {
    var u, d := e.u, e.d;
    forall x: Node, y: Node
      ensures w'.Knows(x, y) <==> w.Knows(x, y)
      ensures w.Knows(x, y) ==> w'.At(x, y) == w.At(x, y)
    {
    }
    if w.Knows(u, d) {
      assert EntryInv(w, u, d);
      HopsBound(w, d, w.At(u, d).originTs, w.At(u, d).hops);
      EntryStays(w, w', u, d);
      EarnedStays(w, w', d, w.At(u, d).originTs, w.At(u, d).hops);
    }
    NodeStepInv(w, w', u, d);
  }

  lemma {:induction false} StepInv(transports: set<Node>, w: Net, e: Event, w': Net)
    requires Inv(w) && |w.nodes| <= 256 && Step(transports, w, e, w')
    ensures Inv(w') && Grows(w, w')
  {
    match e {
      case SelfAnnounce(d, ts, nonce) =>
        forall m | m in w.msgs
          ensures MsgInv(w', m)
        {
          MsgStays(w, w', m);
        }
        forall u, x | w'.Knows(u, x)
          ensures EntryInv(w', u, x)
        {
          EntryStays(w, w', u, x);
        }
      case Receive(_, _, _, _) => ReceiveInv(transports, w, e, w');
      case Request(_, _, _, _, _) => RequestInv(transports, w, e, w');
    }
  }

  lemma {:induction false} RunInv(transports: set<Node>, ws: seq<Net>, es: seq<Event>, i: nat)
    requires Run(transports, ws, es) && i < |ws| && |ws[0].nodes| <= 256
    ensures Inv(ws[i]) && ws[i].nodes.Keys == ws[0].nodes.Keys
  {
    if i > 0 {
      RunInv(transports, ws, es, i - 1);
      assert |ws[i - 1].nodes.Keys| == |ws[0].nodes.Keys|;
      StepInv(transports, ws[i - 1], es[i - 1], ws[i]);
    }
  }

  // ---- following next hops ---------------------------------------------------------

  /** How many nodes hold a strictly better entry than u: the measure that falls hop by hop. */
  ghost function Rank(w: Net, u: Node, d: Node): nat
    requires w.Knows(u, d)
  {
    |AsGood(w, d, w.At(u, d).originTs, w.At(u, d).hops - 1)|
  }

  lemma RankFalls(w: Net, u: Node, v: Node, d: Node)
    requires w.Knows(u, d) && w.Knows(v, d) && Better(w.At(v, d), w.At(u, d))
    ensures Rank(w, v, d) < Rank(w, u, d)
  {
    var near := AsGood(w, d, w.At(v, d).originTs, w.At(v, d).hops - 1);
    var far := AsGood(w, d, w.At(u, d).originTs, w.At(u, d).hops - 1);
    assert v in far && v !in near;
    SubsetCard(near + {v}, far);
  }

  /** The nodes visited from u on the way to d. */
  ghost function Route(w: Net, u: Node, d: Node): (r: seq<Node>)
    requires Inv(w) && (u == d || w.Knows(u, d))
    ensures r != [] && r[0] == u && r[|r| - 1] == d
    decreases if u == d then 0 else 1 + Rank(w, u, d)
  {
    if u == d then [d]
    else
      assert EntryInv(w, u, d);
      var v := w.At(u, d).nextHop;
      if v == d then [u, d] else RankFalls(w, u, v, d); [u] + Route(w, v, d)
  }

  predicate IsHop(w: Net, d: Node, u: Node, v: Node) { w.Knows(u, d) && w.At(u, d).nextHop == v }

  /** Each hop follows the table, and every node after u is the destination or strictly better. */
  lemma {:induction false} RouteImproves(w: Net, u: Node, d: Node)
    requires Inv(w) && u != d && w.Knows(u, d)
    ensures var r := Route(w, u, d);
      && (forall i :: 0 <= i < |r| - 1 ==> IsHop(w, d, r[i], r[i + 1]))
      && (forall i :: 1 <= i < |r| ==>
            r[i] == d || (w.Knows(r[i], d) && Better(w.At(r[i], d), w.At(u, d))))
    decreases Rank(w, u, d)
  {
    assert EntryInv(w, u, d);
    var v := w.At(u, d).nextHop;
    if v != d {
      RankFalls(w, u, v, d);
      RouteImproves(w, v, d);
      var r := Route(w, u, d);
      assert r == [u] + Route(w, v, d);
      assert forall i :: 1 <= i < |r| ==> r[i] == Route(w, v, d)[i - 1];
    }
  }

  ghost predicate Distinct(r: seq<Node>) { forall i, j :: 0 <= i < j < |r| ==> r[i] != r[j] }

  lemma {:induction false} RouteDistinct(w: Net, u: Node, d: Node)
    requires Inv(w) && (u == d || w.Knows(u, d))
    ensures Distinct(Route(w, u, d))
    ensures forall x | x in Route(w, u, d) :: x in w.nodes || x == d
    decreases if u == d then 0 else 1 + Rank(w, u, d)
  {
    if u != d {
      assert EntryInv(w, u, d);
      RouteImproves(w, u, d);
      var v := w.At(u, d).nextHop;
      if v != d {
        RankFalls(w, u, v, d);
        RouteDistinct(w, v, d);
        NotVisitedAgain(w, u, d, Route(w, u, d));
        OneMoreDistinct(u, Route(w, v, d), Route(w, u, d));
      }
    }
  }

  lemma NotVisitedAgain(w: Net, u: Node, d: Node, r: seq<Node>)
    requires u != d && w.Knows(u, d)
    requires forall i :: 1 <= i < |r| ==> r[i] == d || (w.Knows(r[i], d) && Better(w.At(r[i], d), w.At(u, d)))
    ensures forall i :: 1 <= i < |r| ==> r[i] != u
  {
  }

  lemma OneMoreDistinct(u: Node, rest: seq<Node>, r: seq<Node>)
    requires Distinct(rest) && r == [u] + rest && forall i :: 1 <= i < |r| ==> r[i] != u
    ensures Distinct(r) && forall x | x in r :: x == u || x in rest
  {
    forall i, j | 0 <= i < j < |r|
      ensures r[i] != r[j]
    {
      if i > 0 { assert rest[i - 1] != rest[j - 1]; }
    }
  }

  lemma {:induction false} DistinctFits(r: seq<Node>, s: set<Node>)
    requires Distinct(r) && forall x | x in r :: x in s
    ensures |r| <= |s|
  {
    if r != [] {
      var rest := r[1..];
      forall x | x in rest
        ensures x in s - {r[0]}
      {
      }
      DistinctFits(rest, s - {r[0]});
    }
  }

  /** Loop freedom: in every reachable state of a network of at most 256 nodes, from every
      node that knows d, following next hops reaches d, visits no node twice, and so takes
      fewer hops than there are nodes. */
  lemma {:induction false} LoopFree(transports: set<Node>, ws: seq<Net>, es: seq<Event>, i: nat, u: Node, d: Node)
    returns (r: seq<Node>)
    requires Run(transports, ws, es) && i < |ws| && |ws[0].nodes| <= 256
    requires ws[i].Knows(u, d)
    ensures 1 < |r| <= |ws[0].nodes| && r[0] == u && r[|r| - 1] == d && Distinct(r)
    ensures forall k :: 0 <= k < |r| - 1 ==> IsHop(ws[i], d, r[k], r[k + 1])
  {
    RunInv(transports, ws, es, i);
    var w := ws[i];
    assert EntryInv(w, u, d);
    RouteImproves(w, u, d);
    RouteDistinct(w, u, d);
    DistinctFits(Route(w, u, d), w.nodes.Keys);
    assert |w.nodes.Keys| == |ws[0].nodes.Keys|;
    r := Route(w, u, d);
    forall k | 0 <= k < |r| - 1
      ensures IsHop(w, d, r[k], r[k + 1])
    {
      assert Route(w, u, d)[k] == r[k];
    }
  }
}
