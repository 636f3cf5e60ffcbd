/** The bound of 130 nodes for floods is exact. The nodes 0 to 130 form a line, and node 129 is also
    a neighbour of node 0. The announce of node 0 travels down the line before its first copy
    reaches node 129 directly: node 129 hears it first over 128 hops, which is where re-flooding
    ends (internal/discovery/announce.go:269), and drops the direct copy as a repeat. Node 130,
    two hops from the origin, hears nothing although every copy is delivered. */
module PathDetour {
  import opened Basics
  import opened PathModel
  import opened PathProtocol
  import opened PathFlood
  import PathWrap

  function Copy(j: nat): Msg { Msg(j, PathWrap.Ann(j)) }

  function All(n: nat): set<Node> { PathWrap.Silent(n).Keys }

  predicate Linked(a: Node, b: Node) {
    (a <= 130 && b <= 130 && (a + 1 == b || b + 1 == a)) || (a == 0 && b == 129) || (a == 129 && b == 0)
  }

  /** Node i once the announce has come down the line as far as node k. */
  function LineNode(i: nat, k: nat): State {
    if 0 < i <= k then State(map[0 := Entry(i - 1, i - 1, 0, 0, PathWrap.Ann(i - 1))], map[AnnounceKey(0, 0) := 0])
    else State(map[], map[])
  }

  ghost predicate IsLine(w: Net, n: nat, k: nat) {
    && (forall i :: i in w.nodes <==> 0 <= i < n)
    && (forall i: nat | i < n :: w.nodes[i] == LineNode(i, k))
    && (forall m :: m in w.msgs <==> m.from <= Least(k, HOP_MAX) && m == Copy(m.from))
  }

  function Least(a: nat, b: nat): nat { if a < b then a else b }

  /** The run so far: the line as far as k, and every node of it has heard its predecessor. */
  ghost predicate Down(n: nat, k: nat, ws: seq<Net>, es: seq<Event>) {
    && Run(All(n), ws, es) && es != [] && es[0] == SelfAnnounce(0, 0, 0) && |ws[0].nodes| == n && IsLine(ws[|es|], n, k)
    && (forall i :: 0 < i < |es| ==> es[i].Receive?)
    && (forall j: nat | j < k :: HeardBelow(es, j))
  }

  ghost predicate HeardBy(es: seq<Event>, v: Node, j: nat) { exists e :: e in es && Heard(e, v, Copy(j)) }

  ghost predicate HeardBelow(es: seq<Event>, j: nat) { HeardBy(es, j + 1, j) }

  ghost predicate HeardAbove(es: seq<Event>, j: nat)
    requires j > 0
  {
    HeardBy(es, j - 1, j)
  }

  lemma Append(n: nat, ws: seq<Net>, es: seq<Event>, e: Event, w: Net)
    requires Run(All(n), ws, es) && Step(All(n), ws[|es|], e, w)
    ensures Run(All(n), ws + [w], es + [e])
  {
    var vs, fs := ws + [w], es + [e];
    forall i | 0 <= i < |fs|
      ensures Step(All(n), vs[i], fs[i], vs[i + 1])
    {
      if i < |es| { assert Step(All(n), ws[i], es[i], ws[i + 1]); }
    }
  }

  lemma HeardStays(es: seq<Event>, e: Event)
    ensures forall j: nat | HeardBelow(es, j) :: HeardBelow(es + [e], j)
    ensures forall j: nat | j > 0 && HeardAbove(es, j) :: HeardAbove(es + [e], j)
    ensures forall v: Node, j: nat | Heard(e, v, Copy(j)) :: HeardBy(es + [e], v, j)
  {
    forall v: Node, j: nat | HeardBy(es, v, j)
      ensures HeardBy(es + [e], v, j)
    {
      var x :| x in es && Heard(x, v, Copy(j));
      assert x in es + [e];
    }
    assert e in es + [e];
  }

  lemma Announced(n: nat) returns (ws: seq<Net>, es: seq<Event>)
    requires n > 0
    ensures Down(n, 0, ws, es)
  {
    var w0 := Net(PathWrap.Silent(n), {});
    var w1 := w0.(msgs := w0.msgs + {Copy(0)});
    ws, es := [w0, w1], [SelfAnnounce(0, 0, 0)];
    assert Step(All(n), w0, es[0], w1);
  }

  /** What a node of the line does with the first copy: it passes it on unless its hops are used
      up. */
  lemma FirstHearing(k: nat, u: nat, forwarded: Option<Announce>)
    requires u == k + 1 && forwarded == if u <= HOP_MAX then Some(PathWrap.Ann(u)) else None
    ensures HandleAnnounce(u, true, State(map[], map[]), k, PathWrap.Ann(k), 0, LineNode(u, u), forwarded)
  {
    var t: Table := map[];
    assert |t[0 := Learned(k, PathWrap.Ann(k), 0)]| <= MAX_PATHS;
  }

  lemma LineGrows(w: Net, n: nat, k: nat, u: nat, forwarded: Option<Announce>, w': Net)
    requires IsLine(w, n, k) && u == k + 1 < n && forwarded == if u <= HOP_MAX then Some(PathWrap.Ann(u)) else None
    requires w' == Net(w.nodes[u := LineNode(u, u)], w.msgs + Sent(u, forwarded))
    ensures IsLine(w', n, u)
  {
    forall m
      ensures m in w'.msgs <==> m.from <= Least(u, HOP_MAX) && m == Copy(m.from)
    {
    }
  }

  lemma NextHears(w: Net, n: nat, k: nat) returns (e: Event, w': Net)
    requires IsLine(w, n, k) && k + 1 < n && k <= HOP_MAX
    ensures Step(All(n), w, e, w') && IsLine(w', n, k + 1) && Heard(e, k + 1, Copy(k))
  {
    var u := k + 1;
    var forwarded := if u <= HOP_MAX then Some(PathWrap.Ann(u)) else None;
    e := Receive(u, Copy(k), 0, forwarded);
    w' := Net(w.nodes[u := LineNode(u, u)], w.msgs + Sent(u, forwarded));
    FirstHearing(k, u, forwarded);
    LineGrows(w, n, k, u, forwarded, w');
    assert Copy(k) in w.msgs && w.nodes[u] == LineNode(u, k);
  }

  lemma {:induction false} Downwards(n: nat, k: nat) returns (ws: seq<Net>, es: seq<Event>)
    requires k < n && k <= HOP_MAX + 1
    ensures Down(n, k, ws, es)
  {
    if k == 0 {
      ws, es := Announced(n);
    } else {
      ws, es := Downwards(n, k - 1);
      var e, w := NextHears(ws[|es|], n, k - 1);
      OneMoreDown(n, k - 1, k, ws, es, e, w);
      ws, es := ws + [w], es + [e];
    }
  }

  lemma OneMoreDown(n: nat, j: nat, k: nat, ws: seq<Net>, es: seq<Event>, e: Event, w: Net)
    requires Down(n, j, ws, es) && Step(All(n), ws[|es|], e, w) && e.Receive? && IsLine(w, n, k)
    requires k == j || (k == j + 1 && Heard(e, k, Copy(j)))
    ensures Down(n, k, ws + [w], es + [e])
  {
    Append(n, ws, es, e, w);
    HeardStays(es, e);
    if k == j + 1 { assert HeardBelow(es + [e], j); }
  }

  /** A node that has the announce drops a further copy. */
  lemma Dropped(w: Net, n: nat, v: Node, j: nat) returns (e: Event)
    requires IsLine(w, n, HOP_MAX + 1) && v <= HOP_MAX + 1 < n && j <= HOP_MAX
    ensures Step(All(n), w, e, w) && Heard(e, v, Copy(j))
  {
    e := Receive(v, Copy(j), 0, None);
    assert Copy(j) in w.msgs && w.nodes == w.nodes[v := w.nodes[v]] && w.msgs == w.msgs + Sent(v, None);
  }

  /** Then every node of the line hears the copy of its successor too. */
  lemma {:induction false} Upwards(n: nat, k: nat) returns (ws: seq<Net>, es: seq<Event>)
    requires n > HOP_MAX + 1 && k <= HOP_MAX
    ensures Down(n, HOP_MAX + 1, ws, es) && forall j: nat | 0 < j <= k :: HeardAbove(es, j)
  {
    if k == 0 {
      ws, es := Downwards(n, HOP_MAX + 1);
    } else {
      ws, es := Upwards(n, k - 1);
      var w := ws[|es|];
      var e := Dropped(w, n, k - 1, k);
      OneMoreDown(n, HOP_MAX + 1, HOP_MAX + 1, ws, es, e, w);
      HeardStays(es, e);
      ws, es := ws + [w], es + [e];
    }
  }

  /** For every network of at least 131 nodes there are links and a run in which every copy of a
      fresh announce is heard over them, and yet a node that a transport joins to the origin over two
      links never learns of it. */
  lemma {:induction false} FloodFailsFrom131Nodes(n: nat) returns (f: Flood, ws: seq<Net>, es: seq<Event>, r: seq<Node>)
    requires n >= 131
    ensures |r| == 3 && Run(All(n), ws, es) && |ws[0].nodes| == n && Floods(f, All(n), ws, es, 0)
    ensures AllHeard(f, Linked, ws, es)
    ensures Joined(f, All(n), Linked, ws[|es|], r) && !ws[|es|].Knows(r[2], f.d)
  {
    f, r := Flood(0, 0, 0), [0, 129, 130];
    ws, es := LastCopy(n);
    EveryCopyHeard(n, ws[|es|], es);
    IsFlood(n, ws, es);
    IsJoined(n, ws[|es|]);
  }

  /** At last the direct copy reaches node 129. */
  lemma LastCopy(n: nat) returns (ws: seq<Net>, es: seq<Event>)
    requires n > HOP_MAX + 1
    ensures Down(n, HOP_MAX + 1, ws, es) && HeardBy(es, 129, 0)
    ensures forall j: nat | 0 < j <= HOP_MAX :: HeardAbove(es, j)
  {
    ws, es := Upwards(n, HOP_MAX);
    var w := ws[|es|];
    var e := Dropped(w, n, 129, 0);
    OneMoreDown(n, HOP_MAX + 1, HOP_MAX + 1, ws, es, e, w);
    HeardStays(es, e);
    ws, es := ws + [w], es + [e];
  }

  lemma IsFlood(n: nat, ws: seq<Net>, es: seq<Event>)
    requires Down(n, HOP_MAX + 1, ws, es)
    ensures Floods(Flood(0, 0, 0), All(n), ws, es, 0)
  {
    assert Fresh(Flood(0, 0, 0), ws[0]);
  }

  lemma IsJoined(n: nat, w: Net)
    requires n >= 131 && IsLine(w, n, HOP_MAX + 1)
    ensures Joined(Flood(0, 0, 0), All(n), Linked, w, [0, 129, 130]) && !w.Knows(130, 0)
  {
    assert w.nodes[130] == LineNode(130, HOP_MAX + 1);
    var r := [0, 129, 130];
    assert forall j :: 0 < j < |r| ==> Linked(r[j - 1], r[j]);
  }

  lemma EveryCopyHeard(n: nat, w: Net, es: seq<Event>)
    requires IsLine(w, n, HOP_MAX + 1) && HeardBy(es, 129, 0)
    requires forall j: nat | j < HOP_MAX + 1 :: HeardBelow(es, j)
    requires forall j: nat | 0 < j <= HOP_MAX :: HeardAbove(es, j)
    ensures forall m, v | m in w.msgs && v in w.nodes && Linked(m.from, v) :: exists e :: e in es && Heard(e, v, m)
  {
    forall m, v | m in w.msgs && v in w.nodes && Linked(m.from, v)
      ensures exists e :: e in es && Heard(e, v, m)
    {
      var j := m.from;
      assert m == Copy(j) && j <= HOP_MAX;
      if v == j + 1 {
        assert HeardBelow(es, j);
      } else if v + 1 == j {
        assert HeardAbove(es, j);
      }
      assert HeardBy(es, v, j);
    }
  }
}
