/** The bound of 256 nodes is exact. A cached answer to a path request adds one to a byte
    without a cap (internal/discovery/announce.go:391), so in a line of 257 nodes the hop
    count wraps to zero at the far end and a node near the destination adopts the far end as
    its next hop, closing a loop. */
module PathWrap {
  import opened Basics
  import opened PathModel
  import opened PathProtocol

  function Ann(h: nat): Announce { Announce(0, 0, 0, h) }

  function LineEntry(i: nat): Entry
    requires i > 0
  {
    Entry(i - 1, i - 1, 0, 0, Ann(i - 1))
  }

  /** Node i when the announce of node 0 has travelled down the line as far as node k. */
  function LineNode(i: nat, k: nat): State {
    if i == 0 || i > k then State(map[], map[])
    else if i == k then State(map[0 := LineEntry(i)], map[AnnounceKey(0, 0) := 0])
    else State(map[0 := LineEntry(i)], map[AnnounceKey(0, 0) := 0, RequestKey(0, 0) := 0])
  }

  ghost predicate IsLine(w: Net, n: nat, k: nat) {
    && (forall i :: i in w.nodes <==> 0 <= i < n)
    && (forall i: nat | i < n :: w.nodes[i] == LineNode(i, k))
  }

  function Asked(i: nat): State
    requires i > 0
  {
    State(map[0 := LineEntry(i)], map[AnnounceKey(0, 0) := 0, RequestKey(0, 0) := 0])
  }

  /** Node k answers a path request from its cache. */
  lemma AnswerStep(w: Net, n: nat, k: nat) returns (e: Event, w': Net)
    requires 0 < k < n && IsLine(w, n, k)
    ensures Step({}, w, e, w')
    ensures w' == Net(w.nodes[k := Asked(k)], w.msgs + {Msg(k, Ann(k % 256))})
  {
    e := Request(k, 0, 0, Announce(k, 0, 0, 0), 0);
    var st := w.nodes[k];
    assert st.seen == map[AnnounceKey(0, 0) := 0] && |st.seen| <= DEDUP_PRUNE;
    assert HandleRequest(k, st, 0, 0, Announce(k, 0, 0, 0), 0) == (Asked(k), Some(Ann(k % 256)));
    w' := Net(w.nodes[k := Asked(k)], w.msgs + {Msg(k, Ann(k % 256))});
  }

  /** The next node of the line hears it. */
  lemma HearStep(w: Net, n: nat, u: Node, from: Node, h: nat) returns (e: Event, w': Net)
    requires 0 < u < n && u in w.nodes && w.nodes[u] == State(map[], map[]) && Msg(from, Ann(h)) in w.msgs
    ensures Step({}, w, e, w')
    ensures w' == Net(w.nodes[u := State(map[0 := Entry(from, h, 0, 0, Ann(h))], map[AnnounceKey(0, 0) := 0])], w.msgs)
  {
    e := Receive(u, Msg(from, Ann(h)), 0, None);
    var learned := Entry(from, h, 0, 0, Ann(h));
    var t: Table := map[];
    assert |t[0 := learned]| <= MAX_PATHS;
    w' := Net(w.nodes[u := State(map[0 := learned], map[AnnounceKey(0, 0) := 0])], w.msgs);
    assert w'.msgs == w.msgs + {};
  }

  /** n nodes that have heard nothing. */
  function Silent(n: nat): (nodes: map<Node, State>)
    ensures |nodes| == n
    ensures forall i :: i in nodes <==> 0 <= i < n
    ensures forall i | i in nodes :: nodes[i] == State(map[], map[])
  {
    if n == 0 then map[] else Silent(n - 1)[n - 1 := State(map[], map[])]
  }

  lemma FirstHop(n: nat) returns (ws: seq<Net>, es: seq<Event>)
    requires 1 < n
    ensures Run({}, ws, es) && |ws[0].nodes| == n && IsLine(ws[|es|], n, 1)
  {
    var w0 := Net(Silent(n), {});
    var w1 := w0.(msgs := {Msg(0, Ann(0))});
    assert w1.msgs == w0.msgs + {Msg(0, Ann(0))};
    ws, es := [w0], [];
    AppendStep(ws, es, SelfAnnounce(0, 0, 0), w1);
    var e, w2 := HearStep(w1, n, 1, 0, 0);
    AppendStep([w0, w1], [SelfAnnounce(0, 0, 0)], e, w2);
    ws, es := [w0, w1] + [w2], [SelfAnnounce(0, 0, 0)] + [e];
  }

  lemma {:induction false} Line(n: nat, k: nat) returns (ws: seq<Net>, es: seq<Event>)
    requires 1 <= k < n && k <= 256
    ensures Run({}, ws, es) && |ws[0].nodes| == n && IsLine(ws[|es|], n, k)
  {
    if k == 1 {
      ws, es := FirstHop(n);
    } else {
      ws, es := Line(n, k - 1);
      var e1, w1, e2, w2 := LongerLine(ws[|es|], n, k - 1, k);
      AppendTwo(ws, es, e1, w1, e2, w2);
      ws, es := ws + [w1] + [w2], es + [e1] + [e2];
    }
  }

  lemma SmallByte(j: nat)
    requires j < 256
    ensures j % 256 == j
  {
  }

  lemma LongerLine(w: Net, n: nat, j: nat, k: nat) returns (e1: Event, w1: Net, e2: Event, w2: Net)
    requires 0 < j && k == j + 1 < n && k <= 256 && IsLine(w, n, j)
    ensures Step({}, w, e1, w1) && Step({}, w1, e2, w2) && IsLine(w2, n, k)
  {
    SmallByte(j);
    e1, w1 := AnswerStep(w, n, j);
    assert w1.nodes[k] == State(map[], map[]);
    e2, w2 := HearStep(w1, n, k, j, j);
    LineGrows(w, w1, w2, n, j, k);
  }

  lemma AppendTwo(ws: seq<Net>, es: seq<Event>, e1: Event, w1: Net, e2: Event, w2: Net)
    requires Run({}, ws, es) && Step({}, ws[|es|], e1, w1) && Step({}, w1, e2, w2)
    ensures Run({}, ws + [w1] + [w2], es + [e1] + [e2])
    ensures (ws + [w1] + [w2])[0] == ws[0] && (ws + [w1] + [w2])[|es| + 2] == w2
  {
    AppendStep(ws, es, e1, w1);
    AppendStep(ws + [w1], es + [e1], e2, w2);
  }

  lemma LineGrows(w: Net, w1: Net, w2: Net, n: nat, j: nat, k: nat)
    requires 0 < j && k == j + 1 < n && IsLine(w, n, j)
    requires w1.nodes == w.nodes[j := Asked(j)]
    requires w2.nodes == w1.nodes[k := State(map[0 := Entry(j, j, 0, 0, Ann(j))], map[AnnounceKey(0, 0) := 0])]
    ensures IsLine(w2, n, k)
  {
  }

  lemma AppendStep(ws: seq<Net>, es: seq<Event>, e: Event, w: Net)
    requires Run({}, ws, es) && Step({}, ws[|es|], e, w)
    ensures Run({}, ws + [w], es + [e])
  {
    var vs, fs := ws + [w], es + [e];
    forall i | 0 <= i < |fs|
      ensures Step({}, vs[i], fs[i], vs[i + 1])
    {
      if i < |es| { assert Step({}, ws[i], es[i], ws[i + 1]); }
    }
  }

  /** Node 2 hears the wrapped answer after its dedup entry expired, and prefers it. */
  lemma WrapStep(w: Net, n: nat) returns (e: Event, w': Net)
    requires n > 256 && 2 in w.nodes && w.nodes[2] == Asked(2) && Msg(256, Ann(0)) in w.msgs
    ensures Step({}, w, e, w')
    ensures w'.nodes.Keys == w.nodes.Keys && 0 in w'.nodes[2].table && w'.nodes[2].table[0].nextHop == 256
    ensures forall i | i in w.nodes && i != 2 :: w'.nodes[i] == w.nodes[i]
  {
    e := Receive(2, Msg(256, Ann(0)), DEDUP_TTL, None);
    var st := w.nodes[2];
    var learned := Learned(256, Ann(0), DEDUP_TTL);
    assert |st.table[0 := learned]| <= MAX_PATHS;
    var st' := State(st.table[0 := learned], Observed(st.seen, AnnounceKey(0, 0), DEDUP_TTL, DEDUP_TTL));
    w' := Net(w.nodes[2 := st'], w.msgs);
    assert w'.msgs == w.msgs + {};
  }

  /** For every network of at least 257 nodes there is a run after which the nodes 2 to 256
      route towards node 0 only through each other, so no packet among them ever arrives. */
  lemma {:induction false} LoopsFrom257Nodes(n: nat) returns (ws: seq<Net>, es: seq<Event>)
    requires n >= 257
    ensures Run({}, ws, es) && |ws[0].nodes| == n
    ensures forall u: Node | 2 <= u <= 256 :: ws[|es|].Knows(u, 0) && 2 <= ws[|es|].At(u, 0).nextHop <= 256
  {
    ws, es := Line(n, 256);
    var w := ws[|es|];
    var e1, w1 := AnswerStep(w, n, 256);
    assert w1.nodes[2] == Asked(2);
    var e2, w2 := WrapStep(w1, n);
    AppendTwo(ws, es, e1, w1, e2, w2);
    forall u: Node | 2 <= u <= 256
      ensures w2.Knows(u, 0) && 2 <= w2.At(u, 0).nextHop <= 256
    {
      if u != 2 { assert w2.nodes[u] == w1.nodes[u] && w.nodes[u] == LineNode(u, 256); }
    }
    ws, es := ws + [w1] + [w2], es + [e1] + [e2];
  }
}
