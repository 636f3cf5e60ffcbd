/** How far an announce travels (internal/discovery/announce.go:216-275). In a network of at most
    130 nodes a fresh announce of which every copy is delivered reaches every node that transports
    join to its origin. The bound is exact: a node drops every copy but the first, so a copy that
    took the long way round can arrive first with its hops used up and silence the node for the
    copy that came directly; from 131 nodes on such a run is constructed. */
module PathFlood {
  import opened Basics
  import opened PathModel
  import opened PathProtocol

  /** Announce number nonce of generation ts from d. */
  datatype Flood = Flood(d: Node, ts: int, nonce: nat)
  {
    predicate Is(a: Announce) { a.dest == d && a.ts == ts }
  }

  /** An announce about d is of an older generation with another number, or it is this one. */
  predicate Known(f: Flood, a: Announce) { a.dest == f.d ==> a.ts <= f.ts && (a.ts == f.ts <==> a.nonce == f.nonce) }

  ghost predicate Informed(f: Flood, w: Net, u: Node) { w.Knows(u, f.d) && w.At(u, f.d).originTs == f.ts }

  ghost predicate AllInformed(f: Flood, w: Net) { forall u | u in w.nodes && u != f.d :: Informed(f, w, u) }

  /** Node u has passed the announce on. */
  ghost predicate Spoke(f: Flood, w: Net, u: Node) { exists m :: m in w.msgs && m.from == u && f.Is(m.ann) }

  /** Nobody has heard of the announce or of a newer one from its origin. */
  ghost predicate Fresh(f: Flood, w: Net) {
    && (forall m | m in w.msgs && m.ann.dest == f.d :: m.ann.ts < f.ts && m.ann.nonce != f.nonce)
    && (forall u | u in w.nodes :: AnnounceKey(f.d, f.nonce) !in w.nodes[u].seen)
    && (forall u | w.Knows(u, f.d) :: w.At(u, f.d).originTs < f.ts && w.At(u, f.d).ann.nonce != f.nonce)
  }

  /** The origin says nothing newer, and does not use the number again. */
  predicate Older(f: Flood, e: Event) {
    match e
    case SelfAnnounce(d, ts, nonce) => d == f.d ==> ts < f.ts && nonce != f.nonce
    case Request(u, _, _, own, _) => u == f.d ==> own.ts < f.ts && own.nonce != f.nonce
    case _ => true
  }

  ghost predicate NodeInv(f: Flood, transports: set<Node>, w: Net, u: Node)
    requires u in w.nodes
  {
    && (u != f.d && AnnounceKey(f.d, f.nonce) in w.nodes[u].seen ==> Informed(f, w, u))
    && (w.Knows(u, f.d) ==> Known(f, w.At(u, f.d).ann) && w.At(u, f.d).originTs <= f.ts)
    && (u in transports && Informed(f, w, u) ==> Spoke(f, w, u) || AllInformed(f, w))
  }

  ghost predicate FloodInv(f: Flood, transports: set<Node>, w: Net) {
    && f.d in w.nodes && Msg(f.d, Announce(f.d, f.ts, f.nonce, 0)) in w.msgs
    && (forall m | m in w.msgs :: Known(f, m.ann))
    && (forall u | u in w.nodes :: NodeInv(f, transports, w, u))
  }

  lemma FloodStarts(f: Flood, transports: set<Node>, w: Net, w': Net)
    requires Inv(w) && Fresh(f, w) && Step(transports, w, SelfAnnounce(f.d, f.ts, f.nonce), w')
    ensures FloodInv(f, transports, w')
  {
    forall u | u in w'.nodes
      ensures NodeInv(f, transports, w', u)
    {
      if w.Knows(u, f.d) { assert EntryInv(w, u, f.d); }
    }
  }

  // ---- a step keeps it ---------------------------------------------------------------------------

  /** Nothing is taken back: messages stay, informed nodes stay informed. */
  ghost predicate Spreads(f: Flood, w: Net, w': Net) {
    && w.msgs <= w'.msgs && w'.nodes.Keys == w.nodes.Keys
    && (forall u | Informed(f, w, u) :: Informed(f, w', u))
  }

  /** A node that learned nothing of the announce, or had it. */
  lemma NodeStays(f: Flood, transports: set<Node>, w: Net, w': Net, u: Node)
    requires Spreads(f, w, w') && u in w.nodes && NodeInv(f, transports, w, u)
    requires Informed(f, w', u) ==> Informed(f, w, u)
    requires w'.Knows(u, f.d) ==> Known(f, w'.At(u, f.d).ann) && w'.At(u, f.d).originTs <= f.ts
    requires AnnounceKey(f.d, f.nonce) in w'.nodes[u].seen ==>
               AnnounceKey(f.d, f.nonce) in w.nodes[u].seen || u == f.d || Informed(f, w, u)
    ensures NodeInv(f, transports, w', u)
  {
  }

  lemma OthersStay(f: Flood, transports: set<Node>, w: Net, w': Net, x: Node)
    requires FloodInv(f, transports, w) && Spreads(f, w, w') && x in w.nodes && x in w'.nodes
    requires w'.nodes == w.nodes[x := w'.nodes[x]] && NodeInv(f, transports, w', x)
    requires forall m | m in w'.msgs && m !in w.msgs :: Known(f, m.ann)
    ensures FloodInv(f, transports, w')
  {
    forall u | u in w'.nodes
      ensures NodeInv(f, transports, w', u)
    {
      if u != x {
        assert NodeInv(f, transports, w, u);
        NodeStays(f, transports, w, w', u);
      }
    }
  }

  /** In a network of at most 130 nodes, a node that gets the announce over 128 hops is the last. */
  lemma LastOne(f: Flood, w: Net, h: nat)
    requires Inv(w) && |w.nodes| <= HOP_MAX + 2 && f.d in w.nodes && h >= HOP_MAX && Earned(w, f.d, f.ts, h)
    requires forall u | w.Knows(u, f.d) :: w.At(u, f.d).originTs <= f.ts
    ensures AllInformed(f, w)
  {
    var good, others := AsGood(w, f.d, f.ts, HOP_MAX), w.nodes.Keys - {f.d};
    assert |good| > HOP_MAX;
    forall u | u in good
      ensures u in others && Informed(f, w, u)
    {
      assert w.Knows(u, f.d) && EntryInv(w, u, f.d);
    }
    assert |others| + 1 == |w.nodes.Keys| == |w.nodes|;
    assert |others - good| == |others| - |good|;
    assert forall u | u in others :: u in good;
  }

  /** What a node's own state says of the announce. */
  predicate Has(f: Flood, st: State) { f.d in st.table && st.table[f.d].originTs == f.ts }

  predicate Sound(f: Flood, st: State) {
    f.d in st.table ==> Known(f, st.table[f.d].ann) && st.table[f.d].originTs <= f.ts
  }

  /** A node with room hears an announce about d: afterwards it has the flooded one exactly if it
      had it or this was it. */
  lemma Hears(f: Flood, u: Node, transport: bool, st: State, from: Node, a: Announce, now: int, st': State,
              forwarded: Option<Announce>)
    requires HandleAnnounce(u, transport, st, from, a, now, st', forwarded) && |st.table| < MAX_PATHS
    requires Sound(f, st) && Known(f, a) && (u != f.d && AnnounceKey(f.d, f.nonce) in st.seen ==> Has(f, st))
    ensures Sound(f, st')
    ensures u != f.d ==> (Has(f, st') <==> Has(f, st) || f.Is(a))
    ensures u == f.d ==> (Has(f, st') <==> Has(f, st))
    ensures AnnounceKey(f.d, f.nonce) in st'.seen ==> AnnounceKey(f.d, f.nonce) in st.seen || (f.Is(a) && u != f.d)
    ensures u != f.d && f.Is(a) && !Has(f, st) ==>
              && st'.table == st.table[f.d := Learned(from, a, now)]
              && (transport && a.hops < HOP_MAX ==> forwarded == Some(a.(hops := a.hops + 1)))
    ensures forwarded.Some? ==> Known(f, forwarded.value)
  {
    assert |st.table[a.dest := Learned(from, a, now)]| <= MAX_PATHS by {
      assert st.table[a.dest := Learned(from, a, now)].Keys == st.table.Keys + {a.dest};
    }
  }

  lemma Arrival(f: Flood, transports: set<Node>, w: Net, e: Event, w': Net)
    requires Inv(w) && |w.nodes| <= 256 && FloodInv(f, transports, w) && Step(transports, w, e, w') && e.Receive?
    ensures Spreads(f, w, w') && w'.nodes == w.nodes[e.u := w'.nodes[e.u]] && Sound(f, w'.nodes[e.u])
    ensures forall m | m in w'.msgs && m !in w.msgs :: Known(f, m.ann)
    ensures e.u != f.d ==> (Has(f, w'.nodes[e.u]) <==> Has(f, w.nodes[e.u]) || f.Is(e.m.ann))
    ensures e.u == f.d ==> (Has(f, w'.nodes[e.u]) <==> Has(f, w.nodes[e.u]))
    ensures AnnounceKey(f.d, f.nonce) in w'.nodes[e.u].seen ==>
              AnnounceKey(f.d, f.nonce) in w.nodes[e.u].seen || (f.Is(e.m.ann) && e.u != f.d)
    ensures e.u != f.d && f.Is(e.m.ann) && !Has(f, w.nodes[e.u]) ==>
              && w'.nodes[e.u].table == w.nodes[e.u].table[f.d := Learned(e.m.from, e.m.ann, e.now)]
              && (e.u in transports && e.m.ann.hops < HOP_MAX ==> Spoke(f, w', e.u))
  {
    var u, a := e.u, e.m.ann;
    TableBound(w, u);
    assert NodeInv(f, transports, w, u) && Known(f, a);
    Hears(f, u, u in transports, w.nodes[u], e.m.from, a, e.now, w'.nodes[u], e.forwarded);
    if u in transports && a.hops < HOP_MAX && e.forwarded == Some(a.(hops := a.hops + 1)) {
      assert Msg(u, a.(hops := a.hops + 1)) in w'.msgs;
    }
  }

  /** The announce arrives at a node that does not have it. */
  lemma FirstCopy(f: Flood, transports: set<Node>, w: Net, e: Event, w': Net)
    requires Inv(w) && Inv(w') && |w.nodes| <= HOP_MAX + 2 && FloodInv(f, transports, w) && Step(transports, w, e, w')
    requires e.Receive? && f.Is(e.m.ann) && e.u != f.d && !Informed(f, w, e.u)
    ensures Informed(f, w', e.u) && FloodInv(f, transports, w') && Spreads(f, w, w')
  {
    Arrival(f, transports, w, e, w');
    if e.u in transports && e.m.ann.hops >= HOP_MAX { LongWay(f, transports, w, e, w'); }
    OthersStay(f, transports, w, w', e.u);
  }

  lemma LongWay(f: Flood, transports: set<Node>, w: Net, e: Event, w': Net)
    requires Inv(w') && |w'.nodes| <= HOP_MAX + 2 && FloodInv(f, transports, w)
    requires e.Receive? && f.Is(e.m.ann) && e.m.ann.hops >= HOP_MAX && e.u in w.nodes && e.u in w'.nodes
    requires w'.nodes == w.nodes[e.u := w'.nodes[e.u]] && Sound(f, w'.nodes[e.u])
    requires w'.nodes[e.u].table == w.nodes[e.u].table[f.d := Learned(e.m.from, e.m.ann, e.now)]
    ensures AllInformed(f, w')
  {
    assert w'.Knows(e.u, f.d) && EntryInv(w', e.u, f.d);
    forall v | w'.Knows(v, f.d)
      ensures w'.At(v, f.d).originTs <= f.ts
    {
      if v != e.u { assert NodeInv(f, transports, w, v); }
    }
    LastOne(f, w', e.m.ann.hops);
  }

  /** Everything else a node may hear. */
  lemma OtherCopy(f: Flood, transports: set<Node>, w: Net, e: Event, w': Net)
    requires Inv(w) && |w.nodes| <= 256 && FloodInv(f, transports, w) && Step(transports, w, e, w')
    requires e.Receive? && (!f.Is(e.m.ann) || e.u == f.d || Informed(f, w, e.u))
    ensures FloodInv(f, transports, w') && Spreads(f, w, w')
  {
    Arrival(f, transports, w, e, w');
    assert NodeInv(f, transports, w, e.u);
    NodeStays(f, transports, w, w', e.u);
    OthersStay(f, transports, w, w', e.u);
  }

  lemma RequestKeeps(f: Flood, transports: set<Node>, w: Net, e: Event, w': Net)
    requires Inv(w) && |w.nodes| <= 256 && FloodInv(f, transports, w) && Step(transports, w, e, w')
    requires e.Request? && Older(f, e)
    ensures FloodInv(f, transports, w') && Spreads(f, w, w')
  {
    assert NodeInv(f, transports, w, e.u);
    if w.Knows(e.u, e.d) { assert EntryInv(w, e.u, e.d); }
    NodeStays(f, transports, w, w', e.u);
    OthersStay(f, transports, w, w', e.u);
  }

  lemma FloodStep(f: Flood, transports: set<Node>, w: Net, e: Event, w': Net)
    requires Inv(w) && Inv(w') && |w.nodes| <= HOP_MAX + 2 && FloodInv(f, transports, w)
    requires Step(transports, w, e, w') && Older(f, e)
    ensures FloodInv(f, transports, w') && Spreads(f, w, w')
    ensures e.Receive? && f.Is(e.m.ann) && e.u != f.d ==> Informed(f, w', e.u)
  {
    match e {
      case SelfAnnounce(_, _, _) =>
        assert NodeInv(f, transports, w, e.d);
        forall u | u in w'.nodes
          ensures NodeInv(f, transports, w', u)
        {
          assert NodeInv(f, transports, w, u);
          NodeStays(f, transports, w, w', u);
        }
      case Receive(u, m, _, _) =>
        if f.Is(m.ann) && u != f.d && !Informed(f, w, u) {
          FirstCopy(f, transports, w, e, w');
        } else {
          OtherCopy(f, transports, w, e, w');
        }
      case Request(_, _, _, _, _) => RequestKeeps(f, transports, w, e, w');
    }
  }

  // ---- whole floods ---------------------------------------------------------------------------------

  /** A run in which d announces itself at step b, and nothing newer after it. */
  ghost predicate Floods(f: Flood, transports: set<Node>, ws: seq<Net>, es: seq<Event>, b: nat) {
    && Run(transports, ws, es) && b < |es| && es[b] == SelfAnnounce(f.d, f.ts, f.nonce) && Fresh(f, ws[b])
    && forall k: nat | b < k < |es| :: Older(f, es[k])
  }

  /** What holds once the announce is out, in a network of at most 130 nodes. */
  ghost predicate Spreading(f: Flood, transports: set<Node>, w: Net) {
    Inv(w) && |w.nodes| <= HOP_MAX + 2 && FloodInv(f, transports, w)
  }

  lemma SpreadingStep(f: Flood, transports: set<Node>, w: Net, e: Event, w': Net)
    requires Spreading(f, transports, w) && Step(transports, w, e, w') && Older(f, e)
    ensures Spreading(f, transports, w') && Spreads(f, w, w')
    ensures e.Receive? && f.Is(e.m.ann) && e.u != f.d ==> Informed(f, w', e.u)
  {
    StepInv(transports, w, e, w');
    FloodStep(f, transports, w, e, w');
    SameSize(w, w');
  }

  lemma SameSize(w: Net, v: Net)
    requires w.nodes.Keys == v.nodes.Keys
    ensures |w.nodes| == |v.nodes|
  {
    assert |w.nodes| == |w.nodes.Keys| && |v.nodes| == |v.nodes.Keys|;
  }

  ghost predicate StepsAfter(f: Flood, transports: set<Node>, ws: seq<Net>, es: seq<Event>, b: nat)
    requires |ws| == |es| + 1
  {
    forall k: nat | b < k < |es| :: Step(transports, ws[k], es[k], ws[k + 1]) && Older(f, es[k])
  }

  /** The part of the run after the announce, as steps that keep it spreading. */
  lemma AfterAnnounce(f: Flood, transports: set<Node>, ws: seq<Net>, es: seq<Event>, b: nat)
    requires Floods(f, transports, ws, es, b) && |ws[0].nodes| <= HOP_MAX + 2
    ensures Spreading(f, transports, ws[b + 1])
    ensures StepsAfter(f, transports, ws, es, b)
  {
    RunInv(transports, ws, es, b);
    assert Step(transports, ws[b], es[b], ws[b + 1]);
    SameSize(ws[b], ws[0]);
    StepInv(transports, ws[b], es[b], ws[b + 1]);
    FloodStarts(f, transports, ws[b], ws[b + 1]);
    SameSize(ws[b + 1], ws[b]);
  }

  /** From any moment after the announce to any later one. */
  lemma SpreadsOn(f: Flood, transports: set<Node>, ws: seq<Net>, es: seq<Event>, b: nat, m: nat, n: nat)
    requires b < m <= n <= |es| == |ws| - 1 && Spreading(f, transports, ws[b + 1])
    requires StepsAfter(f, transports, ws, es, b)
    ensures Spreading(f, transports, ws[n]) && Spreads(f, ws[m], ws[n])
  {
    var step := (w: Net, e: Event, w': Net) => Step(transports, w, e, w') && Older(f, e);
    var inv := (w: Net) => Spreading(f, transports, w);
    var rel := (w: Net, w': Net) => Spreads(f, w, w');
    forall w, e, w' | inv(w) && step(w, e, w')
      ensures inv(w') && rel(w, w')
    {
      SpreadingStep(f, transports, w, e, w');
    }
    var vs, fs := ws[b + 1..], es[b + 1..];
    assert forall k :: 0 <= k < |fs| ==> step(vs[k], fs[k], vs[k + 1]);
    Throughout(step, inv, vs, fs, n - b - 1);
    AlongRun(step, inv, rel, vs, fs, m - b - 1, n - b - 1);
  }

  predicate Heard(e: Event, v: Node, m: Msg) { e.Receive? && e.u == v && e.m == m }

  /** Every copy of the announce was heard by every node linked to the one that sent it. */
  ghost predicate AllHeard(f: Flood, linked: (Node, Node) -> bool, ws: seq<Net>, es: seq<Event>)
    requires |ws| == |es| + 1
  {
    forall m, v | m in ws[|es|].msgs && f.Is(m.ann) && v in ws[|es|].nodes && linked(m.from, v) ::
      exists e :: e in es && Heard(e, v, m)
  }

  lemma {:induction false} NoEarlierCopy(f: Flood, transports: set<Node>, ws: seq<Net>, es: seq<Event>, b: nat,
                                         k: nat, m: Msg)
    requires Floods(f, transports, ws, es, b) && k <= b && m in ws[k].msgs
    ensures !f.Is(m.ann)
    decreases b - k
  {
    if k < b {
      assert Step(transports, ws[k], es[k], ws[k + 1]);
      NoEarlierCopy(f, transports, ws, es, b, k + 1, m);
    }
  }

  lemma HeardIsInformed(f: Flood, transports: set<Node>, linked: (Node, Node) -> bool, ws: seq<Net>, es: seq<Event>,
                        b: nat, m: Msg, v: Node)
    requires Floods(f, transports, ws, es, b) && |ws[0].nodes| <= HOP_MAX + 2 && AllHeard(f, linked, ws, es)
    requires m in ws[|es|].msgs && f.Is(m.ann) && v in ws[|es|].nodes && v != f.d && linked(m.from, v)
    ensures Informed(f, ws[|es|], v)
  {
    var e :| e in es && Heard(e, v, m);
    var k: nat :| k < |es| && es[k] == e;
    assert Step(transports, ws[k], es[k], ws[k + 1]);
    if k <= b {
      NoEarlierCopy(f, transports, ws, es, b, k, m);
    } else {
      AfterAnnounce(f, transports, ws, es, b);
      HeardAt(f, transports, ws, es, b, k);
    }
  }

  lemma HeardAt(f: Flood, transports: set<Node>, ws: seq<Net>, es: seq<Event>, b: nat, k: nat)
    requires b < k < |es| == |ws| - 1 && Spreading(f, transports, ws[b + 1]) && StepsAfter(f, transports, ws, es, b)
    requires es[k].Receive? && f.Is(es[k].m.ann) && es[k].u != f.d
    ensures Informed(f, ws[|es|], es[k].u)
  {
    ArrivalInforms(f, transports, ws, es, b, k);
    InformedOn(f, transports, ws, es, b, k + 1, es[k].u);
  }

  lemma ArrivalInforms(f: Flood, transports: set<Node>, ws: seq<Net>, es: seq<Event>, b: nat, k: nat)
    requires b < k < |es| == |ws| - 1 && Spreading(f, transports, ws[b + 1]) && StepsAfter(f, transports, ws, es, b)
    requires es[k].Receive? && f.Is(es[k].m.ann) && es[k].u != f.d
    ensures Informed(f, ws[k + 1], es[k].u)
  {
    SpreadsOn(f, transports, ws, es, b, k, k);
    SpreadingStep(f, transports, ws[k], es[k], ws[k + 1]);
  }

  lemma InformedOn(f: Flood, transports: set<Node>, ws: seq<Net>, es: seq<Event>, b: nat, m: nat, u: Node)
    requires b < m <= |es| == |ws| - 1 && Spreading(f, transports, ws[b + 1]) && StepsAfter(f, transports, ws, es, b)
    requires Informed(f, ws[m], u)
    ensures Informed(f, ws[|es|], u)
  {
    SpreadsOn(f, transports, ws, es, b, m, |es|);
  }

  /** r leads from the origin over links, and through transports only. */
  ghost predicate Joined(f: Flood, transports: set<Node>, linked: (Node, Node) -> bool, w: Net, r: seq<Node>) {
    && 1 < |r| && r[0] == f.d && (forall j :: 0 < j < |r| ==> r[j] in w.nodes && r[j] != f.d)
    && (forall j :: 0 < j < |r| ==> linked(r[j - 1], r[j]))
    && (forall j :: 0 < j < |r| - 1 ==> r[j] in transports)
  }

  /** In a network of at most 130 nodes, a fresh announce of which every copy is heard reaches every
      node that transports join to its origin. */
  lemma {:induction false} FloodReaches(f: Flood, transports: set<Node>, linked: (Node, Node) -> bool, ws: seq<Net>,
                                        es: seq<Event>, b: nat, r: seq<Node>)
    requires Floods(f, transports, ws, es, b) && |ws[0].nodes| <= HOP_MAX + 2 && AllHeard(f, linked, ws, es)
    requires Joined(f, transports, linked, ws[|es|], r)
    ensures Informed(f, ws[|es|], r[|r| - 1])
    decreases |r|
  {
    var w, u, v := ws[|es|], r[|r| - 2], r[|r| - 1];
    AfterAnnounce(f, transports, ws, es, b);
    SpreadsOn(f, transports, ws, es, b, |es|, |es|);
    if |r| == 2 {
      HeardIsInformed(f, transports, linked, ws, es, b, Msg(f.d, Announce(f.d, f.ts, f.nonce, 0)), v);
    } else {
      FloodReaches(f, transports, linked, ws, es, b, r[..|r| - 1]);
      assert NodeInv(f, transports, w, u);
      if Spoke(f, w, u) {
        var m :| m in w.msgs && m.from == u && f.Is(m.ann);
        HeardIsInformed(f, transports, linked, ws, es, b, m, v);
      }
    }
  }
}
