/** What a late copy of the advertisement does. onAdv does not consult the memory of finished
    resources (internal/link/resource.go:431-443), so an advertisement that arrives after the
    resource completed opens a second, empty state. The payload is then delivered again, and a
    sender that has passed its first part can be left waiting for ever. Which resources this
    can happen to is settled exactly: those of at least two parts whose advertisement is
    acceptable. */
module ResourceReopen {
  import opened Basics
  import opened ResourceModel
  import opened ResourceProtocol

  /** With the advertisement accepted at most once, onComplete fires at most once. */
  lemma {:induction false} DeliveredAtMostOnce(hash: Hash, ws: seq<World>, es: seq<Event>, i: nat)
    requires Run(hash, ws, es) && i < |ws| && ws[i].accepted <= 1
    ensures |ws[i].delivered| <= 1
  {
    Safety(hash, ws, es, i);
  }

  // ---- from any completed world, a late advertisement lets onComplete fire again -----

  /** A chain of steps of any kind. */
  ghost predicate Chain<W, E>(step: (W, E, W) -> bool, ws: seq<W>, es: seq<E>) {
    |ws| == |es| + 1 && forall i :: 0 <= i < |es| ==> step(ws[i], es[i], ws[i + 1])
  }

  lemma ChainJoin<W, E>(step: (W, E, W) -> bool, ws: seq<W>, es: seq<E>, vs: seq<W>, fs: seq<E>)
    requires Chain(step, ws, es) && Chain(step, vs, fs) && vs[0] == ws[|es|]
    ensures Chain(step, ws + vs[1..], es + fs) && (ws + vs[1..])[0] == ws[0] && (ws + vs[1..])[|es + fs|] == vs[|fs|]
  {
    var us, gs := ws + vs[1..], es + fs;
    forall i | 0 <= i < |gs|
      ensures step(us[i], gs[i], us[i + 1])
    {
      if i < |es| {
        assert step(ws[i], es[i], ws[i + 1]);
      } else {
        var j := i - |es|;
        assert step(vs[j], fs[j], vs[j + 1]) && us[i] == vs[j] && us[i + 1] == vs[j + 1];
      }
    }
  }

  ghost function StepOf(hash: Hash): (World, Event, World) -> bool { (w, e, w') => Step(hash, w, e, w') }

  ghost predicate Steps(hash: Hash, ws: seq<World>, es: seq<Event>) { Chain(StepOf(hash), ws, es) }

  /** Some steps lead from w to w'. */
  ghost predicate Leads(hash: Hash, w: World, w': World) {
    exists ws: seq<World>, es: seq<Event> :: Steps(hash, ws, es) && ws[0] == w && ws[|es|] == w'
  }

  lemma LeadsNowhere(hash: Hash, w: World)
    ensures Leads(hash, w, w)
  {
    assert Steps(hash, [w], []);
  }

  lemma LeadsByStep(hash: Hash, w: World, e: Event, w': World)
    requires Step(hash, w, e, w')
    ensures Leads(hash, w, w')
  {
    assert Steps(hash, [w, w'], [e]);
  }

  lemma LeadsOn(hash: Hash, w: World, v: World, u: World)
    requires Leads(hash, w, v) && Leads(hash, v, u)
    ensures Leads(hash, w, u)
  {
    var ws: seq<World>, es: seq<Event> :| Steps(hash, ws, es) && ws[0] == w && ws[|es|] == v;
    var vs: seq<World>, fs: seq<Event> :| Steps(hash, vs, fs) && vs[0] == v && vs[|fs|] == u;
    ChainJoin(StepOf(hash), ws, es, vs, fs);
    assert Steps(hash, ws + vs[1..], es + fs);
  }

  lemma {:induction false} SubsetOfSize<T>(s: set<T>, n: nat) returns (sub: set<T>)
    requires n <= |s|
    ensures sub <= s && |sub| == n
  {
    if n == 0 { return {}; }
    var x :| x in s;
    sub := SubsetOfSize(s - {x}, n - 1);
    sub := sub + {x};
  }

  lemma SomeMemory(finished: map<Id, int>, id: Id, now: int) returns (finished': map<Id, int>)
    ensures Remembered(finished, id, now, finished')
  {
    if |finished| < MAX_FINISHED { return finished[id := now]; }
    var live := Fresh(finished, now).Keys;
    var kept := live;
    if |live| >= MAX_FINISHED { kept := SubsetOfSize(live, MAX_FINISHED - 1); }
    assert IsKept(finished, now, kept);
    finished' := KeepIn(finished, kept)[id := now];
  }

  /** The first i parts are held and nothing else. */
  ghost predicate PrefixHeld(w: World, i: nat) {
    w.Open() && var got := w.r.byID[w.Id()].got;
    i <= |got| == w.Count() && forall j :: 0 <= j < |got| ==> (got[j] <==> j < i)
  }

  /** Delivering part i when exactly the parts below it are held. */
  lemma NextPart(hash: Hash, w: World, i: nat) returns (w': World)
    requires Inv(hash, w) && PrefixHeld(w, i) && i < w.Count() && w.s.PartFrame(i) in w.net
    ensures Leads(hash, w, w') && Inv(hash, w') && w'.s == w.s && w.net <= w'.net && w'.accepted == w.accepted
    ensures |w'.r.byID| <= |w.r.byID| && Ack(w.Id(), i + 1, []) in w'.net
    ensures i + 1 < w.Count() ==> PrefixHeld(w', i + 1) && w'.delivered == w.delivered
    ensures i + 1 == w.Count() ==>
      !w'.Open() && |w'.r.byID| < |w.r.byID| && w'.delivered == w.delivered + [w.Payload()]
  {
    var e: Event;
    if i + 1 < w.Count() { e, w' := InnerPart(hash, w, i); } else { e, w' := LastPart(hash, w, i); }
    StepInv(hash, w, e, w');
    LeadsByStep(hash, w, e, w');
  }

  lemma InnerPart(hash: Hash, w: World, i: nat) returns (e: Event, w': World)
    requires Inv(hash, w) && PrefixHeld(w, i) && i + 1 < w.Count() && w.s.PartFrame(i) in w.net
    ensures Step(hash, w, e, w') && PrefixHeld(w', i + 1) && |w'.r.byID| == |w.r.byID|
    ensures w' == w.(r := w'.r, net := w.net + {Ack(w.Id(), i + 1, [])})
  {
    var f, st' := w.s.PartFrame(i), w.r.byID[w.Id()].Absorb(i, w.s.parts[i]);
    var ack := Ack(w.Id(), i + 1, []);
    NextState(w, i, st');
    var r' := w.r.(byID := w.r.byID[w.Id() := st']);
    e := ToReceiver(f, 0, [ack], None);
    assert FeedPart(hash, w.r, f, 0, r', [ack], None);
    w' := w.(r := r', net := w.net + Frames([ack]));
    assert r'.byID.Keys == w.r.byID.Keys && Frames([ack]) == {ack};
  }

  lemma LastPart(hash: Hash, w: World, i: nat) returns (e: Event, w': World)
    requires Inv(hash, w) && PrefixHeld(w, i) && i + 1 == w.Count() && w.s.PartFrame(i) in w.net
    ensures Step(hash, w, e, w') && !w'.Open() && |w'.r.byID| < |w.r.byID|
    ensures w' == w.(r := w'.r, net := w.net + {Ack(w.Id(), i + 1, []), Done(w.Id())},
                     delivered := w.delivered + [w.Payload()])
  {
    var f, st' := w.s.PartFrame(i), w.r.byID[w.Id()].Absorb(i, w.s.parts[i]);
    var replies := [Ack(w.Id(), i + 1, []), Done(w.Id())];
    NextState(w, i, st');
    var finished' := SomeMemory(w.r.finished, w.Id(), 0);
    var r' := Receiver(w.r.byID - {w.Id()}, finished');
    e := ToReceiver(f, 0, replies, Some(w.Payload()));
    assert FeedPart(hash, w.r, f, 0, r', replies, Some(w.Payload()));
    w' := w.(r := r', net := w.net + Frames(replies), delivered := w.delivered + [w.Payload()]);
    assert r'.byID.Keys == w.r.byID.Keys - {w.Id()} && Frames(replies) == {replies[0], replies[1]};
  }

  /** The state after the next part in order, and its acknowledgement. */
  lemma NextState(w: World, i: nat, st': RecvState)
    requires ReceiverInv(w) && PrefixHeld(w, i) && i < w.Count() && st' == w.r.byID[w.Id()].Absorb(i, w.s.parts[i])
    ensures StateInv(w.s, st') && (st'.count == st'.total <==> i + 1 == w.Count()) && st'.count <= st'.total
    ensures forall j :: 0 <= j < w.Count() ==> (st'.got[j] <==> j < i + 1)
    ensures IsAckOf(w.Id(), st', Ack(w.Id(), i + 1, [])) && (i + 1 == w.Count() ==> st'.parts == w.s.parts)
  {
    StateAbsorb(w.s, w.r.byID[w.Id()], i);
    FullStateIsPayload(w.s, st');
    if st'.base > 0 { assert st'.got[st'.base - 1]; }
  }

  lemma {:induction false} PartsInOrder(hash: Hash, w: World, i: nat, n: nat) returns (w': World)
    requires Inv(hash, w) && PrefixHeld(w, i) && i <= n < w.Count()
    requires forall j: nat | j < n :: w.s.PartFrame(j) in w.net
    ensures Leads(hash, w, w') && Inv(hash, w') && PrefixHeld(w', n) && w'.s == w.s && w.net <= w'.net
    ensures w'.accepted == w.accepted && w'.delivered == w.delivered && |w'.r.byID| <= |w.r.byID|
    decreases n - i
  {
    LeadsNowhere(hash, w);
    w' := w;
    if i < n {
      var v := NextPart(hash, w, i);
      w' := PartsInOrder(hash, v, i + 1, n);
      LeadsOn(hash, w, v, w');
    }
  }

  lemma AcceptStep(hash: Hash, w: World, adv: Frame, w': World)
    requires w.r.Valid() && w.s.Shape() && !w.Open() && |w.r.byID| < MAX_INFLIGHT
    requires adv in w.net && adv.Adv? && adv.id == w.Id() && Acceptable(adv)
    requires w' == w.(r := FeedAdv(w.r, adv), accepted := w.accepted + 1)
    ensures Step(hash, w, ToReceiver(adv, 0, [], None), w') && |w'.r.byID| == |w.r.byID| + 1
  {
    assert w'.net == w.net + Frames([]);
    assert w'.r.byID.Keys == w.r.byID.Keys + {w.Id()};
  }

  /** A copy of the advertisement reaches a receiver that has no state for it. */
  lemma Reopens(hash: Hash, w: World, adv: Frame) returns (w': World)
    requires Inv(hash, w) && !w.Open() && |w.r.byID| < MAX_INFLIGHT
    requires adv in w.net && adv.Adv? && adv.id == w.Id() && Acceptable(adv)
    ensures Leads(hash, w, w') && Inv(hash, w') && PrefixHeld(w', 0) && w'.s == w.s && w'.net == w.net
    ensures w'.accepted == w.accepted + 1 && w'.delivered == w.delivered && |w'.r.byID| == |w.r.byID| + 1
  {
    assert Genuine(w, adv);
    w' := w.(r := FeedAdv(w.r, adv), accepted := w.accepted + 1);
    AcceptStep(hash, w, adv, w');
    StepInv(hash, w, ToReceiver(adv, 0, [], None), w');
    LeadsByStep(hash, w, ToReceiver(adv, 0, [], None), w');
  }

  /** From every completed world, one more accepted advertisement followed by parts already
      on the wire hands the payload to onComplete a second time. */
  lemma {:induction false} LateAdvertisementDeliversAgain(hash: Hash, w: World, adv: Frame) returns (w': World)
    requires Inv(hash, w) && w.delivered != [] && !w.Open()
    requires adv in w.net && adv.Adv? && adv.id == w.Id() && Acceptable(adv) && |w.r.byID| < MAX_INFLIGHT
    ensures Leads(hash, w, w') && w'.delivered == w.delivered + [w.Payload()]
  {
    var last := w.Count() - 1;
    var opened' := Reopens(hash, w, adv);
    assert forall j: nat | j < w.Count() :: w.Held(j) && w.s.PartFrame(j) in w.net;
    var almost := PartsInOrder(hash, opened', 0, last);
    w' := NextPart(hash, almost, last);
    LeadsOn(hash, w, opened', almost);
    LeadsOn(hash, w, almost, w');
  }

  // ---- a late advertisement wedges the sender ------------------------------------------

  /** Every part sent so far may still arrive. */
  ghost predicate OnWire(w: World) {
    w.s.sentHigh <= w.Count() && forall j: nat | j < w.s.sentHigh :: w.s.PartFrame(j) in w.net
  }

  /** Both ends have agreed on the first i parts and on nothing else. */
  ghost predicate InStep(hash: Hash, w: World, i: nat) {
    && Inv(hash, w) && PrefixHeld(w, i) && OnWire(w) && w.delivered == []
    && w.s.base == i && w.s.outcome == Pending && forall j :: 0 <= j < |w.s.acked| ==> (w.s.acked[j] <==> j < i)
  }

  /** The next part arrives and so does its acknowledgement. */
  lemma OneMorePart(hash: Hash, w: World, i: nat) returns (w': World)
    requires InStep(hash, w, i) && i + 1 < w.Count()
    ensures Leads(hash, w, w') && InStep(hash, w', i + 1) && w'.s.id == w.s.id && w'.s.parts == w.s.parts
    ensures w.net <= w'.net && w'.accepted == w.accepted && |w'.r.byID| <= |w.r.byID|
  {
    var v := NextPart(hash, w, i);
    w' := AckPasses(hash, v, i + 1);
    LeadsOn(hash, w, v, w');
  }

  /** The acknowledgement of the first k parts reaches a sender that had passed one less. */
  lemma AckPasses(hash: Hash, v: World, k: nat) returns (w': World)
    requires Inv(hash, v) && OnWire(v) && v.s.outcome == Pending && 0 < k < v.Count() && v.s.base == k - 1
    requires (forall j :: 0 <= j < |v.s.acked| ==> (v.s.acked[j] <==> j < k - 1)) && Ack(v.Id(), k, []) in v.net
    ensures Leads(hash, v, w') && Inv(hash, w') && OnWire(w') && v.net <= w'.net
    ensures w' == v.(s := w'.s, net := w'.net) && w'.s.id == v.s.id && w'.s.parts == v.s.parts
    ensures w'.s.base == k && w'.s.outcome == Pending
    ensures forall j :: 0 <= j < |w'.s.acked| ==> (w'.s.acked[j] <==> j < k)
  {
    var ack := Ack(v.Id(), k, []);
    var s := v.s.Acked(ack);
    w' := v.(s := s.Filled(0), net := v.net + Frames(s.FillFrames()));
    assert Step(hash, v, ToSender(ack, 0), w');
    StepInv(hash, v, ToSender(ack, 0), w');
    LeadsByStep(hash, v, ToSender(ack, 0), w');
    FilledOnWire(v, s, w');
  }

  lemma FilledOnWire(v: World, s: Sender, w': World)
    requires OnWire(v) && s.Shape() && s.id == v.s.id && s.parts == v.s.parts && s.sentHigh == v.s.sentHigh
    requires w' == v.(s := s.Filled(0), net := v.net + Frames(s.FillFrames()))
    ensures OnWire(w')
  {
    forall j: nat | j < w'.s.sentHigh
      ensures w'.s.PartFrame(j) in w'.net
    {
      if j < s.sentHigh {
        assert v.s.PartFrame(j) in v.net;
      } else {
        assert s.FillFrames()[j - s.sentHigh] == s.PartFrame(j);
      }
    }
  }

  lemma {:induction false} AllButLast(hash: Hash, w: World, i: nat) returns (w': World)
    requires InStep(hash, w, i) && i < w.Count()
    ensures Leads(hash, w, w') && InStep(hash, w', w.Count() - 1) && w'.s.id == w.s.id && w'.s.parts == w.s.parts
    ensures w.net <= w'.net && w'.accepted == w.accepted && |w'.r.byID| <= |w.r.byID|
    decreases w.Count() - i
  {
    LeadsNowhere(hash, w);
    w' := w;
    if i + 1 < w.Count() {
      var v := OneMorePart(hash, w, i);
      w' := AllButLast(hash, v, i + 1);
      LeadsOn(hash, w, v, w');
    }
  }

  lemma SecondBit()
    ensures forall i: nat :: Bit([2], i) <==> i == 1
  {
    forall i: nat
      ensures Bit([2], i) <==> i == 1
    {
      if i < 8 { if i == 0 {} else if i == 1 {} else if i == 2 {} else if i == 3 {}
        else if i == 4 {} else if i == 5 {} else if i == 6 {} else {} }
    }
  }

  /** The last part arrives while the one before it is missing: its acknowledgement reports it
      by a bit, from a base below the sender's. */
  lemma SkipOne(hash: Hash, w: World, m: nat) returns (w': World)
    requires Inv(hash, w) && PrefixHeld(w, m) && m + 2 == w.Count() && w.s.PartFrame(m + 1) in w.net
    ensures Leads(hash, w, w') && Inv(hash, w') && w'.s == w.s && w'.accepted == w.accepted
    ensures Ack(w.Id(), m, [2]) in w'.net
  {
    var f, st := w.s.PartFrame(m + 1), w.r.byID[w.Id()];
    var st' := st.Absorb(m + 1, f.data);
    var ack := Ack(w.Id(), m, [2]);
    SkippedState(w, m, st');
    var r' := w.r.(byID := w.r.byID[w.Id() := st']);
    assert FeedPart(hash, w.r, f, 0, r', [ack], None);
    w' := w.(r := r', net := w.net + Frames([ack]));
    assert Step(hash, w, ToReceiver(f, 0, [ack], None), w');
    StepInv(hash, w, ToReceiver(f, 0, [ack], None), w');
    LeadsByStep(hash, w, ToReceiver(f, 0, [ack], None), w');
  }

  lemma SkippedState(w: World, m: nat, st': RecvState)
    requires ReceiverInv(w) && PrefixHeld(w, m) && m + 2 == w.Count()
    requires st' == w.r.byID[w.Id()].Absorb(m + 1, w.s.parts[m + 1])
    ensures StateInv(w.s, st') && st'.count < st'.total && IsAckOf(w.Id(), st', Ack(w.Id(), m, [2]))
  {
    StateAbsorb(w.s, w.r.byID[w.Id()], m + 1);
    FullStateIsPayload(w.s, st');
    assert forall j :: 0 <= j < w.Count() ==> (st'.got[j] <==> j != m);
    assert !st'.got[m] && st'.base == m;
    SecondBit();
  }

  /** No tick ever sends anything. */
  ghost predicate Silent(s: Sender) { s.Shape() && forall now :: s.Tick(now).1 == [] }

  /** Everything below the last part is passed, and the last part is marked by its bit. */
  lemma BitSilences(s: Sender, m: nat)
    requires s.Shape() && s.base == m + 1 && m + 2 == |s.parts| == s.sentHigh && s.outcome == Pending
    ensures var s' := s.Feed(Ack(s.id, m, [2]), 0).0;
      s.Feed(Ack(s.id, m, [2]), 0).1 == [] && s'.outcome == Pending && s'.acked[s'.base] && Silent(s')
  {
    SecondBit();
    var s' := s.Feed(Ack(s.id, m, [2]), 0).0;
    forall now
      ensures s'.Tick(now).1 == []
    {
      assert s'.DueFrames(m + 2, now) == [];
      assert s'.DueFrames(m + 1, now) == [];
    }
  }

  lemma MarkLast(hash: Hash, w: World, m: nat) returns (w': World)
    requires Inv(hash, w) && m + 2 == w.Count() && w.s.base == m + 1 && w.s.outcome == Pending
    requires Ack(w.Id(), m, [2]) in w.net
    ensures Leads(hash, w, w') && w'.accepted == w.accepted
    ensures w'.s.outcome == Pending && w'.s.base < |w'.s.acked| && w'.s.acked[w'.s.base] && Silent(w'.s)
  {
    var ack := Ack(w.Id(), m, [2]);
    BitSilences(w.s, m);
    w' := w.(s := w.s.Feed(ack, 0).0, net := w.net + Frames(w.s.Feed(ack, 0).1));
    assert Step(hash, w, ToSender(ack, 0), w');
    LeadsByStep(hash, w, ToSender(ack, 0), w');
  }

  /** The start of every transfer whose receiver accepts the advertisement. */
  lemma FirstOpened(hash: Hash, w: World, adv: Frame) returns (w': World)
    requires Init(hash, w) && |w.r.byID| < MAX_INFLIGHT
    requires adv in w.net && adv.Adv? && adv.id == w.Id() && Acceptable(adv)
    ensures Leads(hash, w, w') && InStep(hash, w', 0) && w'.s == w.s && w'.net == w.net
    ensures w'.accepted == 1 && |w'.r.byID| == |w.r.byID| + 1
  {
    InitInv(hash, w);
    var s0: Sender, now: int, partSize: nat :|
      && StartsFrom(hash, s0) && w.s == s0.Filled(now)
      && w.net == {Adv(s0.id, |s0.parts|, partSize, s0.whole)} + Frames(s0.FillFrames());
    forall j: nat | j < w.s.sentHigh
      ensures w.s.PartFrame(j) in w.net
    {
      assert s0.FillFrames()[j] == s0.PartFrame(j);
    }
    w' := Reopens(hash, w, adv);
  }

  /** Every transfer of at least two parts with an acceptable advertisement, whatever its
      window, has a run that wedges: all parts but the last are acknowledged, the last one
      completes the resource but its acknowledgement and DONE are lost, the advertisement
      arrives once more, and from the new state the last part is acknowledged by its bit before
      the one below it arrives. The sender is then unfinished and no tick ever sends anything. */
  lemma {:induction false} LateAdvertisementWedges(hash: Hash, w: World, adv: Frame) returns (w': World)
    requires Init(hash, w) && |w.s.parts| >= 2 && |w.r.byID| < MAX_INFLIGHT
    requires adv in w.net && adv.Adv? && adv.id == w.Id() && Acceptable(adv)
    ensures Leads(hash, w, w') && w'.accepted == 2 && w'.s.outcome == Pending && Silent(w'.s) && !CanResend(w'.s)
  {
    var m: nat := w.Count() - 2;
    var begun := FirstOpened(hash, w, adv);
    var passed := AllButLast(hash, begun, 0);
    var complete := NextPart(hash, passed, m + 1);
    var again := Reopens(hash, complete, adv);
    assert forall j: nat | j < again.Count() :: complete.Held(j) && complete.s.PartFrame(j) in complete.net;
    var most := PartsInOrder(hash, again, 0, m);
    var skipped := SkipOne(hash, most, m);
    w' := MarkLast(hash, skipped, m);
    LeadsOn(hash, w, begun, passed);
    LeadsOn(hash, w, passed, complete);
    LeadsOn(hash, w, complete, again);
    LeadsOn(hash, w, again, most);
    LeadsOn(hash, w, most, skipped);
    LeadsOn(hash, w, skipped, w');
  }

  // ---- exactly which transfers can wedge --------------------------------------------------

  /** In every run from w an unfinished sender can resend its lowest missing part. */
  ghost predicate NeverWedges(hash: Hash, w: World) {
    forall ws: seq<World>, es: seq<Event>, i: nat ::
      Run(hash, ws, es) && ws[0] == w && i < |ws| && ws[i].s.outcome == Pending ==> CanResend(ws[i].s)
  }

  /** No advertisement of the resource on the wire can be accepted, and none was. */
  ghost predicate Unacceptable(w: World) {
    w.accepted == 0 && forall f | f in w.net && f.Adv? && f.id == w.Id() :: !Acceptable(f)
  }

  lemma UnacceptableStep(hash: Hash, w: World, e: Event, w': World)
    requires Inv(hash, w) && Unacceptable(w) && Step(hash, w, e, w')
    ensures Unacceptable(w')
  {
    if e.ToReceiver? {
      if e.f.id != w.Id() { ForeignFrame(hash, w.r, e.f, e.now, w'.r, e.replies, e.done, w.Id()); }
    } else {
      SendersSendParts(hash, w, e, w');
    }
  }

  lemma SendersSendParts(hash: Hash, w: World, e: Event, w': World)
    requires Inv(hash, w) && Step(hash, w, e, w') && !e.ToReceiver?
    ensures forall f | f in w'.net && f !in w.net :: f.Part?
  {
    if e.Tick? { TickKeepsSender(w, e.now); }
    if e.ToSender? && e.f.Ack? { FillSendsParts(w.s.Acked(e.f)); }
  }

  lemma {:induction false} NeverAccepted(hash: Hash, ws: seq<World>, es: seq<Event>, i: nat)
    requires Run(hash, ws, es) && i < |ws| && Unacceptable(ws[0])
    ensures Unacceptable(ws[i])
  {
    var step := (w: World, e: Event, w': World) => Step(hash, w, e, w');
    var inv := (w: World) => Inv(hash, w) && Unacceptable(w);
    InitInv(hash, ws[0]);
    forall w, e, w' | inv(w) && step(w, e, w')
      ensures inv(w')
    {
      StepInv(hash, w, e, w');
      UnacceptableStep(hash, w, e, w');
    }
    Throughout(step, inv, ws, es, i);
  }

  /** Only one advertisement is on the wire at the start. */
  lemma OnlyAdvertisement(hash: Hash, w: World, adv: Frame)
    requires Init(hash, w) && adv in w.net && adv.Adv?
    ensures forall f | f in w.net && f.Adv? :: f == adv
  {
    var s0: Sender, now: int, partSize: nat :|
      && StartsFrom(hash, s0) && w.s == s0.Filled(now)
      && w.net == {Adv(s0.id, |s0.parts|, partSize, s0.whole)} + Frames(s0.FillFrames());
    FillSendsParts(s0);
  }

  lemma {:induction false} SafeTransfer(hash: Hash, ws: seq<World>, es: seq<Event>, i: nat, adv: Frame)
    requires Run(hash, ws, es) && i < |ws| && ws[i].s.outcome == Pending && adv in ws[0].net && adv.Adv?
    requires |ws[0].s.parts| == 1 || !Acceptable(adv)
    ensures CanResend(ws[i].s)
  {
    RunInv(hash, ws, es, i);
    if |ws[0].s.parts| != 1 {
      OnlyAdvertisement(hash, ws[0], adv);
      NeverAccepted(hash, ws, es, i);
    }
    DeadlockFree(hash, ws, es, i);
  }

  lemma LedRun(hash: Hash, w: World, w': World)
    requires Init(hash, w) && Leads(hash, w, w') && w'.s.outcome == Pending && !CanResend(w'.s)
    ensures !NeverWedges(hash, w)
  {
    var ws: seq<World>, es: seq<Event> :| Steps(hash, ws, es) && ws[0] == w && ws[|es|] == w';
    forall i | 0 <= i < |es|
      ensures Step(hash, ws[i], es[i], ws[i + 1])
    {
      assert StepOf(hash)(ws[i], es[i], ws[i + 1]);
    }
    assert Run(hash, ws, es) && ws[|es|].s.outcome == Pending;
  }

  /** A transfer to a receiver with room never wedges, however often its advertisement is
      accepted, if and only if it has one part or its advertisement is not acceptable. */
  lemma {:induction false} NeverWedgesIff(hash: Hash, w: World, adv: Frame)
    requires Init(hash, w) && |w.r.byID| < MAX_INFLIGHT && adv in w.net && adv.Adv? && adv.id == w.Id()
    ensures NeverWedges(hash, w) <==> |w.s.parts| == 1 || !Acceptable(adv)
  {
    if |w.s.parts| == 1 || !Acceptable(adv) {
      forall ws: seq<World>, es: seq<Event>, i: nat
        | Run(hash, ws, es) && ws[0] == w && i < |ws| && ws[i].s.outcome == Pending
        ensures CanResend(ws[i].s)
      {
        SafeTransfer(hash, ws, es, i, adv);
      }
    } else {
      InitInv(hash, w);
      var w' := LateAdvertisementWedges(hash, w, adv);
      LedRun(hash, w, w');
    }
  }
}
