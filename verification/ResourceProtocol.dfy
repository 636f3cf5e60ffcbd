/** Whole runs of a resource transfer: one sender, one receiver that may serve any number of
    other resources, and a network that may lose, reorder and duplicate every frame. The
    network is the set of frames ever sent, so any of them may arrive at any time, any number
    of times. Frames are never altered: they travel inside the link's AEAD. */
module ResourceProtocol {
  import opened Basics
  import opened ResourceModel

  datatype World = World(
    s: Sender,
    r: Receiver,
    net: set<Frame>,
    accepted: nat,          // advertisements of this resource the receiver opened a state for
    delivered: seq<Bytes>)  // payloads handed to onComplete for this resource
  {
    function Id(): Id { s.id }
    function Count(): nat { |s.parts| }
    function Payload(): Bytes { Concat(s.parts) }
    predicate Open() { s.id in r.byID }

    /** The receiver holds part i of the open transfer, or has completed the resource. */
    predicate Held(i: nat) {
      delivered != [] || (Open() && i < |r.byID[s.id].got| && r.byID[s.id].got[i])
    }
  }

  datatype Event =
    | ToReceiver(f: Frame, now: int, replies: seq<Frame>, done: Option<Bytes>)
    | ToSender(f: Frame, now: int)
    | Tick(now: int)
    | Timeout

  function Frames(fs: seq<Frame>): set<Frame> { set f | f in fs }

  /** The world just after Start: the advertisement and the first window are on the wire. */
  ghost predicate Init(hash: Hash, w: World) {
    && w.r.Valid() && !w.Open() && w.Id() !in w.r.finished
    && w.accepted == 0 && w.delivered == []
    && exists s0: Sender, now: int, partSize: nat ::
         && StartsFrom(hash, s0) && w.s == s0.Filled(now)
         && w.net == {Adv(s0.id, |s0.parts|, partSize, s0.whole)} + Frames(s0.FillFrames())
  }

  ghost predicate StartsFrom(hash: Hash, s0: Sender) {
    && s0.Shape() && s0.base == 0 && s0.sentHigh == 0 && s0.outcome == Pending
    && (forall i :: 0 <= i < |s0.acked| ==> !s0.acked[i])
    && s0.whole == hash(Concat(s0.parts))
  }

  ghost predicate Step(hash: Hash, w: World, e: Event, w': World) {
    && w.r.Valid() && w.s.Shape()
    && match e {
         case ToReceiver(f, now, replies, done) =>
           && (f in w.net || f.id != w.Id())
           && FeedReceiver(hash, w.r, f, now, w'.r, replies, done)
           && w' == w.(
                r := w'.r,
                net := w.net + Frames(replies),
                accepted := w.accepted + (if f.Adv? && !w.Open() && w'.Open() then 1 else 0),
                delivered := if f.id == w.Id() && done.Some? then w.delivered + [done.value] else w.delivered)
         case ToSender(f, now) =>
           f in w.net && w' == w.(s := w.s.Feed(f, now).0, net := w.net + Frames(w.s.Feed(f, now).1))
         case Tick(now) =>
           w' == w.(s := w.s.Tick(now).0, net := w.net + Frames(w.s.Tick(now).1))
         case Timeout =>
           w' == w.(s := w.s.Finish(TimedOut))
       }
  }

  /** ws is a run driven by es. */
  ghost predicate Run(hash: Hash, ws: seq<World>, es: seq<Event>) {
    && |ws| == |es| + 1 && Init(hash, ws[0])
    && forall i :: 0 <= i < |es| ==> Step(hash, ws[i], es[i], ws[i + 1])
  }

  // ---- the safety invariant -----------------------------------------------------

  /** What a frame of this resource on the wire tells about the world. */
  ghost predicate Genuine(w: World, f: Frame) {
    f.id == w.Id() ==>
      match f {
        case Adv(_, total, _, whole) => total == w.Count() && whole == w.s.whole
        case Part(_, index, data) => index < w.Count() && data == w.s.parts[index]
        case Ack(_, base, _) =>
          && base <= w.Count()
          && (base == w.Count() ==> w.delivered != [])
          && (forall i: nat :: i < w.Count() && Covers(f, i) ==> w.Held(i))
        case Done(_) => w.delivered != []
      }
  }

  ghost predicate SenderInv(w: World) {
    && w.s.Shape() && w.s.base <= w.Count()
    && (w.s.base < w.Count() ==> w.s.sentHigh == w.s.Limit())
    && (w.s.base == w.Count() ==> w.s.outcome != Pending && w.delivered != [])
    && (w.s.outcome == Delivered ==> w.delivered != [])
    && (forall i :: 0 <= i < w.s.base ==> w.s.acked[i])
    && (forall i :: 0 <= i < w.Count() && w.s.acked[i] ==> w.Held(i))
  }

  ghost predicate ReceiverInv(w: World) {
    && w.r.Valid()
    && (w.Id() in w.r.finished ==> w.delivered != [])
    && (forall d | d in w.delivered :: d == w.Payload())
    && w.accepted == |w.delivered| + (if w.Open() then 1 else 0)
    && (w.Open() ==> StateInv(w.s, w.r.byID[w.Id()]) && w.r.byID[w.Id()].count < w.Count())
  }

  ghost predicate StateInv(s: Sender, st: RecvState) {
    && st.Valid() && st.total == |s.parts| && st.whole == s.whole
    && (forall i :: 0 <= i < st.total && st.got[i] ==> st.parts[i] == s.parts[i])
  }

  ghost predicate Inv(hash: Hash, w: World) {
    && SenderInv(w) && ReceiverInv(w)
    && (forall f | f in w.net :: Genuine(w, f))
    && (forall i: nat | i < w.Count() && w.Held(i) :: w.s.PartFrame(i) in w.net)
    && w.s.whole == hash(w.Payload())
  }

  predicate IsPartOf(s: Sender, f: Frame) {
    f.Part? && f.id == s.id && f.index < |s.parts| && f.data == s.parts[f.index]
  }

  lemma FillSendsParts(s: Sender)
    requires s.Shape()
    ensures forall f | f in s.FillFrames() :: IsPartOf(s, f)
  {
    forall f | f in s.FillFrames()
      ensures IsPartOf(s, f)
    {
      var j :| 0 <= j < |s.FillFrames()| && s.FillFrames()[j] == f;
      assert f == s.PartFrame(s.sentHigh + j);
    }
  }

  lemma {:induction false} DueSendsParts(s: Sender, i: nat, now: int)
    requires s.Shape()
    ensures forall f | f in s.DueFrames(i, now) :: IsPartOf(s, f)
    decreases |s.parts| - i
  {
    if i < Min(s.base + s.window, s.sentHigh) { DueSendsParts(s, i + 1, now); }
  }

  lemma InitInv(hash: Hash, w: World)
    requires Init(hash, w)
    ensures Inv(hash, w)
  {
    var s0: Sender, now: int, partSize: nat :|
      && StartsFrom(hash, s0) && w.s == s0.Filled(now)
      && w.net == {Adv(s0.id, |s0.parts|, partSize, s0.whole)} + Frames(s0.FillFrames());
    FillSendsParts(s0);
  }

  lemma StateAbsorb(s: Sender, st: RecvState, index: nat)
    requires StateInv(s, st) && index < st.total
    ensures StateInv(s, st.Absorb(index, s.parts[index]))
  {
    AbsorbValid(st, index, s.parts[index]);
  }

  /** A state that counts every part holds the sender's payload. */
  lemma FullStateIsPayload(s: Sender, st: RecvState)
    requires StateInv(s, st)
    ensures st.count == st.total <==> st.base == st.total
    ensures st.count <= st.total
    ensures st.count == st.total ==> st.parts == s.parts
  {
    CountBounds(st.got);
  }

  lemma AckCoversHeld(id: Id, st: RecvState, ack: Frame, i: nat)
    requires st.Valid() && IsAckOf(id, st, ack) && i < st.total && Covers(ack, i)
    ensures st.got[i]
  {
    if i >= st.base {
      assert (i - st.base) / 8 < |ack.bitmap| <= MAX_ACK_BITMAP_BYTES;
    }
  }

  lemma NewStateValid(f: Frame)
    requires f.Adv?
    ensures NewState(f).Valid()
  {
    var none := seq(f.total, _ => false);
    NothingCounted(none);
  }

  lemma FeedKeepsValid(hash: Hash, r: Receiver, f: Frame, now: int, r': Receiver, replies: seq<Frame>,
                       done: Option<Bytes>)
    requires r.Valid() && FeedReceiver(hash, r, f, now, r', replies, done)
    ensures r'.Valid()
  {
    if f.Adv? { NewStateValid(f); }
    if f.Part? && f.id in r.byID {
      var st := r.byID[f.id];
      assert st.Valid();
      if f.index < st.total { AbsorbValid(st, f.index, f.data); }
    }
  }

  lemma MemoryOnlyForgets(finished: map<Id, int>, id: Id, now: int, finished': map<Id, int>, other: Id)
    requires Remembered(finished, id, now, finished') && other != id
    ensures other in finished' ==> other in finished
  {
  }

  /** A frame of another resource can at most make the receiver forget a completed one. */
  lemma ForeignFrame(hash: Hash, r: Receiver, f: Frame, now: int, r': Receiver, replies: seq<Frame>,
                     done: Option<Bytes>, id: Id)
    requires r.Valid() && FeedReceiver(hash, r, f, now, r', replies, done) && f.id != id
    ensures id in r'.byID <==> id in r.byID
    ensures id in r.byID ==> r'.byID[id] == r.byID[id]
    ensures id in r'.finished ==> id in r.finished
    ensures forall g | g in replies :: g.id != id
  {
    if f.Part? && f.id in r.byID && done.Some? { MemoryOnlyForgets(r.finished, f.id, now, r'.finished, id); }
  }

  lemma RepliesToPart(hash: Hash, r: Receiver, f: Frame, now: int, r': Receiver, replies: seq<Frame>,
                      done: Option<Bytes>)
    requires f.Part? && r.Valid() && FeedPart(hash, r, f, now, r', replies, done)
    ensures f.id !in r.byID ==> forall g | g in replies :: g == Done(f.id)
    ensures f.id in r.byID && f.index < |r.byID[f.id].got| == |r.byID[f.id].parts| == r.byID[f.id].total ==>
              && |replies| > 0 && IsAckOf(f.id, r.byID[f.id].Absorb(f.index, f.data), replies[0])
              && forall g | g in replies :: g == replies[0] || (g == Done(f.id) && done.Some?)
  {
  }

  /** Facts only grow: what a frame on the wire claims stays true. */
  lemma GenuineStays(w: World, w': World, f: Frame)
    requires Genuine(w, f) && w'.Id() == w.Id() && w'.s.parts == w.s.parts && w'.s.whole == w.s.whole
    requires w.delivered != [] ==> w'.delivered != []
    requires forall i: nat :: w.Held(i) ==> w'.Held(i)
    ensures Genuine(w', f)
  {
  }

  /** What every delivery to the receiver achieves. */
  ghost predicate Grows(w: World, e: Event, w': World)
    requires e.ToReceiver?
  {
    && ReceiverInv(w')
    && (forall i: nat :: w.Held(i) ==> w'.Held(i))
    && (forall f | f in e.replies :: Genuine(w', f))
    && (w.delivered != [] ==> w'.delivered != [])
  }

  /** A genuine part of the open transfer: it is absorbed, and the last missing one completes
      the resource with exactly the sender's payload. */
  lemma PartOutcome(hash: Hash, s: Sender, r: Receiver, f: Frame, now: int, r': Receiver,
                    replies: seq<Frame>, done: Option<Bytes>)
    requires f.Part? && r.Valid() && FeedPart(hash, r, f, now, r', replies, done)
    requires s.id in r.byID && StateInv(s, r.byID[s.id]) && s.whole == hash(Concat(s.parts)) && IsPartOf(s, f)
    ensures var st := r.byID[s.id].Absorb(f.index, f.data);
      && StateInv(s, st)
      && (st.count == st.total ==> done == Some(Concat(s.parts)) && s.id !in r'.byID)
      && (st.count < st.total ==> done == None && s.id in r'.byID && r'.byID[s.id] == st && r'.finished == r.finished)
      && st.count <= st.total && (st.count == st.total <==> st.base == st.total)
  {
    StateAbsorb(s, r.byID[s.id], f.index);
    FullStateIsPayload(s, r.byID[s.id].Absorb(f.index, f.data));
  }

  predicate PartForOpen(w: World, e: Event) { e.ToReceiver? && e.f.Part? && e.f.id == w.Id() && w.Open() }

  /** A part of the open transfer arrives. */
  lemma PartArrives(hash: Hash, w: World, e: Event, w': World)
    requires Inv(hash, w) && Step(hash, w, e, w')
    ensures PartForOpen(w, e) ==>
            Grows(w, e, w') && forall i: nat | i < w.Count() && w'.Held(i) :: w.s.PartFrame(i) in w.net
  {
    if PartForOpen(w, e) {
      var f := e.f;
      assert Genuine(w, f) && f == w.s.PartFrame(f.index);
      FeedKeepsValid(hash, w.r, f, e.now, w'.r, e.replies, e.done);
      PartOutcome(hash, w.s, w.r, f, e.now, w'.r, e.replies, e.done);
      RepliesToPart(hash, w.r, f, e.now, w'.r, e.replies, e.done);
      PartGrows(w, e, w', w.r.byID[w.Id()].Absorb(f.index, f.data));
    }
  }

  lemma PartGrows(w: World, e: Event, w': World, st: RecvState)
    requires ReceiverInv(w) && w'.r.Valid() && e.ToReceiver? && IsPartOf(w.s, e.f) && w.Open() && w'.s == w.s
    requires st == w.r.byID[w.Id()].Absorb(e.f.index, e.f.data) && StateInv(w.s, st)
    requires st.count <= st.total && (st.count == st.total <==> st.base == st.total)
    requires st.count == st.total ==> !w'.Open() && w'.delivered == w.delivered + [w.Payload()]
    requires st.count < st.total ==>
               w'.Open() && w'.r.byID[w.Id()] == st && w'.r.finished == w.r.finished && w'.delivered == w.delivered
    requires w'.accepted == w.accepted
    requires |e.replies| > 0 && IsAckOf(w.Id(), st, e.replies[0])
    requires forall g | g in e.replies :: g == e.replies[0] || (g == Done(w.Id()) && w'.delivered != [])
    requires forall i: nat | i < w.Count() && w.Held(i) :: w.s.PartFrame(i) in w.net
    requires w.s.PartFrame(e.f.index) in w.net
    ensures Grows(w, e, w') && w'.Held(e.f.index)
    ensures forall i: nat | i < w.Count() && w'.Held(i) :: w.s.PartFrame(i) in w.net
  {
    assert ReceiverInv(w');
    assert forall i :: 0 <= i < st.total && st.count == st.total ==> st.got[i];
    forall i: nat
      ensures w.Held(i) ==> w'.Held(i)
      ensures i < w.Count() && Covers(e.replies[0], i) ==> w'.Held(i)
      ensures i < w.Count() && w'.Held(i) ==> w.s.PartFrame(i) in w.net
    {
      if i < w.Count() && Covers(e.replies[0], i) { AckCoversHeld(w.Id(), st, e.replies[0], i); }
      if i < w.Count() && w'.Held(i) { assert w.Held(i) || i == e.f.index; }
    }
    assert Genuine(w', e.replies[0]);
  }

  lemma ForeignArrives(hash: Hash, w: World, e: Event, w': World)
    requires Inv(hash, w) && e.ToReceiver? && Step(hash, w, e, w') && e.f.id != w.Id()
    ensures Grows(w, e, w') && w'.delivered == w.delivered
    ensures forall i: nat | i < w.Count() && w'.Held(i) :: w.Held(i)
  {
    FeedKeepsValid(hash, w.r, e.f, e.now, w'.r, e.replies, e.done);
    ForeignFrame(hash, w.r, e.f, e.now, w'.r, e.replies, e.done, w.Id());
  }

  lemma OtherArrives(hash: Hash, w: World, e: Event, w': World)
    requires Inv(hash, w) && e.ToReceiver? && Step(hash, w, e, w') && e.f.id == w.Id() && !(e.f.Part? && w.Open())
    ensures Grows(w, e, w') && w'.delivered == w.delivered
    ensures forall i: nat | i < w.Count() && w'.Held(i) :: w.Held(i)
  {
    FeedKeepsValid(hash, w.r, e.f, e.now, w'.r, e.replies, e.done);
    assert Genuine(w, e.f);
  }

  lemma ReceiverGrows(hash: Hash, w: World, e: Event, w': World)
    requires Inv(hash, w) && Step(hash, w, e, w')
    ensures e.ToReceiver? ==>
            Grows(w, e, w') && forall i: nat | i < w.Count() && w'.Held(i) :: w.s.PartFrame(i) in w.net
  {
    if e.ToReceiver? {
      if e.f.id != w.Id() {
        ForeignArrives(hash, w, e, w');
      } else if e.f.Part? && w.Open() {
        PartArrives(hash, w, e, w');
      } else {
        OtherArrives(hash, w, e, w');
      }
    }
  }

  /** A step that leaves the sender alone and only adds to what the receiver has. */
  lemma GrowthKeeps(hash: Hash, w: World, e: Event, w': World)
    requires Inv(hash, w) && e.ToReceiver? && Grows(w, e, w') && w'.s == w.s && w'.net == w.net + Frames(e.replies)
    requires forall i: nat | i < w.Count() && w'.Held(i) :: w.s.PartFrame(i) in w.net
    ensures Inv(hash, w')
  {
    NetStays(w, w');
  }

  lemma ReceiverStepInv(hash: Hash, w: World, e: Event, w': World)
    requires Inv(hash, w) && Step(hash, w, e, w')
    ensures e.ToReceiver? ==> Inv(hash, w') && Grows(w, e, w')
  {
    if e.ToReceiver? {
      ReceiverGrows(hash, w, e, w');
      GrowthKeeps(hash, w, e, w');
    }
  }

  lemma NetStays(w: World, w': World)
    requires forall f | f in w.net :: Genuine(w, f)
    requires w'.Id() == w.Id() && w'.s.parts == w.s.parts && w'.s.whole == w.s.whole
    requires w.delivered != [] ==> w'.delivered != []
    requires forall i: nat :: w.Held(i) ==> w'.Held(i)
    ensures forall f | f in w.net :: Genuine(w', f)
  {
    forall f | f in w.net
      ensures Genuine(w', f)
    {
      GenuineStays(w, w', f);
    }
  }

  lemma AckKeepsSender(w: World, f: Frame, now: int)
    requires SenderInv(w) && f.Ack? && f.id == w.Id() && Genuine(w, f)
    ensures SenderInv(w.(s := w.s.Feed(f, now).0))
    ensures w.s.Feed(f, now).0.base >= w.s.base
  {
    var s := w.s.Acked(f);
    assert s.Shape() && s.base <= w.Count();
    assert forall i :: 0 <= i < s.base ==> s.acked[i];
    assert forall i :: 0 <= i < w.Count() && s.acked[i] ==> w.Held(i);
  }

  /** A sender step that keeps the sender invariant and sends only parts keeps the invariant. */
  lemma SenderSends(hash: Hash, w: World, s': Sender, out: seq<Frame>, w': World)
    requires Inv(hash, w) && w' == w.(s := s', net := w.net + Frames(out)) && SenderInv(w')
    requires s'.id == w.s.id && s'.parts == w.s.parts && s'.whole == w.s.whole
    requires forall f | f in out :: IsPartOf(s', f)
    ensures Inv(hash, w')
  {
    assert forall i: nat :: w'.Held(i) <==> w.Held(i);
    NetStays(w, w');
    forall i: nat | i < w.Count() && w'.Held(i)
      ensures w'.s.PartFrame(i) in w'.net
    {
      assert w.s.PartFrame(i) in w.net && w'.s.PartFrame(i) == w.s.PartFrame(i);
    }
  }

  lemma TickKeepsSender(w: World, now: int)
    requires SenderInv(w)
    ensures SenderInv(w.(s := w.s.Tick(now).0))
    ensures forall f | f in w.s.Tick(now).1 :: IsPartOf(w.s, f)
  {
    FillSendsParts(w.s.Resent(now));
    DueSendsParts(w.s, w.s.base, now);
  }

  lemma ControlInv(hash: Hash, w: World, f: Frame, now: int, w': World)
    requires Inv(hash, w) && f in w.net && f.id == w.Id() && (f.Ack? || f.Done?)
    requires w' == w.(s := w.s.Feed(f, now).0, net := w.net + Frames(w.s.Feed(f, now).1))
    ensures Inv(hash, w') && w'.s.base >= w.s.base
  {
    assert Genuine(w, f);
    if f.Ack? {
      AckKeepsSender(w, f, now);
      FillSendsParts(w.s.Acked(f));
    }
    SenderSends(hash, w, w.s.Feed(f, now).0, w.s.Feed(f, now).1, w');
  }

  lemma TickInv(hash: Hash, w: World, now: int, w': World)
    requires Inv(hash, w) && w' == w.(s := w.s.Tick(now).0, net := w.net + Frames(w.s.Tick(now).1))
    ensures Inv(hash, w') && w'.s.base >= w.s.base
  {
    TickKeepsSender(w, now);
    SenderSends(hash, w, w.s.Tick(now).0, w.s.Tick(now).1, w');
  }

  lemma SenderStepInv(hash: Hash, w: World, e: Event, w': World)
    requires Inv(hash, w) && !e.ToReceiver? && Step(hash, w, e, w')
    ensures Inv(hash, w') && w'.s.base >= w.s.base
  {
    assert w.net == w.net + Frames([]);
    if e.Tick? {
      TickInv(hash, w, e.now, w');
    } else if e.ToSender? && e.f.id == w.Id() && (e.f.Ack? || e.f.Done?) {
      ControlInv(hash, w, e.f, e.now, w');
    } else {
      SenderSends(hash, w, w'.s, [], w');
    }
  }

  // ---- safety over whole runs -----------------------------------------------------

  lemma {:induction false} StepInv(hash: Hash, w: World, e: Event, w': World)
    requires Inv(hash, w) && Step(hash, w, e, w')
    ensures Inv(hash, w') && w.accepted <= w'.accepted && w.s.base <= w'.s.base
    ensures w'.Id() == w.Id() && w'.s.parts == w.s.parts
    ensures forall i: nat :: w.Held(i) ==> w'.Held(i)
  {
    if e.ToReceiver? { ReceiverStepInv(hash, w, e, w'); } else { SenderStepInv(hash, w, e, w'); }
  }

  lemma {:induction false} RunInv(hash: Hash, ws: seq<World>, es: seq<Event>, i: nat)
    requires Run(hash, ws, es) && i < |ws|
    ensures Inv(hash, ws[i]) && ws[i].Id() == ws[0].Id() && ws[i].s.parts == ws[0].s.parts
  {
    if i == 0 {
      InitInv(hash, ws[0]);
    } else {
      RunInv(hash, ws, es, i - 1);
      StepInv(hash, ws[i - 1], es[i - 1], ws[i]);
    }
  }

  /** In every run, whatever is lost, reordered or duplicated: a sender that finishes without
      an error has had its exact payload delivered; every acknowledged part is held; every
      delivery carries the sender's bytes; and an advertisement accepted by the receiver is
      either still open or accounts for exactly one delivery. */
  lemma {:induction false} Safety(hash: Hash, ws: seq<World>, es: seq<Event>, i: nat)
    requires Run(hash, ws, es) && i < |ws|
    ensures var w := ws[i];
      && (w.s.outcome == Delivered ==> Concat(ws[0].s.parts) in w.delivered)
      && (forall d | d in w.delivered :: d == Concat(ws[0].s.parts))
      && (forall j :: 0 <= j < |w.s.acked| && w.s.acked[j] ==> w.Held(j))
      && w.accepted == |w.delivered| + (if w.Open() then 1 else 0)
  {
    RunInv(hash, ws, es, i);
    if ws[i].delivered != [] { assert ws[i].delivered[0] in ws[i].delivered; }
  }

  /** The advertisement is sent once: until the receiver has accepted it nothing is held,
      acknowledged or delivered, and the sender cannot succeed. */
  lemma {:induction false} NothingWithoutAdvertisement(hash: Hash, ws: seq<World>, es: seq<Event>, i: nat)
    requires Run(hash, ws, es) && i < |ws| && ws[i].accepted == 0
    ensures var w := ws[i];
      && w.delivered == [] && w.s.outcome != Delivered && w.s.base == 0
      && (forall j: nat :: !w.Held(j)) && (forall j :: 0 <= j < |w.s.acked| ==> !w.s.acked[j])
  {
    RunInv(hash, ws, es, i);
    assert !ws[i].s.acked[0];
  }

  // ---- progress when the advertisement is accepted once ---------------------------

  predicate IsAck(w: World, f: Frame) { f in w.net && f.Ack? && f.id == w.Id() }

  /** b says that every part is in that a says is in. */
  ghost predicate Included(n: nat, a: Frame, b: Frame)
    requires a.Ack? && b.Ack?
  {
    forall i: nat :: i < n && Covers(a, i) ==> Covers(b, i)
  }

  /** While the advertisement is accepted once, acknowledgements are snapshots of one growing
      set: any two are ordered by inclusion, and none covers another's base without reporting
      a higher base itself. */
  ghost predicate Chained(w: World) {
    && (forall a, b | IsAck(w, a) && IsAck(w, b) :: Precedes(w.Count(), a, b))
    && (forall a, b | IsAck(w, a) && IsAck(w, b) :: Included(w.Count(), a, b) || Included(w.Count(), b, a))
    && (forall a | IsAck(w, a) :: |a.bitmap| <= MAX_ACK_BITMAP_BYTES)
    && (w.s.base > 0 ==> exists a :: IsAck(w, a) && a.base == w.s.base)
    && (forall i :: 0 <= i < |w.s.acked| && w.s.acked[i] ==>
          exists a :: IsAck(w, a) && a.base <= w.s.base && Covers(a, i))
  }

  lemma InitChained(hash: Hash, w: World)
    requires Init(hash, w)
    ensures Chained(w)
  {
    InitInv(hash, w);
    var s0: Sender, now: int, partSize: nat :|
      && StartsFrom(hash, s0) && w.s == s0.Filled(now)
      && w.net == {Adv(s0.id, |s0.parts|, partSize, s0.whole)} + Frames(s0.FillFrames());
    FillSendsParts(s0);
    forall f | f in w.net
      ensures !f.Ack?
    {
    }
  }

  /** The new snapshot against every older acknowledgement. */
  lemma SnapshotChains(w: World, st: RecvState, k: Frame, a: Frame)
    requires StateInv(w.s, st) && IsAckOf(w.Id(), st, k)
    requires a == k || (a.Ack? && forall i: nat :: i < w.Count() && Covers(a, i) ==> st.got[i])
    ensures Precedes(w.Count(), a, k) && Precedes(w.Count(), k, a)
  {
    if a.base < w.Count() && Covers(k, a.base) { AckCoversHeld(w.Id(), st, k, a.base); }
    if k.base < w.Count() && Covers(k, k.base) { AckCoversHeld(w.Id(), st, k, k.base); }
  }

  ghost predicate Precedes(n: nat, a: Frame, b: Frame)
    requires a.Ack? && b.Ack?
  {
    a.base < n && Covers(b, a.base) ==> a.base < b.base
  }

  /** The new snapshot covers everything an older acknowledgement covers, although it reports
      no more than the 256 parts above its base. */
  lemma SnapshotIncludes(w: World, st: RecvState, k: Frame, a: Frame)
    requires StateInv(w.s, st) && IsAckOf(w.Id(), st, k) && a.Ack? && a.base <= w.Count()
    requires |a.bitmap| <= MAX_ACK_BITMAP_BYTES && forall i: nat :: i < w.Count() && Covers(a, i) ==> st.got[i]
    ensures Included(w.Count(), a, k)
  {
    assert a.base <= k.base by {
      if k.base < a.base { assert Covers(a, k.base); }
    }
    forall i: nat | i < w.Count() && Covers(a, i)
      ensures Covers(k, i)
    {
      if i >= k.base {
        assert (i - a.base) / 8 < MAX_ACK_BITMAP_BYTES;
        assert Bit(k.bitmap, i - k.base);
      }
    }
  }

  lemma ChainExtends(w: World, w': World, k: Frame)
    requires Chained(w) && w'.s == w.s && w.net <= w'.net && k.Ack? && |k.bitmap| <= MAX_ACK_BITMAP_BYTES
    requires forall a | IsAck(w', a) :: a == k || IsAck(w, a)
    requires forall a | IsAck(w', a) ::
             Precedes(w.Count(), a, k) && Precedes(w.Count(), k, a) && Included(w.Count(), a, k)
    ensures Chained(w')
  {
    OldAcksRemain(w, w');
    forall a, b | IsAck(w', a) && IsAck(w', b)
      ensures Precedes(w.Count(), a, b) && (Included(w.Count(), a, b) || Included(w.Count(), b, a))
    {
      assert Precedes(w.Count(), a, k) && Precedes(w.Count(), k, b) && Included(w.Count(), a, k) &&
             Included(w.Count(), b, k);
      if a != k && b != k { assert IsAck(w, a) && IsAck(w, b); }
    }
  }

  lemma PartChains(hash: Hash, w: World, e: Event, w': World)
    requires Inv(hash, w) && Step(hash, w, e, w') && w.accepted <= 1 && Chained(w)
    ensures PartForOpen(w, e) ==> Chained(w')
  {
    if PartForOpen(w, e) {
      var f := e.f;
      assert Genuine(w, f);
      var st := w.r.byID[f.id];
      RepliesToPart(hash, w.r, f, e.now, w'.r, e.replies, e.done);
      StateAbsorb(w.s, st, f.index);
      var st' := st.Absorb(f.index, f.data);
      var k := e.replies[0];
      assert w.delivered == [];
      forall a | IsAck(w', a)
        ensures Precedes(w.Count(), a, k) && Precedes(w.Count(), k, a) && Included(w.Count(), a, k)
        ensures a == k || IsAck(w, a)
      {
        if a in w.net {
          assert Genuine(w, a) && IsAck(w, a);
          assert forall i: nat :: i < w.Count() && Covers(a, i) ==> st'.got[i];
          SnapshotIncludes(w, st', k, a);
        } else {
          assert a == k;
        }
        SnapshotChains(w, st', k, a);
      }
      ChainExtends(w, w', k);
    }
  }

  lemma OldAcksRemain(w: World, w': World)
    requires Chained(w) && w'.s == w.s && w.net <= w'.net
    ensures w'.s.base > 0 ==> exists a :: IsAck(w', a) && a.base == w'.s.base
    ensures forall i :: 0 <= i < |w'.s.acked| && w'.s.acked[i] ==>
              exists a :: IsAck(w', a) && a.base <= w'.s.base && Covers(a, i)
  {
    if w.s.base > 0 {
      var a :| IsAck(w, a) && a.base == w.s.base;
      assert IsAck(w', a);
    }
    forall i | 0 <= i < |w.s.acked| && w.s.acked[i]
      ensures exists a :: IsAck(w', a) && a.base <= w'.s.base && Covers(a, i)
    {
      var a :| IsAck(w, a) && a.base <= w.s.base && Covers(a, i);
      assert IsAck(w', a);
    }
  }

  lemma SameAcksChained(w: World, w': World)
    requires Chained(w) && w'.s.id == w.s.id && w'.s.parts == w.s.parts
    requires forall f | f in w.net :: f in w'.net
    requires forall f | f in w'.net && f.Ack? && f.id == w.Id() :: f in w.net
    requires w'.s.base == w.s.base && w'.s.acked == w.s.acked
    ensures Chained(w')
  {
    assert forall a :: IsAck(w', a) <==> IsAck(w, a);
  }

  lemma AckChains(hash: Hash, w: World, f: Frame, now: int, w': World)
    requires Inv(hash, w) && Chained(w) && IsAck(w, f) && Step(hash, w, ToSender(f, now), w')
    ensures Chained(w')
  {
    var s := w.s.Acked(f);
    FillSendsParts(s);
    forall a
      ensures IsAck(w', a) <==> IsAck(w, a)
    {
    }
    assert w'.s.base == s.base && w'.s.acked == s.acked;
    forall i | 0 <= i < |s.acked| && s.acked[i]
      ensures exists a :: IsAck(w', a) && a.base <= s.base && Covers(a, i)
    {
      if w.s.acked[i] {
        var a :| IsAck(w, a) && a.base <= w.s.base && Covers(a, i);
        assert IsAck(w', a);
      } else {
        assert IsAck(w', f) && Covers(f, i);
      }
    }
    if s.base == f.base { assert IsAck(w', f); }
    else {
      var a :| IsAck(w, a) && a.base == w.s.base;
      assert IsAck(w', a);
    }
  }

  lemma StepChained(hash: Hash, w: World, e: Event, w': World)
    requires Inv(hash, w) && Step(hash, w, e, w') && Chained(w) && w.accepted <= 1
    ensures Chained(w')
  {
    match e {
      case ToReceiver(f, now, replies, done) =>
        if f.Part? && f.id == w.Id() && w.Open() {
          PartChains(hash, w, e, w');
        } else {
          if f.id != w.Id() { ForeignFrame(hash, w.r, f, now, w'.r, replies, done, w.Id()); }
          SameAcksChained(w, w');
        }
      case ToSender(f, now) =>
        if f.Ack? && f.id == w.Id() { AckChains(hash, w, f, now, w'); }
        else { SameAcksChained(w, w'); }
      case Tick(now) =>
        FillSendsParts(w.s.Resent(now));
        DueSendsParts(w.s, w.s.base, now);
        SameAcksChained(w, w');
      case Timeout =>
    }
  }

  ghost predicate OnceChained(hash: Hash, w: World) { Inv(hash, w) && (w.accepted <= 1 ==> Chained(w)) }

  lemma OnceChainedStep(hash: Hash, w: World, e: Event, w': World)
    requires OnceChained(hash, w) && Step(hash, w, e, w')
    ensures OnceChained(hash, w')
  {
    StepInv(hash, w, e, w');
    if w'.accepted <= 1 { StepChained(hash, w, e, w'); }
  }

  lemma {:induction false} RunChained(hash: Hash, ws: seq<World>, es: seq<Event>, i: nat)
    requires Run(hash, ws, es) && i < |ws| && ws[i].accepted <= 1
    ensures Chained(ws[i])
  {
    var step := (w: World, e: Event, w': World) => Step(hash, w, e, w');
    var inv := (w: World) => OnceChained(hash, w);
    InitInv(hash, ws[0]);
    InitChained(hash, ws[0]);
    forall w, e, w' | inv(w) && step(w, e, w')
      ensures inv(w')
    {
      OnceChainedStep(hash, w, e, w');
    }
    Throughout(step, inv, ws, es, i);
  }

  lemma BaseUnacked(w: World)
    requires Chained(w) && SenderInv(w) && 0 < w.s.base < w.Count()
    ensures !w.s.acked[w.s.base]
  {
    var b :| IsAck(w, b) && b.base == w.s.base;
    forall a | IsAck(w, a) && a.base <= w.s.base
      ensures !Covers(a, w.s.base)
    {
      assert Precedes(w.Count(), b, a);
    }
  }

  // ---- the first part, however often the advertisement is accepted -------------------

  /** No acknowledgement covers part 0 without a base above it, so neither does the sender. */
  ghost predicate FirstInv(w: World) {
    && (forall a | IsAck(w, a) :: Covers(a, 0) ==> 0 < a.base)
    && (|w.s.acked| > 0 && w.s.acked[0] ==> 0 < w.s.base)
  }

  lemma SnapshotFirst(w: World, st: RecvState, k: Frame)
    requires StateInv(w.s, st) && IsAckOf(w.Id(), st, k) && 0 < w.Count()
    ensures Covers(k, 0) ==> 0 < k.base
  {
    if Covers(k, 0) { AckCoversHeld(w.Id(), st, k, 0); }
  }

  /** The acknowledgements a delivery to the receiver adds are snapshots of the open state. */
  lemma NewAcks(hash: Hash, w: World, e: Event, w': World, a: Frame)
    requires Inv(hash, w) && Step(hash, w, e, w') && IsAck(w', a) && !IsAck(w, a)
    ensures Covers(a, 0) ==> 0 < a.base
  {
    if e.ToReceiver? {
      if e.f.id != w.Id() {
        ForeignFrame(hash, w.r, e.f, e.now, w'.r, e.replies, e.done, w.Id());
      } else {
        assert Genuine(w, e.f) && PartForOpen(w, e);
        RepliesToPart(hash, w.r, e.f, e.now, w'.r, e.replies, e.done);
        StateAbsorb(w.s, w.r.byID[w.Id()], e.f.index);
        SnapshotFirst(w, w.r.byID[w.Id()].Absorb(e.f.index, e.f.data), a);
      }
    } else {
      SendersSendNoAcks(hash, w, e, w');
    }
  }

  lemma SendersSendNoAcks(hash: Hash, w: World, e: Event, w': World)
    requires Inv(hash, w) && Step(hash, w, e, w') && !e.ToReceiver?
    ensures forall a | IsAck(w', a) :: IsAck(w, a)
  {
    if e.Tick? { TickKeepsSender(w, e.now); }
    if e.ToSender? && e.f.Ack? { FillSendsParts(w.s.Acked(e.f)); }
  }

  lemma FirstStep(hash: Hash, w: World, e: Event, w': World)
    requires Inv(hash, w) && FirstInv(w) && Step(hash, w, e, w')
    ensures FirstInv(w')
  {
    forall a | IsAck(w', a)
      ensures Covers(a, 0) ==> 0 < a.base
    {
      if !IsAck(w, a) { NewAcks(hash, w, e, w', a); }
    }
    if e.ToSender? && e.f.Ack? && e.f.id == w.Id() { assert IsAck(w, e.f); }
  }

  lemma {:induction false} RunFirst(hash: Hash, ws: seq<World>, es: seq<Event>, i: nat)
    requires Run(hash, ws, es) && i < |ws|
    ensures FirstInv(ws[i])
  {
    var step := (w: World, e: Event, w': World) => Step(hash, w, e, w');
    var inv := (w: World) => Inv(hash, w) && FirstInv(w);
    InitInv(hash, ws[0]);
    InitChained(hash, ws[0]);
    forall w, e, w' | inv(w) && step(w, e, w')
      ensures inv(w')
    {
      StepInv(hash, w, e, w');
      FirstStep(hash, w, e, w');
    }
    Throughout(step, inv, ws, es, i);
  }

  // ---- deadlock freedom -----------------------------------------------------------------

  /** The lowest part the sender counts as missing is sent, inside the window and not
      acknowledged, and every tick at least one rto after it was last sent sends it again. */
  ghost predicate CanResend(s: Sender) {
    && s.Shape() && s.base < s.sentHigh <= Min(|s.parts|, s.base + s.window) && !s.acked[s.base]
    && (forall now :: now - s.sentAt[s.base] >= s.rto ==> s.PartFrame(s.base) in s.Tick(now).1)
  }

  lemma UnackedIsResent(w: World)
    requires SenderInv(w) && w.s.base < w.Count() && !w.s.acked[w.s.base]
    ensures CanResend(w.s)
  {
    forall now | now - w.s.sentAt[w.s.base] >= w.s.rto
      ensures w.s.PartFrame(w.s.base) in w.s.Tick(now).1
    {
      assert w.s.Due(w.s.base, now);
      assert w.s.DueFrames(w.s.base, now)[0] == w.s.PartFrame(w.s.base);
    }
  }

  /** Deadlock freedom: an unfinished sender can always resend its lowest missing part, however
      acknowledgements were lost, reordered or duplicated, while the advertisement was accepted
      at most once, and whatever was accepted while nothing is acknowledged in full. */
  lemma {:induction false} DeadlockFree(hash: Hash, ws: seq<World>, es: seq<Event>, i: nat)
    requires Run(hash, ws, es) && i < |ws| && ws[i].s.outcome == Pending
    requires ws[i].accepted <= 1 || ws[i].s.base == 0
    ensures CanResend(ws[i].s)
  {
    RunInv(hash, ws, es, i);
    if ws[i].s.base == 0 {
      RunFirst(hash, ws, es, i);
    } else {
      RunChained(hash, ws, es, i);
      BaseUnacked(ws[i]);
    }
    UnackedIsResent(ws[i]);
  }

  /** Nothing of what w has reached is undone in w'. */
  ghost predicate Later(w: World, w': World) {
    && w.s.base <= w'.s.base && w.accepted <= w'.accepted
    && (w.s.outcome != Pending ==> w'.s.outcome == w.s.outcome)
    && |w'.s.acked| == |w.s.acked| && (forall k :: 0 <= k < |w.s.acked| && w.s.acked[k] ==> w'.s.acked[k])
    && (forall k: nat :: w.Held(k) ==> w'.Held(k))
  }

  lemma StepLater(hash: Hash, w: World, e: Event, w': World)
    requires Inv(hash, w) && Step(hash, w, e, w')
    ensures Later(w, w')
  {
    StepInv(hash, w, e, w');
  }

  lemma LaterTransitive(w: World, v: World, u: World)
    requires Later(w, v) && Later(v, u)
    ensures Later(w, u)
  {
  }

  lemma {:induction false} Monotone(hash: Hash, ws: seq<World>, es: seq<Event>, i: nat, j: nat)
    requires Run(hash, ws, es) && i <= j < |ws|
    ensures Later(ws[i], ws[j])
  {
    var step := (w: World, e: Event, w': World) => Step(hash, w, e, w');
    var inv := (w: World) => Inv(hash, w);
    var rel := (w: World, w': World) => Later(w, w');
    InitInv(hash, ws[0]);
    forall w, e, w' | inv(w) && step(w, e, w')
      ensures inv(w') && rel(w, w')
    {
      StepInv(hash, w, e, w');
      StepLater(hash, w, e, w');
    }
    forall w, v, u | rel(w, v) && rel(v, u)
      ensures rel(w, u)
    {
      LaterTransitive(w, v, u);
    }
    AlongRun(step, inv, rel, ws, es, i, j);
  }

  /** A round: the part that was the sender's base at time a reaches the receiver at time
      b, and one of the frames that delivery produced reaches the sender at time c. Anything
      may happen in between and everything else may be lost. */
  ghost predicate Round(ws: seq<World>, es: seq<Event>, a: nat, b: nat, c: nat)
    requires |ws| == |es| + 1
  {
    && a <= b < c < |es|
    && es[b].ToReceiver? && es[b].f.Part? && es[b].f.id == ws[a].Id() && es[b].f.index == ws[a].s.base
    && es[c].ToSender? && es[c].f in es[b].replies
  }

  /** The acknowledgement for part base reports a higher base once everything below is held. */
  lemma ReplyPassesBase(s: Sender, st: RecvState, base: nat, ack: Frame)
    requires StateInv(s, st) && base < st.total
    requires forall i: nat :: i < base ==> st.got[i]
    requires IsAckOf(s.id, st.Absorb(base, s.parts[base]), ack)
    ensures ack.base > base
  {
    StateAbsorb(s, st, base);
    var st' := st.Absorb(base, s.parts[base]);
    assert forall i :: 0 <= i <= base ==> st'.got[i];
  }

  lemma ReplyEffect(s: Sender, g: Frame, now: int)
    requires s.Shape() && g.id == s.id
    ensures g.Done? ==> s.Feed(g, now).0.outcome != Pending
    ensures g.Ack? ==> s.Feed(g, now).0.base >= g.base
  {
  }

  /** Each round raises the sender's base or finishes it. */
  lemma {:induction false} RoundProgress(hash: Hash, ws: seq<World>, es: seq<Event>, a: nat, b: nat, c: nat)
    requires Run(hash, ws, es) && Round(ws, es, a, b, c) && ws[c + 1].accepted <= 1
    ensures ws[c + 1].s.outcome != Pending || ws[c + 1].s.base > ws[a].s.base
  {
    var w, e, g := ws[b], es[b], es[c].f;
    RunInv(hash, ws, es, a);
    RunInv(hash, ws, es, b);
    RunInv(hash, ws, es, c);
    Monotone(hash, ws, es, a, b);
    Monotone(hash, ws, es, b, c + 1);
    assert Step(hash, w, e, ws[b + 1]) && Step(hash, ws[c], es[c], ws[c + 1]);
    RepliesToPart(hash, w.r, e.f, e.now, ws[b + 1].r, e.replies, e.done);
    if w.Open() {
      assert Genuine(w, e.f);
      var st := w.r.byID[w.Id()];
      assert w.delivered == [];
      forall i: nat | i < ws[a].s.base
        ensures st.got[i]
      {
        assert ws[a].Held(i);
      }
      ReplyPassesBase(w.s, st, ws[a].s.base, e.replies[0]);
    }
    ReplyEffect(ws[c].s, g, es[c].now);
  }

  /** Rounds that follow each other. */
  ghost predicate Disjoint(ws: seq<World>, es: seq<Event>, rounds: seq<(nat, nat, nat)>)
    requires |ws| == |es| + 1
  {
    && (forall k :: 0 <= k < |rounds| ==> Round(ws, es, rounds[k].0, rounds[k].1, rounds[k].2))
    && (forall k :: 0 < k < |rounds| ==> rounds[k - 1].2 < rounds[k].0)
  }

  /** After k disjoint rounds base has passed k parts, or the sender is done. */
  lemma {:induction false} RoundsRaiseBase(hash: Hash, ws: seq<World>, es: seq<Event>, rounds: seq<(nat, nat, nat)>)
    requires Run(hash, ws, es) && ws[|es|].accepted <= 1 && Disjoint(ws, es, rounds) && rounds != []
    ensures var c := rounds[|rounds| - 1].2;
      c < |es| && (ws[c + 1].s.outcome != Pending || ws[c + 1].s.base >= |rounds|)
  {
    var last := |rounds| - 1;
    var (a, b, c) := rounds[last];
    Monotone(hash, ws, es, c + 1, |es|);
    RoundProgress(hash, ws, es, a, b, c);
    if last > 0 {
      FrontDisjoint(ws, es, rounds);
      RoundsRaiseBase(hash, ws, es, rounds[..last]);
      Monotone(hash, ws, es, rounds[last - 1].2 + 1, a);
      Monotone(hash, ws, es, a, c + 1);
    }
  }

  lemma FrontDisjoint(ws: seq<World>, es: seq<Event>, rounds: seq<(nat, nat, nat)>)
    requires |ws| == |es| + 1 && Disjoint(ws, es, rounds) && |rounds| > 1
    ensures Disjoint(ws, es, rounds[..|rounds| - 1])
  {
  }

  /** n disjoint rounds finish the transfer of an n-part resource. */
  lemma {:induction false} RoundsSuffice(hash: Hash, ws: seq<World>, es: seq<Event>, rounds: seq<(nat, nat, nat)>)
    requires Run(hash, ws, es) && ws[|es|].accepted <= 1 && Disjoint(ws, es, rounds)
    requires |rounds| >= |ws[0].s.parts| && rounds != []
    ensures ws[|es|].s.outcome != Pending
    ensures Timeout !in es ==> ws[|es|].s.outcome == Delivered
  {
    var c := rounds[|rounds| - 1].2;
    RoundsRaiseBase(hash, ws, es, rounds);
    Monotone(hash, ws, es, c + 1, |es|);
    RunInv(hash, ws, es, c + 1);
    if Timeout !in es { NeverTimesOut(hash, ws, es, |es|); }
  }

  lemma {:induction false} NeverTimesOut(hash: Hash, ws: seq<World>, es: seq<Event>, i: nat)
    requires Run(hash, ws, es) && i < |ws| && Timeout !in es
    ensures ws[i].s.outcome != TimedOut
  {
    if i > 0 { NeverTimesOut(hash, ws, es, i - 1); }
  }
}
