/** That progress is always possible. ResourceProtocol shows that a completed round raises the
    sender's base; here every round that the network lets through is shown to complete: the
    part at base is answered exactly while the receiver has the resource open or remembers it,
    every answer moves the sender, and a completed resource is forgotten only by a full
    memory. What a receiver does with parts that do not have the advertised digest follows. */
module ResourceRounds {
  import opened Basics
  import opened ResourceModel
  import opened ResourceProtocol
  import ResourceEndpoints
  import Reopen = ResourceReopen

  // ---- every part of base is answered --------------------------------------------------------

  ghost predicate PartOfBase(w: World, e: Event) {
    e.ToReceiver? && w.s.base < w.Count() && e.f == w.s.PartFrame(w.s.base)
  }

  /** Feeding g moves the sender past base, or finishes it. */
  ghost predicate Advances(s: Sender, g: Frame)
    requires s.Shape()
  {
    forall now :: s.Feed(g, now).0.outcome != Pending || s.Feed(g, now).0.base > s.base
  }

  ghost predicate AnsweredBase(w: World, e: Event)
    requires e.ToReceiver? && w.s.Shape()
  {
    && (e.replies != [] <==> w.Open() || w.Id() in w.r.finished)
    && (w.accepted <= 1 ==> forall g | g in e.replies :: Advances(w.s, g))
    && (e.done.Some? ==>
          && Done(w.Id()) in e.replies
          && exists g :: g in e.replies && g.Ack? && g.id == w.Id() && g.base == w.Count())
  }

  lemma AnswersBase(hash: Hash, w: World, e: Event, w': World)
    requires Inv(hash, w) && Step(hash, w, e, w') && PartOfBase(w, e)
    ensures AnsweredBase(w, e)
  {
    assert Genuine(w, e.f);
    if w.Open() {
      PartOutcome(hash, w.s, w.r, e.f, e.now, w'.r, e.replies, e.done);
      OpenAnswers(w, e, w.r.byID[w.Id()].Absorb(e.f.index, e.f.data));
    } else if w.Id() in w.r.finished {
      assert e.replies == [Done(w.Id())];
    }
  }

  lemma OpenAnswers(w: World, e: Event, st: RecvState)
    requires SenderInv(w) && ReceiverInv(w) && PartOfBase(w, e) && w.Open()
    requires st == w.r.byID[w.Id()].Absorb(w.s.base, w.s.parts[w.s.base])
    requires st.total == |st.got| == w.Count() && (st.count == st.total <==> st.base == st.total)
    requires e.replies != [] && IsAckOf(w.Id(), st, e.replies[0])
    requires if e.done.Some? then st.count == st.total && e.replies == [e.replies[0], Done(w.Id())]
             else e.replies == [e.replies[0]]
    ensures AnsweredBase(w, e)
  {
    assert e.replies[0] in e.replies;
    if w.accepted <= 1 { AnswerPassesBase(w, e.replies[0]); }
  }

  /** The part at base is answered if and only if the receiver has the resource open or remembers
      that it completed; with one acceptance every answer advances the sender. An arrival that
      completes the resource is answered both by an acknowledgement of all parts and by DONE. */
  lemma {:induction false} BaseIsAnswered(hash: Hash, ws: seq<World>, es: seq<Event>, b: nat)
    requires Run(hash, ws, es) && b < |es| && PartOfBase(ws[b], es[b])
    ensures ws[b].s.Shape() && AnsweredBase(ws[b], es[b])
  {
    RunInv(hash, ws, es, b);
    AnswersBase(hash, ws[b], es[b], ws[b + 1]);
  }

  /** The acknowledgement of part base reports a higher base. */
  lemma AnswerPassesBase(w: World, ack: Frame)
    requires SenderInv(w) && ReceiverInv(w) && w.Open() && w.accepted <= 1 && w.s.base < w.Count()
    requires IsAckOf(w.Id(), w.r.byID[w.Id()].Absorb(w.s.base, w.s.parts[w.s.base]), ack)
    ensures ack.base > w.s.base
  {
    var st := w.r.byID[w.Id()];
    forall i: nat | i < w.s.base
      ensures st.got[i]
    {
      assert w.Held(i);
    }
    ReplyPassesBase(w.s, st, w.s.base, ack);
  }

  // ---- a completed resource stays remembered -------------------------------------------------

  /** A receiver forgets a completed resource only when another completes while the memory is
      full, and then only if it expired or nothing else did; the memory never outgrows its cap,
      and what completes is remembered. */
  lemma {:induction false} ForgetsOnlyWhenFull(hash: Hash, r: Receiver, f: Frame, now: int, r': Receiver,
                                               replies: seq<Frame>, done: Option<Bytes>, id: Id)
    requires r.Valid() && FeedReceiver(hash, r, f, now, r', replies, done)
    ensures done.Some? ==> f.id in r'.finished && r'.finished[f.id] == now && f.id !in r'.byID
    ensures id in r.finished && id !in r'.finished ==>
              && done.Some? && |r.finished| >= MAX_FINISHED
              && (now - r.finished[id] >= FINISHED_TTL || |Live(r.finished, now)| >= MAX_FINISHED)
    ensures |r.finished| <= MAX_FINISHED ==> |r'.finished| <= MAX_FINISHED
  {
    if done.Some? && |r.finished| >= MAX_FINISHED {
      assert Live(r.finished, now) == Fresh(r.finished, now).Keys;
      var kept: set<Id> :| IsKept(r.finished, now, kept) && r'.finished == KeepIn(r.finished, kept)[f.id := now];
      KeptIsSmall(r.finished, now, kept, f.id, r'.finished);
    }
  }

  /** The ids that completed less than one lifetime ago. */
  function Live(finished: map<Id, int>, now: int): set<Id> {
    set k | k in finished && now - finished[k] < FINISHED_TTL
  }

  lemma KeptIsSmall(finished: map<Id, int>, now: int, kept: set<Id>, id: Id, finished': map<Id, int>)
    requires IsKept(finished, now, kept) && finished' == KeepIn(finished, kept)[id := now]
    ensures |finished'| <= MAX_FINISHED
  {
    assert finished'.Keys == kept + {id};
    assert |kept| < MAX_FINISHED;
    assert |finished'| == |finished'.Keys|;
  }

  /** While the memory never filled up, a delivered resource is open or remembered. */
  lemma {:induction false} StaysRemembered(hash: Hash, ws: seq<World>, es: seq<Event>, i: nat)
    requires Run(hash, ws, es) && i < |ws| && forall k: nat | k < i :: |ws[k].r.finished| < MAX_FINISHED
    ensures ws[i].accepted > 0 ==> ws[i].Open() || ws[i].Id() in ws[i].r.finished
  {
    RunInv(hash, ws, es, i);
    if i > 0 {
      var w, e, w' := ws[i - 1], es[i - 1], ws[i];
      StaysRemembered(hash, ws, es, i - 1);
      RunInv(hash, ws, es, i - 1);
      assert Step(hash, w, e, w');
      if e.ToReceiver? { StepRemembers(hash, w, e, w'); }
    }
  }

  lemma StepRemembers(hash: Hash, w: World, e: Event, w': World)
    requires Inv(hash, w) && e.ToReceiver? && Step(hash, w, e, w') && |w.r.finished| < MAX_FINISHED
    requires w.accepted > 0 ==> w.Open() || w.Id() in w.r.finished
    ensures w'.accepted > 0 ==> w'.Open() || w'.Id() in w'.r.finished
  {
    ForgetsOnlyWhenFull(hash, w.r, e.f, e.now, w'.r, e.replies, e.done, w.Id());
    if e.f.id != w.Id() { ForeignFrame(hash, w.r, e.f, e.now, w'.r, e.replies, e.done, w.Id()); }
  }

  /** So from acceptance on, while the memory never filled up, the part at base never goes
      unanswered. */
  lemma {:induction false} NeverUnanswered(hash: Hash, ws: seq<World>, es: seq<Event>, b: nat)
    requires Run(hash, ws, es) && b < |es| && PartOfBase(ws[b], es[b]) && ws[b].accepted > 0
    requires forall k: nat | k < b :: |ws[k].r.finished| < MAX_FINISHED
    ensures es[b].replies != []
  {
    StaysRemembered(hash, ws, es, b);
    BaseIsAnswered(hash, ws, es, b);
  }

  // ---- rounds exist ----------------------------------------------------------------------------

  lemma SetBit(bm: Bytes, i: nat) returns (bm': Bytes)
    requires i < 8 * |bm|
    ensures |bm'| == |bm| && forall j: nat :: Bit(bm', j) <==> j == i || Bit(bm, j)
  {
    bm' := bm[i / 8 := bm[i / 8] | ((1 as bv8) << (i % 8))];
    forall j: nat
      ensures Bit(bm', j) <==> j == i || Bit(bm, j)
    {
      ResourceEndpoints.SetOneBit(bm[i / 8], i % 8, j % 8);
    }
  }

  lemma {:induction false} BitsBelow(got: seq<bool>, base: nat, n: nat) returns (bm: Bytes)
    requires n <= 8 * MAX_ACK_BITMAP_BYTES
    ensures |bm| == MAX_ACK_BITMAP_BYTES
    ensures forall j: nat :: Bit(bm, j) <==> j < n && base + j < |got| && got[base + j]
  {
    if n == 0 {
      bm := seq(MAX_ACK_BITMAP_BYTES, _ => 0);
    } else {
      bm := BitsBelow(got, base, n - 1);
      if base + n - 1 < |got| && got[base + n - 1] { bm := SetBit(bm, n - 1); }
    }
  }

  lemma {:induction false} Trimmed(bm: Bytes) returns (bm': Bytes)
    ensures |bm'| <= |bm| && (bm' != [] ==> bm'[|bm'| - 1] != 0) && forall j: nat :: Bit(bm', j) <==> Bit(bm, j)
  {
    bm' := bm;
    if bm != [] && bm[|bm| - 1] == 0 {
      var shorter := bm[..|bm| - 1];
      assert forall j: nat :: Bit(shorter, j) <==> Bit(bm, j);
      bm' := Trimmed(shorter);
    }
  }

  lemma SomeAck(id: Id, st: RecvState) returns (ack: Frame)
    requires st.Valid()
    ensures IsAckOf(id, st, ack)
  {
    var bm := BitsBelow(st.got, st.base, 8 * MAX_ACK_BITMAP_BYTES);
    bm := Trimmed(bm);
    ack := Ack(id, st.base, bm);
  }

  /** Whatever arrives, the receiver reacts. */
  lemma {:induction false} SomeReaction(hash: Hash, r: Receiver, f: Frame, now: int)
    returns (r': Receiver, replies: seq<Frame>, done: Option<Bytes>)
    requires r.Valid()
    ensures FeedReceiver(hash, r, f, now, r', replies, done)
  {
    r', replies, done := r, [], None;
    if f.Adv? {
      r' := FeedAdv(r, f);
    } else if f.Part? && f.id !in r.byID {
      if f.id in r.finished { replies := [Done(f.id)]; }
    } else if f.Part? && f.index < r.byID[f.id].total {
      assert r.byID[f.id].Valid();
      var st := r.byID[f.id].Absorb(f.index, f.data);
      AbsorbValid(r.byID[f.id], f.index, f.data);
      var ack := SomeAck(f.id, st);
      if st.count == st.total && hash(Concat(st.parts)) == st.whole {
        var finished' := Reopen.SomeMemory(r.finished, f.id, now);
        r', replies, done := Receiver(r.byID - {f.id}, finished'), [ack, Done(f.id)], Some(Concat(st.parts));
      } else {
        r', replies := r.(byID := r.byID[f.id := st]), [ack];
      }
    }
  }

  lemma OneMore(hash: Hash, ws: seq<World>, es: seq<Event>, e: Event, w: World, ws': seq<World>, es': seq<Event>)
    requires Run(hash, ws, es) && Step(hash, ws[|es|], e, w) && ws' == ws + [w] && es' == es + [e]
    ensures Run(hash, ws', es') && ws'[|es'|] == w
  {
    var step := (w: World, e: Event, w': World) => Step(hash, w, e, w');
    Extended(step, ws, es, e, w);
    RunOf(hash, step, ws', es');
  }

  lemma RunOf(hash: Hash, step: (World, Event, World) -> bool, ws: seq<World>, es: seq<Event>)
    requires |ws| == |es| + 1 && Init(hash, ws[0]) && forall k :: 0 <= k < |es| ==> step(ws[k], es[k], ws[k + 1])
    requires forall w, e, w' :: step(w, e, w') ==> Step(hash, w, e, w')
    ensures Run(hash, ws, es)
  {
  }

  lemma ArriveAtReceiver(hash: Hash, w: World, f: Frame, now: int) returns (e: Event, w': World)
    requires Inv(hash, w) && f in w.net
    ensures e.ToReceiver? && e.f == f && Step(hash, w, e, w') && w'.s == w.s && Frames(e.replies) <= w'.net
    ensures !f.Adv? ==> w'.accepted == w.accepted
  {
    var r', replies, done := SomeReaction(hash, w.r, f, now);
    e := ToReceiver(f, now, replies, done);
    w' := w.(r := r', net := w.net + Frames(replies),
             accepted := w.accepted + (if f.Adv? && !w.Open() && w.(r := r').Open() then 1 else 0),
             delivered := if f.id == w.Id() && done.Some? then w.delivered + [done.value] else w.delivered);
  }

  /** From every reachable state in which the sender waits, the advertisement was accepted once
      and the receiver has or remembers the resource, the run can go on by a resend of the part
      at base, its arrival and the arrival of an answer: a whole round, after which base is
      higher or the sender is done. */
  lemma {:induction false} RoundPossible(hash: Hash, ws: seq<World>, es: seq<Event>)
    returns (ws': seq<World>, es': seq<Event>)
    requires Run(hash, ws, es) && ws[|es|].s.outcome == Pending && ws[|es|].accepted == 1
    requires ws[|es|].Open() || ws[|es|].Id() in ws[|es|].r.finished
    ensures Run(hash, ws', es') && es <= es' && ws <= ws' && |es'| == |es| + 3
    ensures Round(ws', es', |es|, |es| + 1, |es| + 2)
    ensures ws'[|es'|].s.outcome != Pending || ws'[|es'|].s.base > ws[|es|].s.base
  {
    DeadlockFree(hash, ws, es, |es|);
    RunInv(hash, ws, es, |es|);
    var now, w1, e2, w2, e3, w3 := RoundFrom(hash, ws[|es|]);
    var ws1, es1 := ws + [w1], es + [Tick(now)];
    var ws2, es2 := ws1 + [w2], es1 + [e2];
    ws', es' := ws2 + [w3], es2 + [e3];
    OneMore(hash, ws, es, Tick(now), w1, ws1, es1);
    OneMore(hash, ws1, es1, e2, w2, ws2, es2);
    OneMore(hash, ws2, es2, e3, w3, ws', es');
  }

  lemma RoundFrom(hash: Hash, w: World)
    returns (now: int, w1: World, e2: Event, w2: World, e3: Event, w3: World)
    requires Inv(hash, w) && CanResend(w.s) && w.accepted == 1 && (w.Open() || w.Id() in w.r.finished)
    ensures Step(hash, w, Tick(now), w1) && Step(hash, w1, e2, w2) && Step(hash, w2, e3, w3)
    ensures e2.ToReceiver? && w.s.base < w.Count() && e2.f == w.s.PartFrame(w.s.base)
    ensures e3.ToSender? && e3.f in e2.replies && (w3.s.outcome != Pending || w3.s.base > w.s.base)
  {
    now, w1 := ResendBase(hash, w);
    StepInv(hash, w, Tick(now), w1);
    e2, w2 := ArriveAtReceiver(hash, w1, w1.s.PartFrame(w1.s.base), now);
    AnswersBase(hash, w1, e2, w2);
    StepInv(hash, w1, e2, w2);
    e3, w3 := AnswerArrives(hash, w1, e2, w2, now);
  }

  /** The timer resends the part at base once it is overdue. */
  lemma ResendBase(hash: Hash, w: World) returns (now: int, w': World)
    requires Inv(hash, w) && CanResend(w.s)
    ensures Step(hash, w, Tick(now), w') && w'.r == w.r && w'.accepted == w.accepted && w'.delivered == w.delivered
    ensures w'.s.base == w.s.base < w'.Count() && w'.Id() == w.Id() && w'.s.parts == w.s.parts
    ensures w'.s.PartFrame(w'.s.base) in w'.net && w'.s.outcome == w.s.outcome
  {
    now := w.s.sentAt[w.s.base] + (if w.s.rto > 0 then w.s.rto else 0);
    w' := w.(s := w.s.Tick(now).0, net := w.net + Frames(w.s.Tick(now).1));
    assert w.s.PartFrame(w.s.base) in w.s.Tick(now).1;
  }

  lemma AnswerArrives(hash: Hash, w: World, e: Event, w': World, now: int) returns (e': Event, w'': World)
    requires Inv(hash, w') && e.ToReceiver? && e.replies != [] && Frames(e.replies) <= w'.net && w'.s == w.s
    requires w.s.Shape() && forall g | g in e.replies :: Advances(w.s, g)
    ensures Step(hash, w', e', w'') && e'.ToSender? && e'.f in e.replies
    ensures w''.s.outcome != Pending || w''.s.base > w.s.base
  {
    var g := e.replies[0];
    assert g in e.replies && g in Frames(e.replies);
    e' := ToSender(g, now);
    w'' := w'.(s := w'.s.Feed(g, now).0, net := w'.net + Frames(w'.s.Feed(g, now).1));
    assert Advances(w.s, g);
  }

  // ---- parts that do not have the advertised digest --------------------------------------------

  /** Whoever sent them: what is handed over has the advertised digest. */
  lemma {:induction false} DigestHolds(hash: Hash, r: Receiver, f: Frame, now: int, r': Receiver,
                                       replies: seq<Frame>, done: Option<Bytes>)
    requires r.Valid() && FeedReceiver(hash, r, f, now, r', replies, done) && done.Some?
    ensures f.id in r.byID && hash(done.value) == r.byID[f.id].whole
  {
  }

  /** All parts are in, and they do not have the advertised digest. */
  ghost predicate Corrupt(hash: Hash, r: Receiver, id: Id) {
    id in r.byID && r.byID[id].count == r.byID[id].total && hash(Concat(r.byID[id].parts)) != r.byID[id].whole
  }

  /** A resource in that state is never completed nor given up, whatever arrives: every part
      counts as held, so none is ever taken in its place. Parts are still acknowledged. */
  lemma {:induction false} CorruptForever(hash: Hash, rs: seq<Receiver>, fs: seq<Frame>, outs: seq<seq<Frame>>,
                                          dones: seq<Option<Bytes>>, nows: seq<int>, id: Id, i: nat)
    requires |rs| == |fs| + 1 && |outs| == |dones| == |nows| == |fs| && i < |rs|
    requires rs[0].Valid() && Corrupt(hash, rs[0], id)
    requires forall k: nat | k < |fs| :: Reacts(hash, rs, fs, outs, dones, nows, k)
    ensures rs[i].Valid() && Corrupt(hash, rs[i], id) && rs[i].byID[id] == rs[0].byID[id]
    ensures i > 0 && fs[i - 1].id == id ==>
              dones[i - 1] == None && (fs[i - 1].Part? && fs[i - 1].index < rs[0].byID[id].total ==> outs[i - 1] != [])
  {
    if i > 0 {
      CorruptForever(hash, rs, fs, outs, dones, nows, id, i - 1);
      assert Reacts(hash, rs, fs, outs, dones, nows, i - 1);
      CorruptStays(hash, rs[i - 1], fs[i - 1], nows[i - 1], rs[i], outs[i - 1], dones[i - 1], id);
    }
  }

  ghost predicate Reacts(hash: Hash, rs: seq<Receiver>, fs: seq<Frame>, outs: seq<seq<Frame>>,
                         dones: seq<Option<Bytes>>, nows: seq<int>, k: nat)
    requires |rs| == |fs| + 1 && |outs| == |dones| == |nows| == |fs| && k < |fs|
  {
    rs[k].Valid() && FeedReceiver(hash, rs[k], fs[k], nows[k], rs[k + 1], outs[k], dones[k])
  }

  lemma CorruptStays(hash: Hash, r: Receiver, f: Frame, now: int, r': Receiver, replies: seq<Frame>,
                     done: Option<Bytes>, id: Id)
    requires r.Valid() && FeedReceiver(hash, r, f, now, r', replies, done) && Corrupt(hash, r, id)
    ensures r'.Valid() && id in r'.byID && r'.byID[id] == r.byID[id]
    ensures f.id == id ==> done == None && (f.Part? && f.index < r.byID[id].total ==> replies != [])
  {
    FeedKeepsValid(hash, r, f, now, r', replies, done);
    assert r.byID[id].Valid();
    CountBounds(r.byID[id].got);
    if f.id != id { ForeignFrame(hash, r, f, now, r', replies, done, id); }
  }
}
