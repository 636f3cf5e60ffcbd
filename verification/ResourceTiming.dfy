/** When parts go out. The sender's state is measured against the history of a run: which frames
    left at what time, and which acknowledgements arrived. */
module ResourceTiming {
  import opened Basics
  import opened ResourceModel
  import opened ResourceProtocol

  // ---- the history of a run ------------------------------------------------------------------

  predicate AtSender(e: Event) { e.Tick? || e.ToSender? }

  /** The frames the sender puts on the wire in a step. */
  function Out(w: World, e: Event): seq<Frame>
    requires w.s.Shape()
  {
    match e
    case Tick(now) => w.s.Tick(now).1
    case ToSender(f, now) => w.s.Feed(f, now).1
    case _ => []
  }

  /** The transfer was started at time t0. */
  ghost predicate StartedAt(hash: Hash, w: World, t0: int) {
    exists s0: Sender, partSize: nat ::
      && StartsFrom(hash, s0) && w.s == s0.Filled(t0)
      && w.net == {Adv(s0.id, |s0.parts|, partSize, s0.whole)} + Frames(s0.FillFrames())
  }

  /** A run started at t0 in which the sender's clock never goes back. */
  ghost predicate Timed(hash: Hash, ws: seq<World>, es: seq<Event>, t0: int) {
    && Run(hash, ws, es) && StartedAt(hash, ws[0], t0)
    && (forall j :: 0 <= j < |es| && AtSender(es[j]) ==> t0 <= es[j].now)
    && (forall j, k :: 0 <= j < k < |es| && AtSender(es[j]) && AtSender(es[k]) ==> es[j].now <= es[k].now)
  }

  ghost predicate SentIn(w: World, e: Event, f: Frame) { AtSender(e) && w.s.Shape() && f in Out(w, e) }

  /** The times at which part i went out, with the start and in the first n steps. */
  ghost function Times(ws: seq<World>, es: seq<Event>, t0: int, n: nat, i: nat): seq<int>
    requires |ws| == |es| + 1 && n <= |es| && i < |ws[0].s.parts|
  {
    var f := ws[0].s.PartFrame(i);
    if n == 0 then if f in ws[0].net then [t0] else []
    else
      var before := Times(ws, es, t0, n - 1, i);
      if SentIn(ws[n - 1], es[n - 1], f) then before + [es[n - 1].now] else before
  }

  /** An acknowledgement of this resource arrives. */
  predicate IsAckFor(id: Id, e: Event) { e.ToSender? && e.f.Ack? && e.f.id == id }

  /** One of the first n steps brought an acknowledgement of part i. */
  predicate Told(id: Id, es: seq<Event>, n: nat, i: nat)
    requires n <= |es|
  {
    n > 0 && (Told(id, es, n - 1, i) || (IsAckFor(id, es[n - 1]) && Covers(es[n - 1].f, i)))
  }

  /** The highest base the first n steps reported. */
  function HighestTold(id: Id, es: seq<Event>, n: nat): nat
    requires n <= |es|
  {
    if n == 0 then 0
    else if IsAckFor(id, es[n - 1]) && es[n - 1].f.base > HighestTold(id, es, n - 1) then es[n - 1].f.base
    else HighestTold(id, es, n - 1)
  }

  /** One of the first n steps reported that all parts are in, by an acknowledgement or DONE, or was
      a timeout. */
  predicate Ended(id: Id, count: nat, es: seq<Event>, n: nat)
    requires n <= |es|
  {
    n > 0 && (Ended(id, count, es, n - 1) || Ends(id, count, es[n - 1]))
  }

  predicate Ends(id: Id, count: nat, e: Event) {
    e.Timeout? || (e.ToSender? && e.f.id == id && (e.f.Done? || (e.f.Ack? && e.f.base >= count)))
  }

  // ---- what one step sends ---------------------------------------------------------------------

  lemma {:induction false} DueMembers(s: Sender, j: nat, now: int, i: nat)
    requires s.Shape() && i < |s.parts|
    ensures s.PartFrame(i) in s.DueFrames(j, now) <==> j <= i && s.Due(i, now)
    decreases |s.parts| - j
  {
    if j < Min(s.base + s.window, s.sentHigh) {
      DueMembers(s, j + 1, now, i);
      assert s.PartFrame(i) == s.PartFrame(j) ==> i == j;
    }
  }

  lemma FillMembers(s: Sender, i: nat)
    requires s.Shape() && i < |s.parts|
    ensures s.PartFrame(i) in s.FillFrames() <==> s.sentHigh <= i < s.Limit()
  {
    var fs := s.FillFrames();
    assert forall j :: 0 <= j < |fs| ==> fs[j] == s.PartFrame(s.sentHigh + j);
    if s.sentHigh <= i < s.Limit() { assert fs[i - s.sentHigh] == s.PartFrame(i); }
  }

  /** A step sends part i exactly if it is overdue or new in the window, and stamps it then. */
  lemma Sends(w: World, e: Event, w': World, i: nat)
    requires w.s.Shape() && AtSender(e) && i < w.Count()
    requires w'.s == if e.Tick? then w.s.Tick(e.now).0 else w.s.Feed(e.f, e.now).0
    ensures w'.s.Shape() && w'.s.sentHigh >= w.s.sentHigh
    ensures w.s.PartFrame(i) in Out(w, e) ==>
              || w.s.sentHigh <= i < w'.s.sentHigh
              || (e.Tick? && w.s.Due(i, e.now) && i < w.s.sentHigh)
    ensures w.s.sentHigh <= i < w'.s.sentHigh ==> w.s.PartFrame(i) in Out(w, e)
    ensures w'.s.sentAt[i] == if w.s.PartFrame(i) in Out(w, e) then e.now else w.s.sentAt[i]
  {
    if e.Tick? {
      DueMembers(w.s, w.s.base, e.now, i);
      FillMembers(w.s.Resent(e.now), i);
    } else if e.f.Ack? && e.f.id == w.s.id {
      FillMembers(w.s.Acked(e.f), i);
    }
  }

  /** In one step parts go out in ascending order, so none twice. */
  lemma {:induction false} SendsAscending(w: World, e: Event)
    requires w.s.Shape()
    ensures Ascending(Out(w, e))
  {
    if e.Tick? {
      DueAscending(w.s, w.s.base, e.now);
      FillAscending(w.s.Resent(e.now));
    }
    if e.ToSender? && e.f.Ack? && e.f.id == w.s.id { FillAscending(w.s.Acked(e.f)); }
  }

  predicate Ascending(fs: seq<Frame>) {
    && (forall j :: 0 <= j < |fs| ==> fs[j].Part?)
    && (forall j, k :: 0 <= j < k < |fs| ==> fs[j].index < fs[k].index)
  }

  lemma FillAscending(s: Sender)
    requires s.Shape()
    ensures Ascending(s.FillFrames()) && forall f | f in s.FillFrames() :: f.index >= s.sentHigh
  {
    var fs := s.FillFrames();
    assert forall j :: 0 <= j < |fs| ==> fs[j] == s.PartFrame(s.sentHigh + j);
  }

  lemma {:induction false} DueAscending(s: Sender, i: nat, now: int)
    requires s.Shape()
    ensures Ascending(s.DueFrames(i, now))
    ensures forall f | f in s.DueFrames(i, now) :: i <= f.index < s.sentHigh
    decreases |s.parts| - i
  {
    if i < Min(s.base + s.window, s.sentHigh) { DueAscending(s, i + 1, now); }
  }

  // ---- stamps are transmission times -------------------------------------------------------------

  /** What the sender's stamp says of part i, which went out at the times ts: nothing if it never
      did, else when it last did; and no two of the times are less than one rto apart. */
  ghost predicate Stamped(s: Sender, ts: seq<int>, i: nat) {
    && |s.sentAt| > i && (i < s.sentHigh <==> ts != [])
    && (ts != [] ==> s.sentAt[i] == ts[|ts| - 1])
    && (forall j :: 0 <= j < |ts| ==> ts[j] <= ts[|ts| - 1])
    && (forall j, k :: 0 <= j < k < |ts| ==> ts[k] - ts[j] >= s.rto)
  }

  lemma StampedStep(hash: Hash, w: World, e: Event, w': World, ts: seq<int>, i: nat, ts': seq<int>)
    requires Inv(hash, w) && Step(hash, w, e, w') && i < w.Count() && Stamped(w.s, ts, i)
    requires AtSender(e) ==> forall t | t in ts :: t <= e.now
    requires ts' == if SentIn(w, e, w.s.PartFrame(i)) then ts + [e.now] else ts
    ensures Stamped(w'.s, ts', i) && w'.s.rto == w.s.rto
  {
    if AtSender(e) {
      Sends(w, e, w', i);
      StampedAgain(w.s, ts, i, e.now, w'.s, ts');
    }
  }

  lemma StampedAgain(s: Sender, ts: seq<int>, i: nat, now: int, s': Sender, ts': seq<int>)
    requires Stamped(s, ts, i) && |s'.sentAt| == |s.sentAt| && s'.rto == s.rto && s'.sentHigh >= s.sentHigh
    requires forall t | t in ts :: t <= now
    requires ts' == ts || ts' == ts + [now]
    requires ts' == ts ==> s'.sentAt[i] == s.sentAt[i] && (i < s.sentHigh <==> i < s'.sentHigh)
    requires ts' != ts ==> s'.sentAt[i] == now && i < s'.sentHigh && (i < s.sentHigh ==> now - s.sentAt[i] >= s.rto)
    ensures Stamped(s', ts', i)
  {
    forall j | 0 <= j < |ts|
      ensures ts[j] <= now
    {
      assert ts[j] in ts;
    }
  }

  lemma {:induction false} TimesBefore(ws: seq<World>, es: seq<Event>, t0: int, n: nat, i: nat, now: int)
    requires |ws| == |es| + 1 && n <= |es| && i < |ws[0].s.parts| && t0 <= now
    requires forall k :: 0 <= k < n && AtSender(es[k]) ==> es[k].now <= now
    ensures forall t | t in Times(ws, es, t0, n, i) :: t <= now
  {
    if n > 0 { TimesBefore(ws, es, t0, n - 1, i, now); }
  }

  lemma StampedFirst(hash: Hash, ws: seq<World>, es: seq<Event>, t0: int, i: nat)
    requires Timed(hash, ws, es, t0) && i < |ws[0].s.parts|
    ensures Stamped(ws[0].s, Times(ws, es, t0, 0, i), i)
  {
    var s0: Sender, partSize: nat :|
      && StartsFrom(hash, s0) && ws[0].s == s0.Filled(t0)
      && ws[0].net == {Adv(s0.id, |s0.parts|, partSize, s0.whole)} + Frames(s0.FillFrames());
    FillMembers(s0, i);
    assert ws[0].s.PartFrame(i) == s0.PartFrame(i);
  }

  ghost function TimesOf(ws: seq<World>, es: seq<Event>, t0: int, i: nat): nat -> seq<int>
    requires |ws| == |es| + 1 && i < |ws[0].s.parts|
  {
    (n: nat) => if n <= |es| then Times(ws, es, t0, n, i) else []
  }

  ghost predicate StampedAfter(ws: seq<World>, ts: nat -> seq<int>, n: nat, i: nat) {
    n < |ws| ==> Stamped(ws[n].s, ts(n), i) && ws[n].s.rto == ws[0].s.rto
  }

  /** In every run the stamps are the times of the last transmissions, and two transmissions of
      one part are at least one rto apart. */
  lemma {:induction false} TransmissionsApart(hash: Hash, ws: seq<World>, es: seq<Event>, t0: int, n: nat, i: nat)
    requires Timed(hash, ws, es, t0) && n <= |es| && i < |ws[0].s.parts|
    ensures var ts := Times(ws, es, t0, n, i);
      && (forall j, k :: 0 <= j < k < |ts| ==> ts[k] - ts[j] >= ws[0].s.rto)
      && Stamped(ws[n].s, ts, i) && ws[n].s.rto == ws[0].s.rto
  {
    var ts := TimesOf(ws, es, t0, i);
    var stamped := (k: nat) => StampedAfter(ws, ts, k, i);
    StampedFirst(hash, ws, es, t0, i);
    forall k: nat | k < n && stamped(k)
      ensures stamped(k + 1)
    {
      StampedNext(hash, ws, es, t0, k, i, ts);
    }
    Upwards(stamped, n);
  }

  /** Induction over moments. */
  lemma {:induction false} Upwards(inv: nat -> bool, n: nat)
    requires inv(0) && forall k: nat | k < n && inv(k) :: inv(k + 1)
    ensures inv(n)
  {
    if n > 0 {
      Upwards(inv, n - 1);
      assert inv(n - 1 + 1);
    }
  }

  lemma StampedNext(hash: Hash, ws: seq<World>, es: seq<Event>, t0: int, n: nat, i: nat, ts: nat -> seq<int>)
    requires Timed(hash, ws, es, t0) && n < |es| && i < |ws[0].s.parts| && ts == TimesOf(ws, es, t0, i)
    requires StampedAfter(ws, ts, n, i)
    ensures StampedAfter(ws, ts, n + 1, i)
  {
    var w, e, w' := ws[n], es[n], ws[n + 1];
    RunInv(hash, ws, es, n);
    TimesNext(ws, es, t0, n, i, ts, w.s.PartFrame(i));
    StampedStep(hash, w, e, w', ts(n), i, ts(n + 1));
  }

  lemma TimesNext(ws: seq<World>, es: seq<Event>, t0: int, n: nat, i: nat, ts: nat -> seq<int>, f: Frame)
    requires |ws| == |es| + 1 && n < |es| && i < |ws[0].s.parts| && ts == TimesOf(ws, es, t0, i)
    requires f == ws[0].s.PartFrame(i)
    requires AtSender(es[n]) ==> t0 <= es[n].now && forall k :: 0 <= k < n && AtSender(es[k]) ==> es[k].now <= es[n].now
    ensures ts(n + 1) == if SentIn(ws[n], es[n], f) then ts(n) + [es[n].now] else ts(n)
    ensures AtSender(es[n]) ==> forall t | t in ts(n) :: t <= es[n].now
  {
    if AtSender(es[n]) { TimesBefore(ws, es, t0, n, i, es[n].now); }
  }

  // ---- acknowledgements are what was told ----------------------------------------------------------

  lemma AckedStep(hash: Hash, w: World, e: Event, w': World, i: nat)
    requires Inv(hash, w) && Step(hash, w, e, w') && i < w.Count()
    ensures |w'.s.acked| == w.Count()
    ensures w'.s.acked[i] <==> w.s.acked[i] || (IsAckFor(w.Id(), e) && Covers(e.f, i))
  {
  }

  /** What the sender counts as acknowledged is what it was told. */
  lemma {:induction false} AckedIffTold(hash: Hash, ws: seq<World>, es: seq<Event>, n: nat, i: nat)
    requires Run(hash, ws, es) && n <= |es| && i < |ws[0].s.parts|
    ensures |ws[n].s.acked| == |ws[0].s.parts| && (ws[n].s.acked[i] <==> Told(ws[0].Id(), es, n, i))
  {
    if n == 0 {
      var s0: Sender, now: int, partSize: nat :|
        && StartsFrom(hash, s0) && ws[0].s == s0.Filled(now)
        && ws[0].net == {Adv(s0.id, |s0.parts|, partSize, s0.whole)} + Frames(s0.FillFrames());
    } else {
      AckedIffTold(hash, ws, es, n - 1, i);
      RunInv(hash, ws, es, n - 1);
      AckedStep(hash, ws[n - 1], es[n - 1], ws[n], i);
    }
  }

  lemma BaseStep(hash: Hash, w: World, e: Event, w': World)
    requires Inv(hash, w) && Step(hash, w, e, w')
    ensures w'.s.base == if IsAckFor(w.Id(), e) && e.f.base > w.s.base then e.f.base else w.s.base
    ensures w'.s.window == w.s.window
  {
  }

  /** The sender's base is the highest base it was told. */
  lemma {:induction false} BaseIsHighestTold(hash: Hash, ws: seq<World>, es: seq<Event>, n: nat)
    requires Run(hash, ws, es) && n <= |es|
    ensures ws[n].s.base == HighestTold(ws[0].Id(), es, n) && ws[n].s.window == ws[0].s.window
  {
    if n > 0 {
      BaseIsHighestTold(hash, ws, es, n - 1);
      RunInv(hash, ws, es, n - 1);
      BaseStep(hash, ws[n - 1], es[n - 1], ws[n]);
    }
  }

  lemma EndStep(hash: Hash, w: World, e: Event, w': World)
    requires Inv(hash, w) && Step(hash, w, e, w')
    ensures w'.s.outcome != Pending <==> w.s.outcome != Pending || Ends(w.Id(), w.Count(), e)
  {
  }

  /** The sender is finished exactly if it was told that all is in, or gave up. */
  lemma {:induction false} FinishedIffEnded(hash: Hash, ws: seq<World>, es: seq<Event>, n: nat)
    requires Run(hash, ws, es) && n <= |es|
    ensures ws[n].s.outcome != Pending <==> Ended(ws[0].Id(), |ws[0].s.parts|, es, n)
  {
    if n > 0 {
      FinishedIffEnded(hash, ws, es, n - 1);
      RunInv(hash, ws, es, n - 1);
      EndStep(hash, ws[n - 1], es[n - 1], ws[n]);
    }
  }

  // ---- what goes out when -------------------------------------------------------------------------

  /** While the sender is unfinished, exactly the parts below base plus window have gone out. */
  lemma {:induction false} WindowIsOut(hash: Hash, ws: seq<World>, es: seq<Event>, t0: int, n: nat, i: nat)
    requires Timed(hash, ws, es, t0) && n <= |es| && i < |ws[0].s.parts| && ws[n].s.outcome == Pending
    ensures Times(ws, es, t0, n, i) != [] <==> i < ws[n].s.base + ws[0].s.window
  {
    TransmissionsApart(hash, ws, es, t0, n, i);
    RunInv(hash, ws, es, n);
    BaseIsHighestTold(hash, ws, es, n);
  }

  /** Every part of the window that went out, was not acknowledged and last went out at least one
      rto ago is resent by a tick. */
  lemma {:induction false} OverdueIsResent(hash: Hash, ws: seq<World>, es: seq<Event>, t0: int, n: nat, now: int,
                                           i: nat)
    requires Timed(hash, ws, es, t0) && n <= |es| && i < |ws[0].s.parts|
    requires ws[n].s.base <= i < ws[n].s.base + ws[0].s.window && !Told(ws[0].Id(), es, n, i)
    requires var ts := Times(ws, es, t0, n, i); ts != [] && now - ts[|ts| - 1] >= ws[0].s.rto
    ensures ws[n].s.Shape() && ws[0].s.PartFrame(i) in ws[n].s.Tick(now).1
  {
    TransmissionsApart(hash, ws, es, t0, n, i);
    RunInv(hash, ws, es, n);
    BaseIsHighestTold(hash, ws, es, n);
    AckedIffTold(hash, ws, es, n, i);
    DueMembers(ws[n].s, ws[n].s.base, now, i);
  }

  /** Whatever state it is in, a sender that ticks has then put out every part of its window that
      never went out. */
  lemma {:induction false} TickCatchesUp(s: Sender, now: int, i: nat)
    requires s.Shape() && s.sentHigh <= i < |s.parts| && i < s.base + s.window
    ensures s.PartFrame(i) in s.Tick(now).1 && i < s.Tick(now).0.sentHigh && s.Tick(now).0.sentAt[i] == now
  {
    FillMembers(s.Resent(now), i);
  }

  lemma NoPartReplies(hash: Hash, r: Receiver, f: Frame, now: int, r': Receiver, replies: seq<Frame>,
                      done: Option<Bytes>)
    requires r.Valid() && FeedReceiver(hash, r, f, now, r', replies, done)
    ensures forall g | g in replies :: !g.Part?
  {
  }

  lemma WireStep(hash: Hash, w: World, e: Event, w': World, i: nat)
    requires Inv(hash, w) && Step(hash, w, e, w') && i < w.Count() && w.s.PartFrame(i) in w'.net
    ensures w.s.PartFrame(i) in w.net || SentIn(w, e, w.s.PartFrame(i))
  {
    if e.ToReceiver? { NoPartReplies(hash, w.r, e.f, e.now, w'.r, e.replies, e.done); }
  }

  /** A part on the wire was put there by the sender. */
  lemma {:induction false} OnWireWasSent(hash: Hash, ws: seq<World>, es: seq<Event>, t0: int, n: nat, i: nat)
    requires Run(hash, ws, es) && n <= |es| && i < |ws[0].s.parts| && ws[0].s.PartFrame(i) in ws[n].net
    ensures Times(ws, es, t0, n, i) != []
  {
    if n > 0 {
      RunInv(hash, ws, es, n - 1);
      assert ws[0].s.PartFrame(i) == ws[n - 1].s.PartFrame(i);
      WireStep(hash, ws[n - 1], es[n - 1], ws[n], i);
      if ws[0].s.PartFrame(i) in ws[n - 1].net { OnWireWasSent(hash, ws, es, t0, n - 1, i); }
    }
  }

  lemma QuietStep(hash: Hash, w: World, e: Event, w': World, i: nat)
    requires Inv(hash, w) && Step(hash, w, e, w') && i < w.Count() && w.s.acked[i] && i < w.s.sentHigh
    ensures !SentIn(w, e, w.s.PartFrame(i))
  {
    if AtSender(e) { Sends(w, e, w', i); }
  }

  /** A part that was acknowledged never goes out again. */
  lemma {:induction false} ToldNotResent(hash: Hash, ws: seq<World>, es: seq<Event>, t0: int, m: nat, n: nat, i: nat)
    requires Timed(hash, ws, es, t0) && m <= n <= |es| && i < |ws[0].s.parts| && Told(ws[0].Id(), es, m, i)
    ensures Times(ws, es, t0, n, i) == Times(ws, es, t0, m, i)
  {
    var ts := TimesOf(ws, es, t0, i);
    forall k: nat | m <= k < n
      ensures ts(k + 1) == ts(k)
    {
      ToldStays(ws[0].Id(), es, m, k, i);
      QuietMoment(hash, ws, es, t0, k, i, ts);
    }
    Constant(ts, m, n);
  }

  lemma {:induction false} Constant<T(!new)>(f: nat -> T, m: nat, n: nat)
    requires m <= n && forall k: nat | m <= k < n :: f(k + 1) == f(k)
    ensures f(n) == f(m)
  {
    if m < n {
      Constant(f, m, n - 1);
      assert f(n - 1 + 1) == f(n - 1);
    }
  }

  lemma QuietMoment(hash: Hash, ws: seq<World>, es: seq<Event>, t0: int, n: nat, i: nat, ts: nat -> seq<int>)
    requires Timed(hash, ws, es, t0) && n < |es| && i < |ws[0].s.parts| && Told(ws[0].Id(), es, n, i)
    requires ts == TimesOf(ws, es, t0, i)
    ensures ts(n + 1) == ts(n)
  {
    ToldWentOut(hash, ws, es, t0, n, i);
    RunInv(hash, ws, es, n);
    QuietStep(hash, ws[n], es[n], ws[n + 1], i);
  }

  lemma ToldWentOut(hash: Hash, ws: seq<World>, es: seq<Event>, t0: int, n: nat, i: nat)
    requires Timed(hash, ws, es, t0) && n <= |es| && i < |ws[0].s.parts| && Told(ws[0].Id(), es, n, i)
    ensures |ws[n].s.acked| == |ws[0].s.parts| && ws[n].s.acked[i] && i < ws[n].s.sentHigh
  {
    AckedIffTold(hash, ws, es, n, i);
    RunInv(hash, ws, es, n);
    assert ws[n].Held(i);
    OnWireWasSent(hash, ws, es, t0, n, i);
    TransmissionsApart(hash, ws, es, t0, n, i);
  }

  lemma {:induction false} ToldStays(id: Id, es: seq<Event>, m: nat, n: nat, i: nat)
    requires m <= n <= |es| && Told(id, es, m, i)
    ensures Told(id, es, n, i)
  {
    if m < n { ToldStays(id, es, m, n - 1, i); }
  }
}
