/** The two ends of a resource transfer as the objects of internal/link/resource.go: fields
    updated in place, each method proved against the functions of ResourceModel. Frames a
    method sends are returned, the clock is the argument now, and SHA-256 is the field hash. */
module ResourceEndpoints {
  import opened Basics
  import opened ResourceModel

  // ---- cutting a payload into parts -------------------------------------------

  lemma ConcatPush(parts: seq<Bytes>, p: Bytes)
    ensures Concat(parts + [p]) == Concat(parts) + p
  {
    assert (parts + [p])[..|parts|] == parts;
  }

  lemma NextSlice(parts: seq<Bytes>, data: Bytes, off: nat, end: nat)
    requires off <= end <= |data| && Concat(parts) == data[..off]
    ensures Concat(parts + [data[off..end]]) == data[..end]
  {
    ConcatPush(parts, data[off..end]);
    assert data[..off] + data[off..end] == data[..end];
  }

  method SplitParts(data: Bytes, partSize: nat) returns (parts: seq<Bytes>)
    requires partSize > 0
    ensures Concat(parts) == data && 0 < |parts|
    ensures forall i :: 0 <= i < |parts| ==> |parts[i]| <= partSize
    ensures forall i :: 0 <= i < |parts| - 1 ==> |parts[i]| == partSize
    ensures data != [] ==> parts[|parts| - 1] != []
  {
    parts := [];
    var off := 0;
    while off < |data|
      invariant 0 <= off
      invariant Concat(parts) == data[..Min(off, |data|)]
      invariant off < |data| ==> forall i :: 0 <= i < |parts| ==> |parts[i]| == partSize
      invariant forall i :: 0 <= i < |parts| - 1 ==> |parts[i]| == partSize
      invariant forall i :: 0 <= i < |parts| ==> 0 < |parts[i]| <= partSize
      invariant off > 0 ==> parts != []
    {
      var end := off + partSize;
      if end > |data| { end := |data|; }
      NextSlice(parts, data, off, end);
      parts := parts + [data[off..end]];
      off := off + partSize;
    }
    assert data[..|data|] == data;
    if parts == [] { parts := [[]]; }
  }

  ghost predicate IsMaxLen(parts: seq<Bytes>, m: nat) {
    && (forall i :: 0 <= i < |parts| ==> |parts[i]| <= m)
    && (m == 0 || exists i :: 0 <= i < |parts| && |parts[i]| == m)
  }

  method MaxPartLen(parts: seq<Bytes>) returns (m: nat)
    ensures IsMaxLen(parts, m)
  {
    m := 0;
    for k := 0 to |parts|
      invariant forall i :: 0 <= i < k ==> |parts[i]| <= m
      invariant m == 0 || exists i :: 0 <= i < k && |parts[i]| == m
    {
      if |parts[k]| > m { m := |parts[k]|; }
    }
  }

  // ---- sender -----------------------------------------------------------------

  lemma DueFramesStep(s: Sender, i: nat, now: int, out: seq<Frame>)
    requires s.Shape() && i < Min(s.base + s.window, s.sentHigh)
    ensures out + s.DueFrames(i, now) ==
            (if s.Due(i, now) then out + [s.PartFrame(i)] else out) + s.DueFrames(i + 1, now)
  {
  }

  /** Marks the parts above base whose bit is set. */
  method MarkBits(acked: array<bool>, f: Frame)
    requires f.Ack?
    modifies acked
    ensures forall j :: 0 <= j < acked.Length ==>
            (acked[j] <==> old(acked[j]) || (f.base <= j && Bit(f.bitmap, j - f.base)))
  {
    var i := 0;
    while i < 8 * |f.bitmap|
      invariant 0 <= i <= 8 * |f.bitmap|
      invariant forall j :: 0 <= j < acked.Length ==>
                  (acked[j] <==> old(acked[j]) || (f.base <= j < f.base + i && Bit(f.bitmap, j - f.base)))
    {
      if f.bitmap[i / 8] & ((1 as bv8) << (i % 8)) != 0 {
        if f.base + i < acked.Length { acked[f.base + i] := true; }
      }
      i := i + 1;
    }
  }

  class ResourceSender {
    const id: Id
    const parts: seq<Bytes>
    const whole: Bytes
    const window: nat
    const rto: int
    const acked: array<bool>
    const sentAt: array<int>
    var base: nat
    var sentHigh: nat
    var outcome: Outcome

    ghost function Model(): Sender
      reads this, acked, sentAt
    {
      Sender(id, parts, whole, window, rto, base, acked[..], sentAt[..], sentHigh, outcome)
    }

    ghost predicate Valid()
      reads this, acked, sentAt
    {
      Model().Shape()
    }

    constructor (id: Id, parts: seq<Bytes>, whole: Bytes, window: int, rto: int)
      requires parts != []
      ensures Valid() && fresh(acked) && fresh(sentAt)
      ensures Model() == Sender(id, parts, whole, if window <= 0 then DEFAULT_WINDOW else window,
                                if rto <= 0 then DEFAULT_RTO else rto, 0,
                                seq(|parts|, _ => false), seq(|parts|, _ => 0), 0, Pending)
    {
      this.id, this.parts, this.whole := id, parts, whole;
      this.window := if window <= 0 then DEFAULT_WINDOW else window;
      this.rto := if rto <= 0 then DEFAULT_RTO else rto;
      acked := new bool[|parts|](_ => false);
      sentAt := new int[|parts|](_ => 0);
      base, sentHigh, outcome := 0, 0, Pending;
      new;
      assert acked[..] == seq(|parts|, _ => false);
      assert sentAt[..] == seq(|parts|, _ => 0);
    }

    /** Advertises the resource, once, and sends the first window. */
    method Start(now: int) returns (out: seq<Frame>)
      requires Valid()
      modifies this`sentHigh, sentAt
      ensures Valid() && Model() == old(Model()).Filled(now)
      ensures exists m :: IsMaxLen(parts, m) && out == [Adv(id, |parts|, m, whole)] + old(Model()).FillFrames()
    {
      var m := MaxPartLen(parts);
      var first := FillWindow(now);
      out := [Adv(id, |parts|, m, whole)] + first;
    }

    /** Sends the parts that newly fall inside [base, base+window). */
    method FillWindow(now: int) returns (out: seq<Frame>)
      requires Valid()
      modifies this`sentHigh, sentAt
      ensures Valid() && Model() == old(Model()).Filled(now) && out == old(Model()).FillFrames()
    {
      out := [];
      var limit := base + window;
      if limit > |parts| { limit := |parts|; }
      var i := sentHigh;
      ghost var was := Model();
      while i < limit
        invariant limit == was.Limit() && was.sentHigh == sentHigh
        invariant sentHigh <= i && (sentHigh < limit ==> i <= limit) && (limit <= sentHigh ==> i == sentHigh)
        invariant |out| == i - sentHigh
        invariant forall j :: 0 <= j < |out| ==> out[j] == Part(id, sentHigh + j, parts[sentHigh + j])
        invariant forall j :: 0 <= j < |parts| ==>
                    sentAt[j] == if sentHigh <= j < i then now else was.sentAt[j]
      {
        out := out + [Part(id, i, parts[i])];
        sentAt[i] := now;
        i := i + 1;
      }
      forall j | 0 <= j < |out|
        ensures |out| == |was.FillFrames()| && out[j] == was.FillFrames()[j]
      {
        assert was.FillFrames()[j] == was.PartFrame(was.sentHigh + j);
      }
      assert out == was.FillFrames();
      if limit > sentHigh { sentHigh := limit; }
      assert sentAt[..] == was.Filled(now).sentAt;
    }

    /** Re-sends the in-window parts that are unacknowledged and older than one rto. */
    method DueRetransmits(now: int) returns (out: seq<Frame>)
      requires Valid()
      modifies sentAt
      ensures Valid() && Model() == old(Model()).Resent(now) && out == old(Model()).DueFrames(base, now)
    {
      out := [];
      var limit := base + window;
      if limit > sentHigh { limit := sentHigh; }
      var i := base;
      ghost var was := Model();
      while i < limit
        invariant base <= i && (base <= limit ==> i <= limit)
        invariant out + was.DueFrames(i, now) == was.DueFrames(base, now)
        invariant forall j :: 0 <= j < |parts| ==>
                    sentAt[j] == if j < i && was.Due(j, now) then now else was.sentAt[j]
      {
        assert was.Due(i, now) <==> !acked[i] && now - sentAt[i] >= rto;
        DueFramesStep(was, i, now, out);
        if !acked[i] && now - sentAt[i] >= rto {
          out := out + [Part(id, i, parts[i])];
          sentAt[i] := now;
        }
        i := i + 1;
      }
      assert sentAt[..] == was.Resent(now).sentAt;
    }

    /** The timer body: overdue parts, then whatever the window newly admits. */
    method Tick(now: int) returns (out: seq<Frame>)
      requires Valid()
      modifies this`sentHigh, sentAt
      ensures Valid() && (Model(), out) == old(Model()).Tick(now)
    {
      var due := DueRetransmits(now);
      var more := FillWindow(now);
      out := due + more;
    }

    method Finish(o: Outcome)
      requires Valid()
      modifies this`outcome
      ensures Valid() && Model() == old(Model()).Finish(o)
    {
      if outcome == Pending { outcome := o; }
    }

    /** Marks every part the acknowledgement covers and raises base to the one it reports. */
    method MarkAcked(f: Frame)
      requires Valid() && f.Ack?
      modifies this`base, acked
      ensures Valid() && Model() == old(Model()).Acked(f)
    {
      ghost var was := acked[..];
      var i := 0;
      while i < f.base && i < acked.Length
        modifies acked
        invariant 0 <= i <= acked.Length && i <= f.base
        invariant forall j :: 0 <= j < acked.Length ==> (acked[j] <==> was[j] || j < i)
      {
        acked[i] := true;
        i := i + 1;
      }
      if f.base > base { base := f.base; }
      MarkBits(acked, f);
      assert acked[..] == old(Model()).Acked(f).acked;
    }

    method OnAck(f: Frame, now: int) returns (out: seq<Frame>)
      requires Valid() && f.Ack? && f.id == id
      modifies this, acked, sentAt
      ensures Valid() && (Model(), out) == old(Model()).Feed(f, now)
    {
      MarkAcked(f);
      if base >= |parts| {
        Finish(Delivered);
        out := [];
      } else {
        out := FillWindow(now);
      }
    }

    /** Consumes one control frame. */
    method Feed(f: Frame, now: int) returns (out: seq<Frame>)
      requires Valid()
      modifies this, acked, sentAt
      ensures Valid() && (Model(), out) == old(Model()).Feed(f, now)
    {
      out := [];
      if f.id != id { return; }
      match f {
        case Ack(_, _, _) => out := OnAck(f, now);
        case Done(_) => Finish(Delivered);
        case _ =>
      }
    }
  }

  /** A sender for data, or nothing when the part size is not positive. */
  method NewResourceSender(data: Bytes, partSize: int, window: int, rto: int, id: Id, hash: Hash)
    returns (sender: Option<ResourceSender>)
    ensures sender.None? <==> partSize <= 0
    ensures sender.Some? ==>
              && fresh(sender.value) && sender.value.Valid() && sender.value.id == id
              && Concat(sender.value.parts) == data && sender.value.whole == hash(data)
              && (forall i :: 0 <= i < |sender.value.parts| - 1 ==> |sender.value.parts[i]| == partSize)
              && 0 < |sender.value.parts| && |sender.value.parts[|sender.value.parts| - 1]| <= partSize
              && (data != [] ==> sender.value.parts[|sender.value.parts| - 1] != [])
              && sender.value.window == (if window <= 0 then DEFAULT_WINDOW else window)
              && sender.value.rto == (if rto <= 0 then DEFAULT_RTO else rto)
              && sender.value.base == 0 && sender.value.sentHigh == 0 && sender.value.outcome == Pending
              && forall i :: 0 <= i < |sender.value.parts| ==> !sender.value.acked[i]
  {
    if partSize <= 0 { return None; }
    var parts := SplitParts(data, partSize);
    var s := new ResourceSender(id, parts, hash(data), window, rto);
    forall i | 0 <= i < |parts|
      ensures !s.acked[i]
    {
      assert s.acked[..][i] == s.Model().acked[i];
    }
    sender := Some(s);
  }

  // ---- receiver ---------------------------------------------------------------

  lemma SetOneBit(b: bv8, k: nat, j: nat)
    requires k < 8 && j < 8
    ensures (b | ((1 as bv8) << k)) & ((1 as bv8) << j) != 0 <==> j == k || b & ((1 as bv8) << j) != 0
  {
    if j == 0 { } else if j == 1 { } else if j == 2 { } else if j == 3 { }
    else if j == 4 { } else if j == 5 { } else if j == 6 { } else { }
    if k == 0 { } else if k == 1 { } else if k == 2 { } else if k == 3 { }
    else if k == 4 { } else if k == 5 { } else if k == 6 { } else { }
  }

  /** Marks bit i of a bitmap and nothing else. */
  method MarkBit(bitmap: Bytes, i: nat) returns (marked: Bytes)
    requires i < 8 * |bitmap|
    ensures |marked| == |bitmap|
    ensures forall j: nat :: Bit(marked, j) <==> j == i || Bit(bitmap, j)
  {
    marked := bitmap[i / 8 := bitmap[i / 8] | ((1 as bv8) << (i % 8))];
    forall j: nat
      ensures Bit(marked, j) <==> j == i || Bit(bitmap, j)
    {
      SetOneBit(bitmap[i / 8], i % 8, j % 8);
    }
  }

  /** The acknowledgement for a receive state: the selective bitmap covers at most 256
      parts from base and loses its trailing zero bytes. */
  method AckFor(id: Id, st: RecvState) returns (ack: Frame)
    requires st.Valid()
    ensures IsAckOf(id, st, ack)
  {
    var span := st.total - st.base;
    if span <= 0 { return Ack(id, st.base, []); }
    var nbytes := (span + 7) / 8;
    if nbytes > MAX_ACK_BITMAP_BYTES { nbytes := MAX_ACK_BITMAP_BYTES; }
    var bm: Bytes := seq(nbytes, _ => 0);
    var i := 0;
    while i < nbytes * 8 && st.base + i < st.total
      invariant 0 <= i <= nbytes * 8 && |bm| == nbytes
      invariant forall j: nat :: Bit(bm, j) <==> j < i && st.base + j < st.total && st.got[st.base + j]
    {
      if st.got[st.base + i] { bm := MarkBit(bm, i); }
      i := i + 1;
    }
    while |bm| > 0 && bm[|bm| - 1] == 0
      invariant |bm| <= nbytes
      invariant forall j: nat :: Bit(bm, j) <==> j < i && st.base + j < st.total && st.got[st.base + j]
    {
      var shorter := bm[..|bm| - 1];
      forall j: nat
        ensures Bit(shorter, j) <==> Bit(bm, j)
      {
        if j / 8 == |bm| - 1 { assert bm[j / 8] == 0; }
      }
      bm := shorter;
    }
    ack := Ack(id, st.base, bm);
  }

  /** Stores a part that is not held yet and moves base past every part now held. */
  method AbsorbPart(st: RecvState, index: nat, data: Bytes) returns (st': RecvState)
    requires st.Valid() && index < st.total
    ensures st'.Valid() && st' == st.Absorb(index, data)
  {
    AbsorbValid(st, index, data);
    st' := st;
    if !st'.got[index] {
      st' := st'.(got := st'.got[index := true], parts := st'.parts[index := data], count := st'.count + 1);
      while st'.base < st'.total && st'.got[st'.base]
        invariant st.base <= st'.base <= st'.total == |st'.got|
        invariant st' == st.Absorb(index, data).(base := st'.base)
        invariant FirstGap(st'.got, st.base) == FirstGap(st'.got, st'.base)
        decreases st'.total - st'.base
      {
        st' := st'.(base := st'.base + 1);
      }
    }
  }

  class ResourceReceiver {
    const hash: Hash
    var byID: map<Id, RecvState>
    var finished: map<Id, int>

    ghost function Model(): Receiver
      reads this
    {
      Receiver(byID, finished)
    }

    /** Every buffered resource is consistent, and both tables stay within their caps. */
    ghost predicate Valid()
      reads this
    {
      Model().Valid() && |byID| <= MAX_INFLIGHT && |finished| <= MAX_FINISHED
    }

    constructor (hash: Hash)
      ensures Valid() && Model() == Receiver(map[], map[]) && this.hash == hash
    {
      this.hash := hash;
      byID, finished := map[], map[];
    }

    method OnAdv(f: Frame)
      requires Valid() && f.Adv?
      modifies this`byID
      ensures Valid() && Model() == FeedAdv(old(Model()), f)
    {
      if f.total <= 0 || f.total > MAX_PARTS { return; }
      if f.partSize > MAX_PART_SIZE { return; }
      if f.partSize > 0 && f.total > MAX_RESOURCE_BYTES / f.partSize { return; }
      if f.id !in byID {
        if |byID| >= MAX_INFLIGHT { return; }
        var st := NewState(f);
        NothingCounted(st.got);
        assert st.Valid();
        byID := byID[f.id := st];
      }
    }

    method OnPart(f: Frame, now: int) returns (replies: seq<Frame>, done: Option<Bytes>)
      requires Valid() && f.Part?
      modifies this
      ensures Valid() && FeedPart(hash, old(Model()), f, now, Model(), replies, done)
    {
      if f.id !in byID {
        return if f.id in finished then [Done(f.id)] else [], None;
      }
      var st := byID[f.id];
      assert st.Valid();
      if f.index >= st.total { return [], None; }
      st := AbsorbPart(st, f.index, f.data);
      var ack := AckFor(f.id, st);
      if st.count == st.total {
        var assembled := Assemble(st.parts);
        if hash(assembled) == st.whole {
          byID := byID - {f.id};
          RememberFinished(f.id, now);
          return [ack, Done(f.id)], Some(assembled);
        }
      }
      byID := byID[f.id := st];
      return [ack], None;
    }

    method PruneExpired(now: int)
      modifies this`finished
      ensures finished == Fresh(old(finished), now)
    {
      ghost var was := finished;
      var todo := finished.Keys;
      while todo != {}
        invariant todo <= finished.Keys <= was.Keys
        invariant forall k :: k in finished ==> finished[k] == was[k]
        invariant forall k :: k in was && k !in todo ==> (k in finished <==> now - was[k] < FINISHED_TTL)
        decreases |todo|
      {
        var k :| k in todo;
        if now - finished[k] >= FINISHED_TTL { finished := finished - {k}; }
        todo := todo - {k};
      }
    }

    /** Keeps at most 1024 completed ids: expired ones are dropped first, then arbitrary
        ones, and the id just completed is always kept. */
    method RememberFinished(id: Id, now: int)
      requires |finished| <= MAX_FINISHED
      modifies this`finished
      ensures Remembered(old(finished), id, now, finished) && |finished| <= MAX_FINISHED
    {
      if |finished| >= MAX_FINISHED {
        ghost var was := finished;
        PruneExpired(now);
        SubsetCard(finished.Keys, was.Keys);
        if |finished| >= MAX_FINISHED {
          assert |finished.Keys| == MAX_FINISHED;
          var k :| k in finished;
          finished := finished - {k};
          assert finished.Keys == Fresh(was, now).Keys - {k};
        }
        assert finished == KeepIn(was, finished.Keys);
        assert IsKept(was, now, finished.Keys);
      }
      finished := finished[id := now];
    }
  }

  method Assemble(parts: seq<Bytes>) returns (out: Bytes)
    ensures out == Concat(parts)
  {
    out := [];
    for i := 0 to |parts|
      invariant out == Concat(parts[..i])
    {
      ConcatPush(parts[..i], parts[i]);
      assert parts[..i + 1] == parts[..i] + [parts[i]];
      out := out + parts[i];
    }
    assert parts[..|parts|] == parts;
  }

}
